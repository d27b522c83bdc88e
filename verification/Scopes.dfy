/** Budget scopes and counter amounts, shared by every budget implementation. */
module Scopes {

  datatype Option<+T> = None | Some(value: T)

  /** A scope is addressed by a keyed digest of its parent and its name. The digest is
      taken to be injective, so the address is the path of names itself. */
  datatype ScopeId = Root(name: string) | Child(parent: ScopeId, name: string)
  {
    function RootOf(): ScopeId {
      match this
      case Root(_) => this
      case Child(p, _) => p.RootOf()
    }

    function ParentOf(): Option<ScopeId> {
      if Root? then None else Some(parent)
    }

    function Depth(): nat {
      if Root? then 0 else parent.Depth() + 1
    }
  }

  /** The scopes charged together with `s`: the root first, `s` last. */
  function Chain(s: ScopeId): (chain: seq<ScopeId>)
    ensures |chain| == s.Depth() + 1
    ensures chain[0] == s.RootOf() && chain[|chain| - 1] == s
  {
    match s
    case Root(_) => [s]
    case Child(p, _) => Chain(p) + [s]
  }

  /** `s` lies in the subtree of `top`. */
  predicate Under(s: ScopeId, top: ScopeId) {
    s == top || (s.Child? && Under(s.parent, top))
  }

  lemma ChainIsAncestors(s: ScopeId, a: ScopeId)
    ensures a in Chain(s) <==> Under(s, a)
  {
    if s.Child? {
      ChainIsAncestors(s.parent, a);
    }
  }

  lemma ChainOfPosition(s: ScopeId, i: nat)
    requires i < |Chain(s)|
    ensures Chain(s)[i].Depth() == i
    ensures Chain(s)[i].ParentOf() == if i == 0 then None else Some(Chain(s)[i - 1])
    ensures Chain(Chain(s)[i]) == Chain(s)[..i + 1]
  {
    if s.Child? && i < |Chain(s.parent)| {
      ChainOfPosition(s.parent, i);
      assert Chain(s)[..i + 1] == Chain(s.parent)[..i + 1];
    } else {
      assert Chain(s)[..i + 1] == Chain(s);
    }
  }

  lemma ChainDistinct(s: ScopeId)
    ensures forall i, j :: 0 <= i < j < |Chain(s)| ==> Chain(s)[i] != Chain(s)[j]
  {
    forall i, j | 0 <= i < j < |Chain(s)| ensures Chain(s)[i] != Chain(s)[j] {
      ChainOfPosition(s, i);
      ChainOfPosition(s, j);
    }
  }

  lemma UnderTransitive(s: ScopeId, mid: ScopeId, top: ScopeId)
    requires Under(s, mid) && Under(mid, top)
    ensures Under(s, top)
  {
  }

  lemma UnderDepth(s: ScopeId, top: ScopeId)
    requires Under(s, top)
    ensures top.Depth() <= s.Depth()
    ensures s.RootOf() == top.RootOf()
  {
  }

  /** A strict descendant lies under exactly one child of `top`. */
  function BranchToward(s: ScopeId, top: ScopeId): (branch: ScopeId)
    requires Under(s, top) && s != top
    ensures branch.Child? && branch.parent == top && Under(s, branch)
    decreases s
  {
    if s.parent == top then s else BranchToward(s.parent, top)
  }

  lemma OneBranch(s: ScopeId, top: ScopeId, branch: ScopeId)
    requires branch.Child? && branch.parent == top && Under(s, branch)
    ensures Under(s, top) && s != top && BranchToward(s, top) == branch
  {
    UnderTransitive(s, branch, top);
    UnderDepth(s, branch);
    if s != branch {
      OneBranch(s.parent, top, branch);
    }
  }

  // ----- counter amounts -----

  type Amounts = map<string, nat>

  /** An absent counter reads as zero. */
  function At(m: Amounts, c: string): nat {
    if c in m then m[c] else 0
  }

  /** The normalized form of caller-supplied amounts: names must be non-empty and values
      non-negative; zero entries are dropped on request. */
  function Normalized(raw: map<string, int>, dropZero: bool): Option<Amounts> {
    if exists c :: c in raw && (c == "" || raw[c] < 0) then None
    else Some(map c | c in raw && (raw[c] != 0 || !dropZero) :: raw[c])
  }

  method ValidateAmounts(raw: map<string, int>, dropZero: bool) returns (normalized: Option<Amounts>)
    ensures normalized == Normalized(raw, dropZero)
  {
    var kept: Amounts := map[];
    var todo := raw.Keys;
    while todo != {}
      invariant todo <= raw.Keys
      invariant forall c :: c in raw && c !in todo ==> c != "" && raw[c] >= 0
      invariant forall c :: c in kept <==> c in raw && c !in todo && (raw[c] != 0 || !dropZero)
      invariant forall c :: c in kept ==> kept[c] == raw[c]
      decreases todo
    {
      var c :| c in todo;
      if c == "" || raw[c] < 0 {
        return None;
      }
      if raw[c] != 0 || !dropZero {
        kept := kept[c := raw[c]];
      }
      todo := todo - {c};
    }
    var expected := map c | c in raw && (raw[c] != 0 || !dropZero) :: raw[c];
    assert kept == expected;
    normalized := Some(kept);
  }

  /** Amounts are taken exactly when every name is non-empty and no value negative; what is kept are the
      given values, without the zeros if those are to go. */
  lemma NormalizedExactly(raw: map<string, int>, dropZero: bool)
    ensures Normalized(raw, dropZero).Some? <==> forall c :: c in raw ==> |c| > 0 && raw[c] >= 0
    ensures Normalized(raw, dropZero).Some? ==>
            forall c :: c in Normalized(raw, dropZero).value <==> c in raw && !(dropZero && raw[c] == 0)
    ensures Normalized(raw, dropZero).Some? ==>
            forall c :: c in Normalized(raw, dropZero).value ==> Normalized(raw, dropZero).value[c] == raw[c]
  {
    assert forall c: string :: c == "" <==> |c| == 0;
  }

  /** Normalizing again changes nothing: stored amounts decode to themselves. */
  lemma NormalizedIsStable(raw: map<string, int>, dropZero: bool)
    requires Normalized(raw, dropZero).Some?
    ensures Normalized(Normalized(raw, dropZero).value, dropZero) == Normalized(raw, dropZero)
    ensures forall c :: At(Normalized(raw, dropZero).value, c) == if c in raw then raw[c] else 0
  {
    var once := Normalized(raw, dropZero).value;
    var again := Normalized(once, dropZero);
    assert again.Some? && again.value == once;
  }
}
