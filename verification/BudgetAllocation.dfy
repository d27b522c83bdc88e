/** Why carving child limits out of parent limits pays: when work is only ever charged at
    leaf scopes, the leaf's own cap already decides every capacity check. */
module BudgetAllocation {
  import opened Scopes
  import opened Sums
  import opened BudgetBook
  import opened BudgetTree

  function Load(b: Book, s: ScopeId, c: string): nat {
    Used(b, s, c) + Reserved(b, s, c)
  }

  function Share(e: Entry, s: ScopeId, c: string): nat {
    HeldUnder(e, s, c) + ChargedUnder(e, s, c)
  }

  function Kids(db: Db, p: ScopeId): set<ScopeId> {
    set s | s in db.scopes && db.scopes[s].parent == Some(p)
  }

  predicate IsLeaf(db: Db, s: ScopeId) {
    Kids(db, s) == {}
  }

  /** No reservation made at an inner scope ever held or charged counter `c`. */
  predicate ChargedOnlyAtLeaves(db: Db, b: Book, c: string) {
    forall i :: 0 <= i < |b| ==> IsLeaf(db, b[i].scope) || Share(b[i], b[i].scope, c) == 0
  }

  predicate LimitedEverywhere(db: Db, c: string) {
    forall s :: s in db.scopes ==> c in LimitOf(db.limits, s)
  }

  ghost function KidLoads(db: Db, b: Book, p: ScopeId, c: string): map<ScopeId, nat> {
    map k | k in Kids(db, p) :: Load(b, k, c)
  }

  ghost function KidShares(db: Db, e: Entry, p: ScopeId, c: string): map<ScopeId, nat> {
    map k | k in Kids(db, p) :: Share(e, k, c)
  }

  /** One entry made below `p` counts under exactly one child of `p`. */
  lemma {:induction false} ShareSplits(db: Db, e: Entry, p: ScopeId, c: string)
    requires TreeOk(db) && e.scope in db.scopes
    requires e.scope == p ==> Share(e, p, c) == 0
    ensures Share(e, p, c) == Total(KidShares(db, e, p, c))
  {
    var shares := KidShares(db, e, p, c);
    if Under(e.scope, p) && e.scope != p {
      var branch := BranchToward(e.scope, p);
      AncestorsStored(db, e.scope, branch);
      assert db.scopes[branch].parent == branch.ParentOf();
      forall k | k in shares && k != branch ensures shares[k] == 0 {
        assert db.scopes[k].parent == k.ParentOf();
        if Under(e.scope, k) {
          OneBranch(e.scope, p, k);
        }
      }
      TotalSingle(shares, branch);
    } else {
      forall k | k in shares ensures shares[k] == 0 {
        assert db.scopes[k].parent == k.ParentOf();
        if Under(e.scope, k) {
          OneBranch(e.scope, p, k);
        }
      }
      TotalZero(shares);
    }
  }

  /** The load of an inner scope is the sum of its children's loads. */
  lemma {:induction false} LoadSplits(db: Db, b: Book, p: ScopeId, c: string)
    requires TreeOk(db) && !IsLeaf(db, p) && ChargedOnlyAtLeaves(db, b, c)
    requires forall i :: 0 <= i < |b| ==> b[i].scope in db.scopes
    ensures Load(b, p, c) == Total(KidLoads(db, b, p, c))
    decreases |b|
  {
    if |b| == 0 {
      TotalZero(KidLoads(db, b, p, c));
    } else {
      var n := |b| - 1;
      LoadSplits(db, b[..n], p, c);
      ShareSplits(db, b[n], p, c);
      TotalSum(KidLoads(db, b, p, c), KidLoads(db, b[..n], p, c), KidShares(db, b[n], p, c));
    }
  }

  /** If one child can take `delta` more, so can its parent. */
  lemma {:induction false} RoomClimbs(db: Db, b: Book, k: ScopeId, c: string, delta: int)
    requires Inv(db, b) && LimitedEverywhere(db, c) && ChargedOnlyAtLeaves(db, b, c)
    requires k in db.scopes && k.Child? && k.parent in db.scopes
    requires Load(b, k, c) + delta <= LimitOf(db.limits, k)[c]
    ensures Load(b, k.parent, c) + delta <= LimitOf(db.limits, k.parent)[c]
  {
    var p := k.parent;
    assert db.scopes[k].parent == k.ParentOf();
    assert k in Kids(db, p);
    var loads := KidLoads(db, b, p, c);
    var limits := ChildLimits(db, p, c, None);
    LoadSplits(db, b, p, c);
    TotalWithout(loads, k);
    TotalWithout(limits, k);
    forall j | j in loads - {k} ensures j in limits - {k} && loads[j] <= limits[j] {
      assert CapAt(db.limits, b, j, c);
    }
    TotalMonotone(loads - {k}, limits - {k});
    assert AllocatedAt(db, p, c);
  }

  lemma {:induction false} RoomAtEveryAncestor(db: Db, b: Book, s: ScopeId, top: ScopeId, c: string, delta: int)
    requires Inv(db, b) && LimitedEverywhere(db, c) && ChargedOnlyAtLeaves(db, b, c)
    requires s in db.scopes && Under(s, top)
    requires Load(b, s, c) + delta <= LimitOf(db.limits, s)[c]
    ensures top in db.scopes && Load(b, top, c) + delta <= LimitOf(db.limits, top)[c]
    decreases s
  {
    if s != top {
      assert ParentStored(db, s);
      RoomClimbs(db, b, s, c, delta);
      RoomAtEveryAncestor(db, b, s.parent, top, c, delta);
    }
  }

  /** For counters limited everywhere and charged only at leaves, the check of the whole
      chain succeeds exactly when the check of the scope itself does. */
  lemma {:induction false} LeafCapDecides(db: Db, b: Book, s: ScopeId, amounts: Amounts, replaced: Amounts)
    requires Inv(db, b) && s in db.scopes
    requires forall c :: c in amounts ==> LimitedEverywhere(db, c) && ChargedOnlyAtLeaves(db, b, c)
    ensures CellsFit(db, s, amounts, replaced) <==> CellsFitAt(db, s, amounts, replaced)
  {
    assert s in Chain(s);
    if CellsFitAt(db, s, amounts, replaced) {
      forall top | top in Chain(s) ensures CellsFitAt(db, top, amounts, replaced) {
        ChainIsAncestors(s, top);
        forall c | c in amounts && c in LimitOf(db.limits, top)
          ensures CellAt(db, top, c).used + CellAt(db, top, c).reserved - At(replaced, c) + amounts[c]
                  <= LimitOf(db.limits, top)[c]
        {
          assert CellOk(db, b, s, c) && c in LimitOf(db.limits, s);
          RoomAtEveryAncestor(db, b, s, top, c, amounts[c] - At(replaced, c));
          assert CellOk(db, b, top, c);
        }
      }
    }
  }
}
