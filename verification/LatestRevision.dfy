/** Which version comes first, which constraint admits it, and which revision is the latest. */
module LatestRevision {
  import opened Scopes
  import opened Versions
  import opened Cycles
  import opened Registry
  import opened Orders

  // ----- the order of texts and of version numbers -----

  /** A text comes after its own beginnings. */
  lemma {:induction false} BeginningFirst(start: string, more: string)
    ensures StringLeq(start, start + more)
  {
    if start != "" {
      BeginningFirst(start[1..], more);
      assert (start + more)[1..] == start[1..] + more;
    }
  }

  /** Where two texts part, the earlier character decides. */
  lemma {:induction false} FirstDifferenceDecides(start: string, a: char, more: string, b: char, rest: string)
    requires a < b
    ensures StringLeq(start + ([a] + more), start + ([b] + rest))
    ensures !StringLeq(start + ([b] + rest), start + ([a] + more))
  {
    if start == "" {
      assert start + ([a] + more) == [a] + more && start + ([b] + rest) == [b] + rest;
    } else {
      FirstDifferenceDecides(start[1..], a, more, b, rest);
      assert (start + ([a] + more))[1..] == start[1..] + ([a] + more);
      assert (start + ([b] + rest))[1..] == start[1..] + ([b] + rest);
    }
  }

  /** Written with digits large enough for both, the lower version is the lower number. */
  lemma {:induction false} VersionLessIsNumeric(a: Version, b: Version, base: nat)
    requires a.minor < base && a.patch < base && b.minor < base && b.patch < base
    ensures VersionLess(a, b) <==>
            (a.major * base + a.minor) * base + a.patch < (b.major * base + b.minor) * base + b.patch
  {
    LeadingPart(a.major, a.minor, b.major, b.minor, base);
    LeadingPart(a.major * base + a.minor, a.patch, b.major * base + b.minor, b.patch, base);
  }

  /** The leading part decides unless it is equal. */
  lemma {:induction false} LeadingPart(x: nat, i: nat, y: nat, j: nat, base: nat)
    requires i < base && j < base
    ensures x * base + i < y * base + j <==> x < y || (x == y && i < j)
    ensures x * base + i == y * base + j <==> x == y && i == j
  {
    if x < y {
      assert (x + 1) * base <= y * base;
      assert x * base + base <= y * base;
    } else if y < x {
      assert (y + 1) * base <= x * base;
      assert y * base + base <= x * base;
    }
  }

  // ----- constraints -----

  lemma {:induction false} StartsWithDigit(text: string)
    requires VersionNumber(text).Some?
    ensures |text| > 0 && IsDigit(text[0])
  {
  }

  /** The comparisons mean what they say. */
  lemma {:induction false} ComparisonsAreRanges(text: string, v: Version)
    requires VersionNumber(text).Some?
    ensures var target := VersionNumber(text).value;
            && (WordAllows(">=" + text, v) <==> v == target || VersionLess(target, v))
            && (WordAllows("<=" + text, v) <==> v == target || VersionLess(v, target))
            && (WordAllows(">" + text, v) <==> VersionLess(target, v))
            && (WordAllows("<" + text, v) <==> VersionLess(v, target))
            && (WordAllows(text, v) <==> v == target)
  {
    StartsWithDigit(text);
    hide VersionNumber, WordAllows;
    WithBound(">", text, v);
    WithBound("<", text, v);
    Strictly(">", text, v);
    Strictly("<", text, v);
    hide VersionLess;
    NoOperator(text, v);
  }

  lemma WithBound(op: string, text: string, v: Version)
    requires op in [">", "<"] && VersionNumber(text).Some?
    ensures var target := VersionNumber(text).value;
            WordAllows(op + "=" + text, v) <==>
            v == target || if op == ">" then VersionLess(target, v) else VersionLess(v, target)
  {
    hide VersionNumber;
    var word := op + "=" + text;
    assert word[2..] == text && word[..2] == op + "=" && word[0] == op[0];
  }

  lemma Strictly(op: string, text: string, v: Version)
    requires op in [">", "<"] && VersionNumber(text).Some? && |text| > 0 && IsDigit(text[0])
    ensures var target := VersionNumber(text).value;
            WordAllows(op + text, v) <==> if op == ">" then VersionLess(target, v) else VersionLess(v, target)
  {
    hide VersionNumber, VersionLess;
    var word := op + text;
    assert word[1..] == text && word[..1] == op && word[..2][1] == text[0];
  }

  lemma NoOperator(text: string, v: Version)
    requires VersionNumber(text).Some? && |text| > 0 && IsDigit(text[0])
    ensures WordAllows(text, v) <==> v == VersionNumber(text).value
  {
    hide VersionNumber, VersionLess;
  }

  /** A word that names no version after its operator admits nothing. */
  lemma {:induction false} NoVersionNoRange(text: string, v: Version)
    requires VersionNumber(text).None?
    ensures !WordAllows("^" + text, v) && !WordAllows("~" + text, v) && !WordAllows(">=" + text, v)
            && !WordAllows("<=" + text, v)
  {
    hide VersionNumber;
    assert ("^" + text)[1..] == text && ("~" + text)[1..] == text;
    assert (">=" + text)[2..] == text && ("<=" + text)[2..] == text && (">=" + text)[..2] == ">=";
    assert ("<=" + text)[..2] == "<=" && (">=" + text)[0] == '>' && ("<=" + text)[0] == '<';
    assert ("^" + text)[..1] == "^" && ("~" + text)[..1] == "~";
  }

  predicate Plain(word: string) {
    word != "" && forall c :: c in word ==> !IsSpace(c)
  }

  lemma {:induction false} WholeWord(word: string, rest: string)
    requires (forall c :: c in word ==> !IsSpace(c)) && (rest == "" || IsSpace(rest[0]))
    ensures FirstWord(word + rest) == |word|
  {
    if word == "" {
      assert word + rest == rest;
    } else {
      assert (word + rest)[1..] == word[1..] + rest;
      WholeWord(word[1..], rest);
    }
  }

  lemma {:induction false} TwoWords(first: string, second: string)
    requires Plain(first) && Plain(second)
    ensures Words(first) == [first] && Words(first + " " + second) == [first, second]
    ensures Strip(first) == first && Strip(first + " " + second) == first + " " + second
  {
    WholeWord(first, "");
    WholeWord(second, "");
    assert first + "" == first && second + "" == second;
    var both := first + (" " + second);
    assert first + " " + second == both;
    WholeWord(first, " " + second);
    assert both[..|first|] == first && both[|first|..] == " " + second && (" " + second)[1..] == second;
    assert Words(second) == [second];
    assert Words(" " + second) == [second];
  }

  /** Every word of a constraint has to admit the version. */
  lemma {:induction false} ConstraintsAddUp(version: string, first: string, second: string)
    requires Plain(first) && Plain(second) && first != "*" && VersionNumber(version).Some?
    ensures Satisfies(version, first) <==> WordAllows(first, VersionNumber(version).value)
    ensures Satisfies(version, first + " " + second) <==>
            WordAllows(first, VersionNumber(version).value) && WordAllows(second, VersionNumber(version).value)
  {
    TwoWords(first, second);
    assert (first + " " + second)[|first|] == ' ' && |first + " " + second| > 1;
    hide VersionNumber, Words, Strip, WordAllows;
  }

  /** An empty constraint and the star admit every version, and a version that is no number is
      admitted otherwise only by its own text. */
  lemma AnyVersion(version: string, constraint: string)
    ensures Satisfies(version, "") && Satisfies(version, "*") && Satisfies(version, " * ")
    ensures VersionNumber(version).None? ==>
            (Satisfies(version, constraint) <==> Strip(constraint) in ["", "*", version])
  {
    assert Strip("*") == "*" && Strip(" * ") == "*" by {
      assert " * "[1..] == "* " && "* "[..1] == "*";
    }
  }

  // ----- the latest revision -----

  /** Neither number, nor version text, nor revision text of `s` is ahead of those of `r`. */
  predicate NotAhead(revisions: Revisions, s: string, r: string)
    requires s in revisions && r in revisions
  {
    var a, b := revisions[s].identity.version, revisions[r].identity.version;
    && (VersionNumber(a).Some? ==>
          VersionNumber(b).Some? && !VersionLess(VersionNumber(b).value, VersionNumber(a).value))
    && (VersionNumber(a) == VersionNumber(b) ==> StringLeq(a, b) && (a == b ==> StringLeq(s, r)))
  }

  lemma {:induction false} VersionLessStrict(a: Version, b: Version)
    ensures !(VersionLess(a, b) && VersionLess(b, a))
    ensures a == b || VersionLess(a, b) || VersionLess(b, a)
  {
  }

  lemma {:induction false} BeforeIsNotAhead(revisions: Revisions, s: string, r: string)
    requires s in revisions && r in revisions
    ensures Before(revisions, s, r) <==> NotAhead(revisions, s, r)
  {
    var a, b := revisions[s].identity.version, revisions[r].identity.version;
    if VersionNumber(a).Some? && VersionNumber(b).Some? {
      VersionLessStrict(VersionNumber(a).value, VersionNumber(b).value);
    }
    StringOrder(a, b);
    hide VersionNumber, VersionLess, StringLeq;
  }

  /** The revision that activation takes by itself: registered for the coordinate, and no other one of
      the coordinate is ahead of it. */
  lemma {:induction false} LatestIsHighest(revisions: Revisions, c: string)
    ensures LatestOf(revisions, c).None? <==> forall s :: !SameCoordinate(revisions, s, c)
    ensures LatestOf(revisions, c).Some? ==>
            var r := LatestOf(revisions, c).value;
            SameCoordinate(revisions, r, c) && forall s :: SameCoordinate(revisions, s, c) ==> NotAhead(revisions, s, r)
  {
    if s :| SameCoordinate(revisions, s, c) {
      LatestExists(revisions, c, s);
    }
    if LatestOf(revisions, c).Some? {
      var r := LatestOf(revisions, c).value;
      assert Latest(revisions, c, r);
      forall s | SameCoordinate(revisions, s, c) ensures NotAhead(revisions, s, r) {
        BeforeIsNotAhead(revisions, s, r);
      }
    }
  }

  lemma {:induction false} LatestExists(revisions: Revisions, c: string, s: string)
    requires SameCoordinate(revisions, s, c)
    ensures exists r :: Latest(revisions, c, r)
  {
    var all := set r | r in revisions && SameCoordinate(revisions, r, c);
    var leq := (a, b) => a in revisions && b in revisions && Before(revisions, b, a);
    forall a, b | a in all && b in all ensures leq(a, b) || leq(b, a) {
      RevisionOrder(revisions[a].identity.version, a, revisions[b].identity.version, b);
    }
    forall x, y, z | x in all && y in all && z in all && leq(x, y) && leq(y, z) ensures leq(x, z) {
      RevisionTransitive(revisions[z].identity.version, z, revisions[y].identity.version, y,
                         revisions[x].identity.version, x);
    }
    hide RevisionLeq;
    assert s in all;
    LeastExists(leq, all);
    var r :| IsLeast(leq, all, r);
    assert Latest(revisions, c, r) by {
      forall t | SameCoordinate(revisions, t, c) ensures Before(revisions, t, r) {
        assert t in all && leq(r, t);
      }
    }
  }

  /** Activating without a revision: a success leaves the coordinate at a registered revision of its
      own that no other one is ahead of, as if that one had been named, and it fails for want of one
      exactly when there is none. */
  lemma {:induction false} ActivatesTheLatest(policy: Policy, reg: Reg, c: string)
    requires Valid(reg)
    ensures var (reg', fault) := Activate(policy, reg, c, None);
            && (fault.None? ==>
                  && c in reg'.active && SameCoordinate(reg.revisions, reg'.active[c], c)
                  && forall s :: SameCoordinate(reg.revisions, s, c) ==> NotAhead(reg.revisions, s, reg'.active[c]))
            && (fault == Some(UnknownCoordinate) <==>
                  !reg.frozen && forall s :: !SameCoordinate(reg.revisions, s, c))
            && (LatestOf(reg.revisions, c).Some? ==>
                  (reg', fault) == Activate(policy, reg, c, Some(LatestOf(reg.revisions, c).value)))
  {
    LatestIsHighest(reg.revisions, c);
    hide NotAhead, ActiveFault, LatestOf;
    ActiveFaults(policy, reg, c);
    if Activate(policy, reg, c, None).1.None? {
      ActivationPoints(policy, reg, c, None);
    }
    hide Valid;
  }

  lemma ActiveFaults(policy: Policy, reg: Reg, c: string)
    ensures forall r :: ActiveFault(policy, reg.revisions, Candidate(reg, c, r)) != Some(UnknownCoordinate)
  {
    hide DependenciesMet, Cyclic, ConflictFree, Projected, GraphOf, Candidate;
  }

  /** The manifests that registration projects: of every registered coordinate exactly one, and no
      other revision of it is ahead. */
  lemma {:induction false} LatestManifestsAreHighest(revisions: Revisions, m: Manifest)
    requires Named(revisions)
    ensures m in LatestManifests(revisions) <==>
            var r := m.identity.Revision();
            && r in revisions && revisions[r] == m
            && forall s :: SameCoordinate(revisions, s, m.identity.Coordinate()) ==> NotAhead(revisions, s, r)
  {
    var r := m.identity.Revision();
    if r in revisions && revisions[r] == m {
      forall s | SameCoordinate(revisions, s, m.identity.Coordinate())
        ensures Before(revisions, s, r) <==> NotAhead(revisions, s, r)
      {
        BeforeIsNotAhead(revisions, s, r);
      }
    }
    hide NotAhead, RevisionLeq;
  }
}
