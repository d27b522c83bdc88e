/** Version numbers, version constraints, and the order of revisions. */
module Versions {
  import opened Scopes

  datatype Version = Version(major: nat, minor: nat, patch: nat)

  // ----- order of strings and versions -----

  /** Strings compare character by character. */
  predicate StringLeq(a: string, b: string) {
    |a| == 0 || (|b| > 0 && (a[0] < b[0] || (a[0] == b[0] && StringLeq(a[1..], b[1..]))))
  }

  lemma {:induction false} StringOrder(a: string, b: string)
    ensures StringLeq(a, b) || StringLeq(b, a)
    ensures StringLeq(a, b) && StringLeq(b, a) ==> a == b
    ensures StringLeq(a, a)
  {
    if |a| > 0 {
      StringOrder(a[1..], if |b| > 0 then b[1..] else "");
      if |b| > 0 && a[0] == b[0] && a[1..] == b[1..] {
        assert a == [a[0]] + a[1..] && b == [b[0]] + b[1..];
      }
    }
  }

  lemma {:induction false} StringTransitive(a: string, b: string, c: string)
    requires StringLeq(a, b) && StringLeq(b, c)
    ensures StringLeq(a, c)
  {
    if |a| > 0 && a[0] == b[0] && b[0] == c[0] {
      StringTransitive(a[1..], b[1..], c[1..]);
    }
  }

  predicate VersionLess(a: Version, b: Version) {
    a.major < b.major || (a.major == b.major && (a.minor < b.minor || (a.minor == b.minor && a.patch < b.patch)))
  }

  // ----- reading a version -----

  predicate IsDigit(c: char) {
    '0' <= c <= '9'
  }

  function LeadingDigits(s: string): (n: nat)
    ensures n <= |s|
  {
    if |s| > 0 && IsDigit(s[0]) then 1 + LeadingDigits(s[1..]) else 0
  }

  function DigitValue(c: char): nat
    requires IsDigit(c)
  {
    c as int - '0' as int
  }

  function Number(digits: string): nat
    requires forall i :: 0 <= i < |digits| ==> IsDigit(digits[i])
  {
    if |digits| == 0 then 0 else 10 * Number(digits[..|digits| - 1]) + DigitValue(digits[|digits| - 1])
  }

  lemma {:induction false} LeadingAreDigits(s: string)
    ensures forall i :: 0 <= i < LeadingDigits(s) ==> IsDigit(s[i])
  {
    if |s| > 0 && IsDigit(s[0]) {
      LeadingAreDigits(s[1..]);
    }
  }

  function LeadingNumber(s: string): nat {
    LeadingAreDigits(s);
    Number(s[..LeadingDigits(s)])
  }

  /** An optional `.digits`; what does not look like one is left for the rest. */
  function OptionalPart(s: string): (r: (nat, string)) {
    if |s| > 0 && s[0] == '.' && LeadingDigits(s[1..]) > 0
    then (LeadingNumber(s[1..]), s[1 + LeadingDigits(s[1..])..])
    else (0, s)
  }

  predicate VersionSuffix(s: string) {
    s == "" || ((s[0] == '-' || s[0] == '+') && '\n' !in s)
  }

  function VersionNumber(s: string): Option<Version> {
    if LeadingDigits(s) == 0 then None
    else
      var (minor, afterMinor) := OptionalPart(s[LeadingDigits(s)..]);
      var (patch, rest) := OptionalPart(afterMinor);
      if VersionSuffix(rest) then Some(Version(LeadingNumber(s), minor, patch)) else None
  }

  // ----- constraints -----

  predicate IsSpace(c: char) {
    c in " \t\n\r\U{0B}\U{0C}\U{1C}\U{1D}\U{1E}\U{1F}"
  }

  function FirstWord(s: string): (n: nat)
    ensures n <= |s|
  {
    if |s| > 0 && !IsSpace(s[0]) then 1 + FirstWord(s[1..]) else 0
  }

  function Words(s: string): seq<string>
    decreases |s|
  {
    if |s| == 0 then []
    else if IsSpace(s[0]) then Words(s[1..])
    else [s[..FirstWord(s)]] + Words(s[FirstWord(s)..])
  }

  function StripLeft(s: string): string {
    if |s| > 0 && IsSpace(s[0]) then StripLeft(s[1..]) else s
  }

  function StripRight(s: string): string {
    if |s| > 0 && IsSpace(s[|s| - 1]) then StripRight(s[..|s| - 1]) else s
  }

  function Strip(s: string): string {
    StripRight(StripLeft(s))
  }

  predicate StartsWith(s: string, prefix: string) {
    |prefix| <= |s| && s[..|prefix|] == prefix
  }

  /** One word of a constraint, against the parsed version. */
  predicate WordAllows(word: string, v: Version) {
    if StartsWith(word, "^") then
      var lower := VersionNumber(word[1..]);
      lower.Some? && !VersionLess(v, lower.value) && v.major == lower.value.major
    else if StartsWith(word, "~") then
      var lower := VersionNumber(word[1..]);
      lower.Some? && !VersionLess(v, lower.value) && v.major == lower.value.major && v.minor == lower.value.minor
    else if StartsWith(word, ">=") then
      var target := VersionNumber(word[2..]);
      target.Some? && !VersionLess(v, target.value)
    else if StartsWith(word, "<=") then
      var target := VersionNumber(word[2..]);
      target.Some? && !VersionLess(target.value, v)
    else if StartsWith(word, ">") then
      var target := VersionNumber(word[1..]);
      target.Some? && VersionLess(target.value, v)
    else if StartsWith(word, "<") then
      var target := VersionNumber(word[1..]);
      target.Some? && VersionLess(v, target.value)
    else VersionNumber(word) == Some(v)
  }

  predicate Satisfies(version: string, constraint: string) {
    var wanted := Strip(constraint);
    wanted == "" || wanted == "*" ||
    match VersionNumber(version)
    case None => wanted == version
    case Some(v) => forall word :: word in Words(wanted) ==> WordAllows(word, v)
  }

  /** A caret allows exactly the versions from the named one up to the next major version. */
  lemma CaretIsRange(text: string, v: Version)
    requires VersionNumber(text).Some?
    ensures var lower := VersionNumber(text).value;
            WordAllows("^" + text, v) <==> !VersionLess(v, lower) && VersionLess(v, Version(lower.major + 1, 0, 0))
  {
    assert ("^" + text)[1..] == text && ("^" + text)[..1] == "^";
  }

  /** A tilde allows exactly the versions from the named one up to the next minor version. */
  lemma TildeIsRange(text: string, v: Version)
    requires VersionNumber(text).Some?
    ensures var lower := VersionNumber(text).value;
            WordAllows("~" + text, v) <==>
            !VersionLess(v, lower) && VersionLess(v, Version(lower.major, lower.minor + 1, 0))
  {
    assert ("~" + text)[1..] == text && ("~" + text)[..1] == "~";
  }

  // ----- writing a version and reading it back -----

  function Decimal(n: nat): (s: string)
    ensures |s| > 0 && forall i :: 0 <= i < |s| ==> IsDigit(s[i])
  {
    if n < 10 then ['0' + n as char] else Decimal(n / 10) + ['0' + (n % 10) as char]
  }

  lemma {:induction false} DecimalReads(n: nat)
    ensures Number(Decimal(n)) == n
  {
    var s := Decimal(n);
    if n >= 10 {
      DecimalReads(n / 10);
      assert s[..|s| - 1] == Decimal(n / 10);
    } else {
      assert s[..|s| - 1] == "";
      assert Number("") == 0;
    }
  }

  lemma {:induction false} DigitsStop(digits: string, rest: string)
    requires forall i :: 0 <= i < |digits| ==> IsDigit(digits[i])
    requires |rest| > 0 ==> !IsDigit(rest[0])
    ensures LeadingDigits(digits + rest) == |digits|
  {
    if |digits| == 0 {
      assert digits + rest == rest;
    } else {
      assert (digits + rest)[1..] == digits[1..] + rest;
      DigitsStop(digits[1..], rest);
    }
  }

  lemma {:induction false} NumberStops(n: nat, rest: string)
    requires |rest| > 0 ==> !IsDigit(rest[0])
    ensures LeadingDigits(Decimal(n) + rest) == |Decimal(n)|
    ensures LeadingNumber(Decimal(n) + rest) == n
    ensures (Decimal(n) + rest)[|Decimal(n)|..] == rest
  {
    DigitsStop(Decimal(n), rest);
    DecimalReads(n);
    assert (Decimal(n) + rest)[..|Decimal(n)|] == Decimal(n);
  }

  lemma {:induction false} PartReads(n: nat, rest: string)
    requires |rest| > 0 ==> !IsDigit(rest[0])
    ensures OptionalPart("." + Decimal(n) + rest) == (n, rest)
  {
    var s := "." + Decimal(n) + rest;
    NumberStops(n, rest);
    assert s[1..] == Decimal(n) + rest;
    assert s[1 + |Decimal(n)|..] == s[1..][|Decimal(n)|..];
  }

  /** A written version reads back as itself, whatever pre-release or build suffix follows. */
  lemma {:induction false} VersionRoundTrip(v: Version, suffix: string)
    requires VersionSuffix(suffix)
    ensures VersionNumber(Decimal(v.major) + ("." + Decimal(v.minor) + ("." + Decimal(v.patch) + suffix))) == Some(v)
  {
    PartReads(v.patch, suffix);
    PartReads(v.minor, "." + Decimal(v.patch) + suffix);
    NumberStops(v.major, "." + Decimal(v.minor) + ("." + Decimal(v.patch) + suffix));
  }

  // ----- the order of revisions -----

  /** Unparsable versions come first, then by number, then by version text, then by revision. */
  predicate RevisionLeq(version1: string, revision1: string, version2: string, revision2: string) {
    var a, b := VersionNumber(version1), VersionNumber(version2);
    if a.None? && b.Some? then true
    else if a.Some? && b.None? then false
    else if a.Some? && b.Some? && VersionLess(a.value, b.value) then true
    else if a.Some? && b.Some? && VersionLess(b.value, a.value) then false
    else if version1 != version2 then StringLeq(version1, version2)
    else StringLeq(revision1, revision2)
  }

  lemma {:induction false} RevisionOrder(v1: string, r1: string, v2: string, r2: string)
    ensures RevisionLeq(v1, r1, v2, r2) || RevisionLeq(v2, r2, v1, r1)
    ensures RevisionLeq(v1, r1, v2, r2) && RevisionLeq(v2, r2, v1, r1) ==> v1 == v2 && r1 == r2
  {
    StringOrder(v1, v2);
    StringOrder(r1, r2);
    hide VersionNumber, StringLeq;
  }

  lemma {:induction false} RevisionTransitive(v1: string, r1: string, v2: string, r2: string, v3: string, r3: string)
    requires RevisionLeq(v1, r1, v2, r2) && RevisionLeq(v2, r2, v3, r3)
    ensures RevisionLeq(v1, r1, v3, r3)
  {
    StringOrder(v1, v2);
    StringOrder(v2, v3);
    StringOrder(v1, v3);
    if StringLeq(v1, v2) && StringLeq(v2, v3) {
      StringTransitive(v1, v2, v3);
    }
    if StringLeq(r1, r2) && StringLeq(r2, r3) {
      StringTransitive(r1, r2, r3);
    }
    hide VersionNumber, StringLeq;
  }
}
