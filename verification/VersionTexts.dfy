/** Which texts are version numbers, and of which version. */
module VersionTexts {
  import opened Scopes
  import opened Versions

  predicate Digits(s: string) {
    |s| > 0 && forall i :: 0 <= i < |s| ==> IsDigit(s[i])
  }

  /** What may follow the numbers: nothing, or a pre-release or build tag on the same line. */
  predicate Tag(s: string) {
    |s| > 0 ==> s[0] in {'-', '+'} && forall i :: 0 <= i < |s| ==> s[i] != '\n'
  }

  function Dotted(part: Option<string>): string {
    if part.Some? then "." + part.value else ""
  }

  function ValueOf(part: Option<string>): nat
    requires part.Some? ==> Digits(part.value)
  {
    if part.Some? then Number(part.value) else 0
  }

  /** A number, then a second and a third one after dots if there are so many, then a tag. */
  predicate WrittenAs(text: string, first: string, second: Option<string>, third: Option<string>, tag: string) {
    && Digits(first) && (second.Some? ==> Digits(second.value))
    && (third.Some? ==> second.Some? && Digits(third.value)) && Tag(tag)
    && text == first + (Dotted(second) + (Dotted(third) + tag))
  }

  lemma {:induction false} PartIsRead(digits: string, rest: string)
    requires Digits(digits) && (|rest| > 0 ==> !IsDigit(rest[0]))
    ensures LeadingDigits(digits + rest) == |digits| && LeadingNumber(digits + rest) == Number(digits)
    ensures (digits + rest)[|digits|..] == rest
    ensures OptionalPart(Dotted(Some(digits)) + rest) == (Number(digits), rest)
  {
    DigitsStop(digits, rest);
    assert (digits + rest)[..|digits|] == digits;
    var s := "." + digits + rest;
    assert s[1..] == digits + rest;
    assert s[1 + |digits|..] == s[1..][|digits|..];
  }

  lemma NoPartIsRead(rest: string)
    requires Tag(rest)
    ensures OptionalPart(rest) == (0, rest) && VersionSuffix(rest)
  {
  }

  lemma {:induction false} WrittenIsRead(text: string, first: string, second: Option<string>, third: Option<string>,
                                         tag: string)
    requires WrittenAs(text, first, second, third, tag)
    ensures VersionNumber(text) == Some(Version(Number(first), ValueOf(second), ValueOf(third)))
  {
    hide LeadingDigits, LeadingNumber, OptionalPart, Number, VersionSuffix;
    NoPartIsRead(tag);
    if third.Some? {
      PartIsRead(third.value, tag);
    }
    var afterSecond := Dotted(third) + tag;
    assert third.None? ==> afterSecond == tag;
    if second.Some? {
      PartIsRead(second.value, afterSecond);
    }
    var afterFirst := Dotted(second) + afterSecond;
    assert second.None? ==> afterFirst == tag;
    PartIsRead(first, afterFirst);
  }

  /** Either nothing is read, or what is read was written. */
  lemma {:induction false} PartWasWritten(s: string) returns (part: Option<string>)
    ensures s == Dotted(part) + OptionalPart(s).1 && (part.Some? ==> Digits(part.value))
    ensures part.None? <==> OptionalPart(s).1 == s
  {
    var n := if |s| > 0 && s[0] == '.' then LeadingDigits(s[1..]) else 0;
    if n > 0 {
      LeadingAreDigits(s[1..]);
      part := Some(s[1..][..n]);
      assert s == "." + s[1..][..n] + s[1 + n..];
    } else {
      part := None;
    }
  }

  lemma {:induction false} ReadWasWritten(text: string)
    requires VersionNumber(text).Some?
    ensures exists first, second, third, tag :: WrittenAs(text, first, second, third, tag)
  {
    hide LeadingDigits, OptionalPart, VersionNumber;
    FirstWasWritten(text);
    var first, after := text[..LeadingDigits(text)], text[LeadingDigits(text)..];
    var second := PartWasWritten(after);
    var third := PartWasWritten(OptionalPart(after).1);
    var tag := OptionalPart(OptionalPart(after).1).1;
    assert WrittenAs(text, first, second, third, tag);
  }

  lemma FirstWasWritten(text: string)
    requires VersionNumber(text).Some?
    ensures var n := LeadingDigits(text);
            && Digits(text[..n]) && text == text[..n] + text[n..]
            && Tag(OptionalPart(OptionalPart(text[n..]).1).1)
  {
    LeadingAreDigits(text);
    hide OptionalPart;
  }

  /** A text is a version number exactly when it is written so, and then of that version. */
  lemma {:induction false} VersionExactly(text: string, v: Version)
    ensures VersionNumber(text) == Some(v) <==>
            exists first, second, third, tag ::
              && WrittenAs(text, first, second, third, tag)
              && v == Version(Number(first), ValueOf(second), ValueOf(third))
  {
    hide VersionNumber;
    if VersionNumber(text) == Some(v) {
      ReadWasWritten(text);
      var first, second, third, tag :| WrittenAs(text, first, second, third, tag);
      WrittenIsRead(text, first, second, third, tag);
    }
    if first, second, third, tag :|
      WrittenAs(text, first, second, third, tag) && v == Version(Number(first), ValueOf(second), ValueOf(third))
    {
      WrittenIsRead(text, first, second, third, tag);
    }
  }

  /** Zeros in front do not count. */
  lemma {:induction false} LeadingZero(digits: string)
    requires Digits(digits)
    ensures Number("0" + digits) == Number(digits)
  {
    var s := "0" + digits;
    var n := |digits| - 1;
    assert s[..|s| - 1] == "0" + digits[..n];
    if n > 0 {
      LeadingZero(digits[..n]);
    } else {
      assert digits[..0] == "" && "0" + digits[..0] == "0";
      assert "0"[..0] == "" && Number("") == 0 && Number("0") == 0;
    }
  }
}
