/** What the text of a signed reference may be, and exactly which references are accepted and refused. */
module ReferenceEffects {
  import opened Scopes
  import opened Json
  import opened Texts
  import opened References

  // ----- letters and bytes -----

  /** The url-safe alphabet of section 5 of RFC 4648: capitals, small letters and digits, each in their
      order, then two signs. */
  lemma AlphabetIs(i: int)
    requires 0 <= i < 64
    ensures Letter(0) == 'A' && Letter(25) == 'Z' && Letter(26) == 'a' && Letter(51) == 'z'
    ensures Letter(52) == '0' && Letter(61) == '9' && Letter(62) == '-' && Letter(63) == '_'
    ensures i !in {25, 51, 61, 62, 63} ==> Letter(i + 1) as int == Letter(i) as int + 1
  {
  }

  /** A character has a value exactly when it is a letter of that alphabet, or one of the two signs that
      the plain alphabet has in the last places. */
  lemma {:induction false} ValueExactly(c: char, i: int)
    ensures ValueOf(c) == Some(i) <==>
            0 <= i < 64 && (Letter(i) == c || (c == '+' && i == 62) || (c == '/' && i == 63))
  {
  }

  function Number256(data: Bytes): nat {
    if |data| == 0 then 0 else Number256(data[..|data| - 1]) * 256 + data[|data| - 1]
  }

  function Number64(text: string): nat
    requires Letters(text)
  {
    if |text| == 0 then 0
    else
      ValueBounds(text[|text| - 1]);
      Number64(text[..|text| - 1]) * 64 + ValueOf(text[|text| - 1]).value
  }

  lemma {:induction false} FourDigits(text: string)
    requires Letters(text) && |text| <= 4
    ensures forall i :: 0 <= i < |text| ==> 0 <= ValueOf(text[i]).value
    ensures |text| == 1 ==> Number64(text) == ValueOf(text[0]).value
    ensures |text| == 2 ==> Number64(text) == ValueOf(text[0]).value * 64 + ValueOf(text[1]).value
    ensures |text| == 3 ==>
            Number64(text) == (ValueOf(text[0]).value * 64 + ValueOf(text[1]).value) * 64 + ValueOf(text[2]).value
    ensures |text| == 4 ==>
            Number64(text) ==
            ((ValueOf(text[0]).value * 64 + ValueOf(text[1]).value) * 64 + ValueOf(text[2]).value) * 64
            + ValueOf(text[3]).value
  {
    hide ValueOf;
    forall i | 0 <= i < |text| ensures 0 <= ValueOf(text[i]).value {
      ValueBounds(text[i]);
    }
    if |text| > 0 {
      var init := text[..|text| - 1];
      FourDigits(init);
    }
  }

  lemma {:induction false} ThreeBytes(data: Bytes)
    requires 1 <= |data| <= 3
    ensures |data| == 1 ==> Number256(data) == data[0]
    ensures |data| == 2 ==> Number256(data) == data[0] as int * 256 + data[1]
    ensures |data| == 3 ==> Number256(data) == (data[0] as int * 256 + data[1]) * 256 + data[2]
  {
    if |data| > 1 {
      ThreeBytes(data[..|data| - 1]);
    }
  }

  /** Three bytes are written as the same number in base 64; one or two at the end as that number filled
      up with zero bits to whole letters. */
  lemma {:induction false} SameNumber(data: Bytes)
    requires 1 <= |data| <= 3
    ensures Letters(Encode(data)) && |Encode(data)| == |data| + 1
    ensures Number64(Encode(data)) ==
            Number256(data) * (if |data| == 1 then 16 else if |data| == 2 then 4 else 1)
  {
    EncodeIsLetters(data);
    ThreeBytes(data);
    var text := Encode(data);
    if |data| == 3 {
      assert data[3..] == [] && text == Three(data[0], data[1], data[2]);
      LetterReads(data[0] / 4);
      LetterReads(data[0] % 4 * 16 + data[1] / 16);
      LetterReads(data[1] % 16 * 4 + data[2] / 64);
      LetterReads(data[2] % 64);
    } else if |data| == 2 {
      LetterReads(data[0] / 4);
      LetterReads(data[0] % 4 * 16 + data[1] / 16);
      LetterReads(data[1] % 16 * 4);
    } else {
      LetterReads(data[0] / 4);
      LetterReads(data[0] % 4 * 16);
    }
    FourDigits(text);
    hide Letter, ValueOf, Number64, Number256;
  }

  /** Longer data is written three bytes by three bytes. */
  lemma {:induction false} EncodesByThrees(data: Bytes)
    requires |data| >= 3
    ensures Encode(data) == Encode(data[..3]) + Encode(data[3..])
  {
    hide One, Two, Three;
    assert data[..3][3..] == [];
    assert Encode(data[..3]) == Three(data[0], data[1], data[2]) + Encode([]);
    assert Encode([]) == "";
  }

  function Pads(k: nat): string {
    if k == 0 then "" else Pads(k - 1) + "="
  }

  lemma {:induction false} PadsAreStripped(letters: string, k: nat)
    requires letters == "" || letters[|letters| - 1] != '='
    ensures WithoutPadding(letters + Pads(k)) == letters && |Pads(k)| == k
  {
    if k == 0 {
      assert letters + Pads(0) == letters;
    } else {
      PadsAreStripped(letters, k - 1);
      var text := letters + Pads(k);
      assert text[..|text| - 1] == letters + Pads(k - 1);
    }
  }

  /** A text is read exactly when it consists of letters, not one too many for whole bytes, with no
      padding at all or part or all of the padding that section 3.2 of RFC 4648 asks for. */
  lemma {:induction false} DecodeExactly(letters: string, k: nat)
    requires letters == "" || letters[|letters| - 1] != '='
    ensures Decode(letters + Pads(k)).Some? <==>
            Letters(letters) && match |letters| % 4 case 0 => k == 0 case 2 => k <= 2 case 3 => k <= 1 case _ => false
    ensures Decode(letters + Pads(k)).Some? ==> Decode(letters + Pads(k)).value == Read(letters)
  {
    PadsAreStripped(letters, k);
    MissingPadding(|letters|, k);
    hide WithoutPadding, Letters, Read, Pads;
  }

  lemma MissingPadding(n: nat, k: nat)
    ensures k + (4 - (n + k) % 4) % 4 <= 2 <==>
            match n % 4 case 0 => k == 0 case 2 => k <= 2 case 3 => k <= 1 case _ => false
  {
    if k <= 2 {
      var q := n / 4;
      assert n == 4 * q + n % 4;
      assert (n + k) % 4 == (n % 4 + k) % 4;
    }
  }

  /** Every text is one of those. */
  lemma {:induction false} EveryTextIsPadded(text: string)
    ensures exists letters, k: nat ::
      (letters == "" || letters[|letters| - 1] != '=') && text == letters + Pads(k)
  {
    if |text| > 0 && text[|text| - 1] == '=' {
      EveryTextIsPadded(text[..|text| - 1]);
      var letters, k: nat :|
        (letters == "" || letters[|letters| - 1] != '=') && text[..|text| - 1] == letters + Pads(k);
      assert text == text[..|text| - 1] + "=";
      assert text == letters + Pads(k + 1);
    } else {
      assert text == text + Pads(0);
    }
  }

  // ----- references -----

  /** The whole seconds up to a time, counted from zero in either direction. */
  lemma SecondsExactly(now: real)
    ensures now >= 0.0 ==> Seconds(now) as real <= now < (Seconds(now) + 1) as real
    ensures now <= 0.0 ==> (Seconds(now) - 1) as real < now <= Seconds(now) as real
  {
  }

  predicate InAscii(s: string) {
    forall i :: 0 <= i < |s| ==> s[i] <= 127 as char
  }

  /** The claims as JSON: exactly these six fields. */
  predicate Speaks(j: Json, c: Claims) {
    && j.Obj? && j.fields.Keys == {"exp", "iat", "purpose", "revision", "scope", "v"}
    && j.fields["v"] in {Number(1), Bool(true)}
    && j.fields["iat"] == Number(c.issuedAt) && j.fields["exp"] == Number(c.expiresAt)
    && j.fields["purpose"] == Str(c.purpose) && j.fields["revision"] == Str(c.revision)
    && j.fields["scope"] == Str(c.scope)
    && c.purpose != "" && c.revision != "" && c.scope != "" && c.issuedAt < c.expiresAt
  }

  lemma ParsedExactly(j: Json, c: Claims)
    ensures ParseClaims(j) == Some(c) <==> Speaks(j, c)
  {
  }

  /** The reference has the right prefix, is signed over its middle part, and that part speaks for the
      claims. */
  predicate Carries(s: Signer, reference: string, c: Claims) {
    var parts := Split(reference, '.');
    && |parts| == 3 && parts[0] == "chref1" && InAscii(parts[1]) && Decode(parts[2]) == Some(s.sign(parts[1]))
    && Decode(parts[1]).Some? && s.read(Decode(parts[1]).value).Some?
    && Speaks(s.read(Decode(parts[1]).value).value, c)
  }

  predicate Timely(c: Claims, now: real) {
    c.issuedAt - 60 <= Seconds(now) < c.expiresAt
  }

  predicate Same(a: string, b: string) {
    a == b && InAscii(a)
  }

  lemma AsciiIs(s: string)
    ensures Ascii(s) <==> InAscii(s)
  {
  }

  /** A reference is issued exactly with everything named and a positive lifetime, and carries the
      claims of that moment, if the JSON writer's text reads back. */
  lemma {:induction false} IssueExactly(s: Signer, revision: string, scope: string, ttl: int, purpose: string,
                                        now: real)
    ensures var issued := Issue(s, revision, scope, ttl, purpose, now);
            var c := Claims(revision, scope, purpose, Seconds(now), Seconds(now) + ttl);
      && (issued.Some? <==> |revision| > 0 && |scope| > 0 && |purpose| > 0 && ttl > 0)
      && (issued.Some? && ReadsWhatItWrites(s, Payload(c)) ==> Carries(s, issued.value, c))
  {
    var c := Claims(revision, scope, purpose, Seconds(now), Seconds(now) + ttl);
    var encoded := Encode(s.write(Payload(c)));
    if Issue(s, revision, scope, ttl, purpose, now).Some? && ReadsWhatItWrites(s, Payload(c)) {
      ThreeParts(s, c);
      EncodeIsLetters(s.write(Payload(c)));
      EncodingRoundTrip(s.write(Payload(c)));
      EncodingRoundTrip(s.sign(encoded));
      assert Speaks(Payload(c), c);
      assert InAscii(encoded) by {
        assert forall i :: 0 <= i < |encoded| ==> encoded[i] in encoded;
      }
    }
    hide Encode, Decode, Split, Token, Seconds, Payload, Speaks, InAscii;
  }

  lemma {:induction false} ClaimsExactly(s: Signer, encoded: string, c: Claims)
    ensures ClaimsIn(s, encoded) == Some(c) <==>
            && Decode(encoded).Some? && s.read(Decode(encoded).value).Some?
            && Speaks(s.read(Decode(encoded).value).value, c)
  {
    hide Decode, ParseClaims, Speaks;
    if Decode(encoded).Some? && s.read(Decode(encoded).value).Some? {
      ParsedExactly(s.read(Decode(encoded).value).value, c);
    }
  }

  /** A reference is accepted for its claims exactly when it carries them, at a time within them, for
      the scope, the purpose and, where one is expected, the revision they name; all in ASCII. */
  lemma {:induction false} VerifyExactly(s: Signer, reference: string, scope: string, revision: Option<string>,
                                         purpose: string, now: real, c: Claims)
    ensures Verify(s, reference, scope, revision, purpose, now) == Good(c) <==>
            && Carries(s, reference, c) && Timely(c, now) && Same(c.scope, scope) && Same(c.purpose, purpose)
            && (revision.Some? ==> Same(c.revision, revision.value))
  {
    ComparesAscii(s, reference, c, scope, revision, purpose);
    hide Decode, Split, Seconds, ClaimsIn, Ascii, InAscii;
  }

  lemma {:induction false} ComparesAscii(s: Signer, reference: string, c: Claims, scope: string,
                                         revision: Option<string>, purpose: string)
    ensures var parts := Split(reference, '.');
            |parts| == 3 ==> (Ascii(parts[1]) <==> InAscii(parts[1]))
    ensures forall t :: t in [c.scope, scope, c.purpose, purpose, c.revision] ==> (Ascii(t) <==> InAscii(t))
    ensures revision.Some? ==> (Ascii(revision.value) <==> InAscii(revision.value))
    ensures var parts := Split(reference, '.');
            Carries(s, reference, c) <==>
            && |parts| == 3 && parts[0] == "chref1" && InAscii(parts[1]) && Decode(parts[2]) == Some(s.sign(parts[1]))
            && ClaimsIn(s, parts[1]) == Some(c)
    ensures Carries(s, reference, c) ==> c.scope != "" && c.purpose != "" && c.issuedAt < c.expiresAt
  {
    hide Decode, Split, ClaimsIn, Ascii, InAscii;
    var parts := Split(reference, '.');
    if |parts| == 3 {
      AsciiIs(parts[1]);
      ClaimsExactly(s, parts[1], c);
    }
    forall t | t in [c.scope, scope, c.purpose, purpose, c.revision] ensures Ascii(t) <==> InAscii(t) {
      AsciiIs(t);
    }
    if revision.Some? {
      AsciiIs(revision.value);
    }
  }

  /** Which refusal a reference gets that carries its claims: by its time first, then by the first of
      scope, purpose and revision that differs, or cannot be compared. */
  lemma {:induction false} RefusalsExactly(s: Signer, reference: string, scope: string, revision: Option<string>,
                                           purpose: string, now: real, c: Claims)
    requires Carries(s, reference, c) && scope != "" && purpose != ""
    ensures var v := Verify(s, reference, scope, revision, purpose, now);
      && (v == TooLate <==> c.expiresAt <= Seconds(now))
      && (v == TooEarly <==> Seconds(now) < c.issuedAt - 60)
      && (v == OtherScope <==> Timely(c, now) && InAscii(c.scope) && InAscii(scope) && c.scope != scope)
      && (v == OtherPurpose <==>
            && Timely(c, now) && Same(c.scope, scope)
            && InAscii(c.purpose) && InAscii(purpose) && c.purpose != purpose)
      && (v == OtherRevision <==>
            && Timely(c, now) && Same(c.scope, scope) && Same(c.purpose, purpose) && revision.Some?
            && InAscii(c.revision) && InAscii(revision.value) && c.revision != revision.value)
      && v in {Good(c), TooLate, TooEarly, OtherScope, OtherPurpose, OtherRevision, NotPlainText}
  {
    ComparesAscii(s, reference, c, scope, revision, purpose);
    hide Decode, Split, Seconds, ClaimsIn, Ascii, InAscii, Carries;
  }

  /** Which refusal any other reference gets: a scope and a purpose have to be expected; the text has to
      have the right form; what is signed otherwise was tampered with. */
  lemma {:induction false} NotCarried(s: Signer, reference: string, scope: string, revision: Option<string>,
                                      purpose: string, now: real)
    requires forall c :: !Carries(s, reference, c)
    ensures var v, parts := Verify(s, reference, scope, revision, purpose, now), Split(reference, '.');
            var formed := |parts| == 3 && parts[0] == "chref1" && Decode(parts[2]).Some?;
      && (v == BadCall <==> |scope| == 0 || |purpose| == 0)
      && (v != BadCall ==>
            && (v == NotPlainText <==> formed && !InAscii(parts[1]))
            && (v == Tampered <==> formed && InAscii(parts[1]) && Decode(parts[2]).value != s.sign(parts[1]))
            && v in {NotPlainText, Tampered, Malformed})
  {
    var parts := Split(reference, '.');
    if |parts| == 3 {
      AsciiIs(parts[1]);
      if ClaimsIn(s, parts[1]).Some? {
        ComparesAscii(s, reference, ClaimsIn(s, parts[1]).value, scope, revision, purpose);
      }
    }
    hide Decode, Split, Seconds, ClaimsIn, Ascii, InAscii, Carries;
  }
}
