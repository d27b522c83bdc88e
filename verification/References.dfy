/** Signed references: unpadded base64url (sections 3.2 and 5 of RFC 4648) and the token around it. */
module References {
  import opened Scopes
  import opened Json
  import opened Texts

  type Byte = b: int | 0 <= b < 256
  type Bytes = seq<Byte>

  // ----- the alphabet -----

  function Letter(i: int): (c: char)
    requires 0 <= i < 64
  {
    if i < 26 then 'A' + i as char
    else if i < 52 then 'a' + (i - 26) as char
    else if i < 62 then '0' + (i - 52) as char
    else if i == 62 then '-' else '_'
  }

  /** Reading also takes the two signs of the plain alphabet. */
  function ValueOf(c: char): Option<int> {
    if 'A' <= c <= 'Z' then Some(c as int - 'A' as int)
    else if 'a' <= c <= 'z' then Some(c as int - 'a' as int + 26)
    else if '0' <= c <= '9' then Some(c as int - '0' as int + 52)
    else if c == '-' || c == '+' then Some(62)
    else if c == '_' || c == '/' then Some(63)
    else None
  }

  lemma LetterReads(i: int)
    requires 0 <= i < 64
    ensures ValueOf(Letter(i)) == Some(i)
    ensures Letter(i) != '.' && Letter(i) != '=' && (Letter(i) as int) < 128
  {
  }

  lemma ValueBounds(c: char)
    ensures ValueOf(c).Some? ==> 0 <= ValueOf(c).value < 64
  {
  }

  // ----- encoding -----

  function One(a: Byte): string {
    [Letter(a / 4), Letter(a % 4 * 16)]
  }

  function Two(a: Byte, b: Byte): string {
    [Letter(a / 4), Letter(a % 4 * 16 + b / 16), Letter(b % 16 * 4)]
  }

  function Three(a: Byte, b: Byte, c: Byte): string {
    [Letter(a / 4), Letter(a % 4 * 16 + b / 16), Letter(b % 16 * 4 + c / 64), Letter(c % 64)]
  }

  /** Three bytes become four letters; one or two bytes at the end become two or three. */
  function Encode(data: Bytes): string {
    if |data| == 0 then ""
    else if |data| == 1 then One(data[0])
    else if |data| == 2 then Two(data[0], data[1])
    else Three(data[0], data[1], data[2]) + Encode(data[3..])
  }

  predicate Letters(text: string) {
    forall i :: 0 <= i < |text| ==> ValueOf(text[i]).Some?
  }

  /** The bytes of letters without padding; bits beyond the last whole byte are ignored. */
  function Read(text: string): Bytes
    requires Letters(text)
  {
    if |text| < 2 then []
    else
      var a, b := ValueOf(text[0]).value, ValueOf(text[1]).value;
      ValueBounds(text[0]);
      ValueBounds(text[1]);
      var first := a * 4 + b / 16;
      if |text| == 2 then [first]
      else
        var c := ValueOf(text[2]).value;
        ValueBounds(text[2]);
        var second := b % 16 * 16 + c / 4;
        if |text| == 3 then [first, second]
        else
          var d := ValueOf(text[3]).value;
          ValueBounds(text[3]);
          [first, second, c % 4 * 64 + d] + Read(text[4..])
  }

  function WithoutPadding(text: string): string {
    if |text| > 0 && text[|text| - 1] == '=' then WithoutPadding(text[..|text| - 1]) else text
  }

  /** Padding is added up to a multiple of four; more than two signs in all, or one anywhere but
      at the end, is refused. */
  function Decode(text: string): Option<Bytes> {
    var missing := (4 - |text| % 4) % 4;
    var letters := WithoutPadding(text);
    if |text| - |letters| + missing > 2 || !Letters(letters) then None else Some(Read(letters))
  }

  /** Letters that only the url-safe alphabet has, and nothing that ends a part of a token. */
  predicate Safe(text: string) {
    forall i :: 0 <= i < |text| ==> ValueOf(text[i]).Some? && text[i] != '.' && text[i] != '=' && (text[i] as int) < 128
  }

  lemma ChunksAreSafe(a: Byte, b: Byte, c: Byte)
    ensures Safe(One(a)) && Safe(Two(a, b)) && Safe(Three(a, b, c))
  {
    forall i | 0 <= i < 64
      ensures ValueOf(Letter(i)).Some? && Letter(i) != '.' && Letter(i) != '=' && (Letter(i) as int) < 128
    {
      LetterReads(i);
    }
    hide Letter, ValueOf;
  }

  lemma ChunksRead(a: Byte, b: Byte, c: Byte)
    ensures Letters(One(a)) && Read(One(a)) == [a]
    ensures Letters(Two(a, b)) && Read(Two(a, b)) == [a, b]
  {
    LetterReads(a / 4);
    LetterReads(a % 4 * 16);
    LetterReads(a % 4 * 16 + b / 16);
    LetterReads(b % 16 * 4);
    hide Letter, ValueOf;
  }

  /** Cutting three bytes into four groups of six bits and putting them together again. */
  lemma SixBits(a: Byte, b: Byte, c: Byte)
    ensures a / 4 * 4 + (a % 4 * 16 + b / 16) / 16 == a
    ensures (a % 4 * 16 + b / 16) % 16 * 16 + (b % 16 * 4 + c / 64) / 4 == b
    ensures (b % 16 * 4 + c / 64) % 4 * 64 + c % 64 == c
  {
  }

  lemma FourRead(a: Byte, b: Byte, c: Byte, rest: string)
    requires Letters(rest)
    ensures Letters(Three(a, b, c) + rest) && Read(Three(a, b, c) + rest) == [a, b, c] + Read(rest)
  {
    LetterReads(a / 4);
    LetterReads(a % 4 * 16 + b / 16);
    LetterReads(b % 16 * 4 + c / 64);
    LetterReads(c % 64);
    SixBits(a, b, c);
    hide Letter, ValueOf;
    var text := Three(a, b, c) + rest;
    assert text[4..] == rest && text[..4] == Three(a, b, c);
    assert text[0] == Three(a, b, c)[0] && text[1] == Three(a, b, c)[1] && text[2] == Three(a, b, c)[2] &&
      text[3] == Three(a, b, c)[3];
  }

  lemma {:induction false} EncodeIsSafe(data: Bytes)
    ensures Safe(Encode(data)) && |Encode(data)| % 4 != 1
  {
    hide One, Two, Three, Safe;
    if 1 <= |data| <= 2 {
      ChunksAreSafe(data[0], data[|data| - 1], 0);
      ChunkSizes(data[0], data[|data| - 1], 0);
    } else if |data| >= 3 {
      ChunksAreSafe(data[0], data[1], data[2]);
      ChunkSizes(data[0], data[1], data[2]);
      EncodeIsSafe(data[3..]);
      SafeTogether(Three(data[0], data[1], data[2]), Encode(data[3..]));
    } else {
      SafeTogether("", "");
    }
  }

  lemma SafeTogether(a: string, b: string)
    ensures Safe("") && (Safe(a) && Safe(b) ==> Safe(a + b))
  {
    hide ValueOf;
  }

  lemma ChunkSizes(a: Byte, b: Byte, c: Byte)
    ensures |One(a)| == 2 && |Two(a, b)| == 3 && |Three(a, b, c)| == 4
  {
  }

  /** Nothing in an encoded text needs padding, escaping or splitting. */
  lemma EncodeIsLetters(data: Bytes)
    ensures Letters(Encode(data))
    ensures '.' !in Encode(data) && '=' !in Encode(data)
    ensures forall c :: c in Encode(data) ==> (c as int) < 128
    ensures |Encode(data)| % 4 != 1
  {
    EncodeIsSafe(data);
    hide Encode, ValueOf;
  }

  lemma {:induction false} ReadEncoded(data: Bytes)
    requires Letters(Encode(data))
    ensures Read(Encode(data)) == data
  {
    hide One, Two, Three, ValueOf, Letters, Read;
    if |data| == 0 {
      NothingRead();
    } else if |data| <= 2 {
      ChunksRead(data[0], data[|data| - 1], 0);
    } else {
      EncodeIsLetters(data[3..]);
      ReadEncoded(data[3..]);
      FourRead(data[0], data[1], data[2], Encode(data[3..]));
      assert data == [data[0], data[1], data[2]] + data[3..];
    }
  }

  lemma NothingRead()
    ensures Letters("") && Read("") == []
  {
  }

  lemma NothingToStrip(text: string)
    requires '=' !in text
    ensures WithoutPadding(text) == text
  {
  }

  /** Every byte sequence survives encoding and decoding. */
  lemma {:induction false} EncodingRoundTrip(data: Bytes)
    ensures Decode(Encode(data)) == Some(data)
  {
    EncodeIsLetters(data);
    hide Encode, Letters, Read;
    NothingToStrip(Encode(data));
    ReadEncoded(data);
  }

  // ----- the token -----

  function Dotted(s: string): seq<string> {
    Split(s, '.')
  }

  datatype Claims = Claims(revision: string, scope: string, purpose: string, issuedAt: int, expiresAt: int)

  /** The signing key as a function of the signed text, and JSON text both ways. */
  datatype Signer = Signer(sign: string -> Bytes, write: Json -> Bytes, read: Bytes -> Option<Json>)

  predicate ReadsWhatItWrites(s: Signer, j: Json) {
    s.read(s.write(j)) == Some(j)
  }

  const PREFIX: string := "chref1"
  const LEEWAY: int := 60

  /** `int()` cuts the fraction off. */
  function Seconds(now: real): int {
    if now >= 0.0 then now.Floor else -((-now).Floor)
  }

  function Payload(c: Claims): Json {
    Obj(map["exp" := Number(c.expiresAt), "iat" := Number(c.issuedAt), "purpose" := Str(c.purpose),
            "revision" := Str(c.revision), "scope" := Str(c.scope), "v" := Number(1)])
  }

  function Token(s: Signer, c: Claims): string {
    var encoded := Encode(s.write(Payload(c)));
    PREFIX + "." + encoded + "." + Encode(s.sign(encoded))
  }

  function Issue(s: Signer, revision: string, scope: string, ttl: int, purpose: string, now: real): Option<string> {
    if revision == "" || scope == "" || purpose == "" || ttl <= 0 then None
    else Some(Token(s, Claims(revision, scope, purpose, Seconds(now), Seconds(now) + ttl)))
  }

  datatype Verified =
    | Good(claims: Claims)
    | BadCall
    | Malformed
    | Tampered
    | TooLate
    | TooEarly
    | NotPlainText
    | OtherScope
    | OtherPurpose
    | OtherRevision

  predicate Ascii(s: string) {
    forall i :: 0 <= i < |s| ==> (s[i] as int) < 128
  }

  const CLAIM_NAMES: set<string> := {"exp", "iat", "purpose", "revision", "scope", "v"}

  function ParseClaims(j: Json): Option<Claims> {
    if !j.Obj? || j.fields.Keys != CLAIM_NAMES then None
    else
      var f := j.fields;
      if f["v"] != Number(1) && f["v"] != Bool(true) then None
      else if !f["iat"].Number? || !f["exp"].Number? || f["exp"].n <= f["iat"].n then None
      else if !f["purpose"].Str? || !f["revision"].Str? || !f["scope"].Str?
              || f["purpose"].s == "" || f["revision"].s == "" || f["scope"].s == "" then None
      else Some(Claims(f["revision"].s, f["scope"].s, f["purpose"].s, f["iat"].n, f["exp"].n))
  }

  /** Constant-time comparison of texts works on ASCII only and raises otherwise. */
  function CheckText(actual: string, expected: string, otherwise: Verified): Option<Verified> {
    if !Ascii(actual) || !Ascii(expected) then Some(NotPlainText)
    else if actual != expected then Some(otherwise) else None
  }

  function CheckBindings(c: Claims, scope: string, revision: Option<string>, purpose: string): Verified {
    var first := CheckText(c.scope, scope, OtherScope);
    var second := CheckText(c.purpose, purpose, OtherPurpose);
    var third := if revision.None? then None else CheckText(c.revision, revision.value, OtherRevision);
    if first.Some? then first.value else if second.Some? then second.value else if third.Some? then
      third.value else Good(c)
  }

  function CheckClaims(c: Claims, scope: string, revision: Option<string>, purpose: string, now: real): Verified {
    if Seconds(now) >= c.expiresAt then TooLate
    else if c.issuedAt > Seconds(now) + LEEWAY then TooEarly
    else CheckBindings(c, scope, revision, purpose)
  }

  function ClaimsIn(s: Signer, encoded: string): Option<Claims> {
    match Decode(encoded)
    case None => None
    case Some(bytes) => (match s.read(bytes) case None => None case Some(j) => ParseClaims(j))
  }

  function Verify(s: Signer, reference: string, scope: string, revision: Option<string>, purpose: string,
                  now: real): Verified {
    if scope == "" || purpose == "" then BadCall
    else
      var parts := Dotted(reference);
      if |parts| != 3 || parts[0] != PREFIX || Decode(parts[2]).None? then Malformed
      else if !Ascii(parts[1]) then NotPlainText
      else if Decode(parts[2]).value != s.sign(parts[1]) then Tampered
      else
        match ClaimsIn(s, parts[1])
        case None => Malformed
        case Some(c) => CheckClaims(c, scope, revision, purpose, now)
  }

  /** An issued token always splits into its three parts. */
  lemma {:induction false} ThreeParts(s: Signer, c: Claims)
    ensures var encoded := Encode(s.write(Payload(c)));
            Dotted(Token(s, c)) == [PREFIX, encoded, Encode(s.sign(encoded))]
  {
    var encoded := Encode(s.write(Payload(c)));
    var signature := Encode(s.sign(encoded));
    EncodeIsLetters(s.write(Payload(c)));
    EncodeIsLetters(s.sign(encoded));
    assert '.' !in PREFIX;
    assert Token(s, c) == PREFIX + "." + (encoded + "." + signature);
    assert PREFIX + "." + (encoded + "." + signature) == PREFIX + ['.'] + (encoded + ['.'] + signature);
    hide Encode, Payload, Split, Token, Letters;
    OnePart(signature, '.');
    SplitsAfter(encoded, signature, '.');
    SplitsAfter(PREFIX, encoded + ['.'] + signature, '.');
  }

  predicate Proper(c: Claims) {
    c.revision != "" && c.scope != "" && c.purpose != "" && c.issuedAt < c.expiresAt
  }

  /** Verifying an issued token comes down to checking its claims. */
  lemma {:induction false} IssuedIsRead(s: Signer, c: Claims, scope: string, revision: Option<string>, purpose: string,
                                        now: real)
    requires Proper(c) && ReadsWhatItWrites(s, Payload(c)) && scope != "" && purpose != ""
    ensures Verify(s, Token(s, c), scope, revision, purpose, now) == CheckClaims(c, scope, revision, purpose, now)
  {
    var encoded := Encode(s.write(Payload(c)));
    ThreeParts(s, c);
    EncodingRoundTrip(s.write(Payload(c)));
    EncodingRoundTrip(s.sign(encoded));
    EncodeIsLetters(s.write(Payload(c)));
    PayloadParses(c);
    hide Encode, Decode, Dotted, Payload, ParseClaims, Token;
  }

  lemma PayloadParses(c: Claims)
    requires Proper(c)
    ensures ParseClaims(Payload(c)) == Some(c)
  {
  }

  /** The token theorem: with the bindings it was issued for, a token gives its claims back exactly
      from a minute before its issue until its expiry, provided the bindings compared are ASCII. */
  lemma {:induction false} IssuedVerifies(s: Signer, revision: string, scope: string, ttl: int, purpose: string,
                                          issued: real,
                                          pinned: bool, now: real)
    requires revision != "" && scope != "" && purpose != "" && ttl > 0
    requires var c := Claims(revision, scope, purpose, Seconds(issued), Seconds(issued) + ttl);
             ReadsWhatItWrites(s, Payload(c))
    ensures var c := Claims(revision, scope, purpose, Seconds(issued), Seconds(issued) + ttl);
      var token := Issue(s, revision, scope, ttl, purpose, issued);
      && token.Some?
      && (Verify(s, token.value, scope, if pinned then Some(revision) else None, purpose, now) == Good(c) <==>
            && Seconds(issued) - LEEWAY <= Seconds(now) < Seconds(issued) + ttl
            && Ascii(scope) && Ascii(purpose) && (pinned ==> Ascii(revision)))
  {
    var c := Claims(revision, scope, purpose, Seconds(issued), Seconds(issued) + ttl);
    IssuedIsRead(s, c, scope, if pinned then Some(revision) else None, purpose, now);
    hide Verify, Token, Payload, Seconds, Ascii;
  }

  /** A token issued for a scope or a purpose that is not ASCII can never be used, whatever is expected
      and whatever the time; nor can one for such a revision, where a revision is expected. */
  lemma {:induction false} ForeignTextNeverVerifies(s: Signer, c: Claims, scope: string, revision: Option<string>,
                                                    purpose: string, now: real)
    requires Proper(c) && ReadsWhatItWrites(s, Payload(c))
    requires !Ascii(c.scope) || !Ascii(c.purpose) || (revision.Some? && !Ascii(c.revision))
    ensures !Verify(s, Token(s, c), scope, revision, purpose, now).Good?
  {
    if scope != "" && purpose != "" {
      IssuedIsRead(s, c, scope, revision, purpose, now);
    }
    hide Token, Payload, Seconds, Ascii, Dotted, Decode, ClaimsIn;
  }

  /** Whatever is accepted carries a right signature, in-time claims and the expected bindings. */
  lemma {:induction false} AcceptedIsSigned(s: Signer, reference: string, scope: string, revision: Option<string>,
                                            purpose: string, now: real)
    requires Verify(s, reference, scope, revision, purpose, now).Good?
    ensures var c := Verify(s, reference, scope, revision, purpose, now).claims;
            var parts := Dotted(reference);
      && |parts| == 3 && parts[0] == PREFIX
      && Decode(parts[2]) == Some(s.sign(parts[1])) && ClaimsIn(s, parts[1]) == Some(c)
      && c.issuedAt - LEEWAY <= Seconds(now) < c.expiresAt
      && c.scope == scope && c.purpose == purpose && (revision.Some? ==> c.revision == revision.value)
  {
    hide Decode, ClaimsIn, Dotted, Seconds, Ascii;
  }
}
