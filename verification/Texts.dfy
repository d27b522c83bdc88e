/** Cutting a text at a separator. */
module Texts {

  function FirstAt(s: string, separator: char): (n: nat)
    ensures n <= |s| && separator !in s[..n] && (n < |s| ==> s[n] == separator)
  {
    if s == "" || s[0] == separator then 0 else 1 + FirstAt(s[1..], separator)
  }

  function Split(s: string, separator: char): (parts: seq<string>)
    ensures |parts| > 0
    decreases |s|
  {
    var n := FirstAt(s, separator);
    if n == |s| then [s] else [s[..n]] + Split(s[n + 1..], separator)
  }

  lemma {:induction false} FirstAtIs(part: string, rest: string, separator: char)
    requires separator !in part && (rest == "" || rest[0] == separator)
    ensures FirstAt(part + rest, separator) == |part|
  {
    if part == "" {
      assert part + rest == rest;
    } else {
      assert (part + rest)[1..] == part[1..] + rest;
      FirstAtIs(part[1..], rest, separator);
    }
  }

  lemma {:induction false} OnePart(part: string, separator: char)
    requires separator !in part
    ensures Split(part, separator) == [part]
  {
    assert part + "" == part;
    FirstAtIs(part, "", separator);
  }

  lemma {:induction false} SplitsAfter(part: string, rest: string, separator: char)
    requires separator !in part
    ensures Split(part + [separator] + rest, separator) == [part] + Split(rest, separator)
  {
    var whole := part + ([separator] + rest);
    assert part + [separator] + rest == whole;
    FirstAtIs(part, [separator] + rest, separator);
    assert whole[..|part|] == part && whole[|part| + 1..] == rest;
  }
}
