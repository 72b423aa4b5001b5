/** Rust string operations on strings of Unicode scalar values. Lengths in the
    source are lengths in UTF-8 bytes; `Utf8Len` measures them. */
module Text {
  import opened Prelude

  function CharBytes(c: char): nat {
    if c < '\U{80}' then 1 else if c < '\U{800}' then 2 else if c < '\U{10000}' then 3 else 4
  }

  function Utf8Len(s: string): nat {
    if s == "" then 0 else CharBytes(s[0]) + Utf8Len(s[1..])
  }

  lemma ConcatAssociates(a: string, b: string, c: string)
    ensures a + (b + c) == a + b + c
  {
    var left, right := a + (b + c), a + b + c;
    assert |left| == |right|;
    forall i | 0 <= i < |left|
      ensures left[i] == right[i]
    {
      if i >= |a| {
        assert left[i] == (b + c)[i - |a|];
      } else {
        assert right[i] == (a + b)[i];
      }
    }
  }

  lemma {:induction false} Utf8LenAppend(a: string, b: string)
    ensures Utf8Len(a + b) == Utf8Len(a) + Utf8Len(b)
  {
    if a == "" {
      assert a + b == b;
    } else {
      Utf8LenAppend(a[1..], b);
      assert (a + b)[1..] == a[1..] + b;
    }
  }

  /** The characters that make up the first `n` bytes of `s`, or `None` where
      slicing at byte `n` would panic: past the end or inside a character. */
  function BytePrefix(s: string, n: nat): (r: Option<string>)
    ensures r.Some? ==> |r.value| <= |s| && s[..|r.value|] == r.value && Utf8Len(r.value) == n
  {
    if n == 0 then Some("")
    else if s == "" || CharBytes(s[0]) > n then None
    else match BytePrefix(s[1..], n - CharBytes(s[0]))
      case None => None
      case Some(p) => Some([s[0]] + p)
  }

  /** The Unicode White_Space property, as used by `char::is_whitespace`. */
  predicate IsWhitespace(c: char) {
    '\U{9}' <= c <= '\U{D}' || c == ' ' || c == '\U{85}' || c == '\U{A0}' || c == '\U{1680}'
    || '\U{2000}' <= c <= '\U{200A}' || c == '\U{2028}' || c == '\U{2029}' || c == '\U{202F}'
    || c == '\U{205F}' || c == '\U{3000}'
  }

  function TrimStart(s: string): string {
    if s != "" && IsWhitespace(s[0]) then TrimStart(s[1..]) else s
  }

  function TrimEnd(s: string): string {
    if s != "" && IsWhitespace(s[|s| - 1]) then TrimEnd(s[..|s| - 1]) else s
  }

  function Trim(s: string): string {
    TrimEnd(TrimStart(s))
  }

  predicate IsDigit(c: char) {
    '0' <= c <= '9'
  }

  /** The value of a run of decimal digits, or `None` on any other character. */
  function DigitsValue(s: string): Option<nat> {
    if s == "" then Some(0)
    else
      var n := |s| - 1;
      match DigitsValue(s[..n])
      case None => None
      case Some(v) => if IsDigit(s[n]) then Some(v * 10 + (s[n] as int - '0' as int)) else None
  }

  /** `str::parse` for an unsigned integer type with largest value `max`: an
      optional plus sign, at least one digit, and no overflow. */
  function ParseUnsigned(s: string, max: nat): (r: Option<nat>)
    ensures r.Some? ==> r.value <= max
  {
    var digits := if s != "" && s[0] == '+' then s[1..] else s;
    if digits == "" then None
    else match DigitsValue(digits)
      case None => None
      case Some(v) => if v <= max then Some(v) else None
  }
}
