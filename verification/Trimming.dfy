/** What `str::trim` means, in terms of characters. */
module Trimming {
  import opened Text

  predicate AllSpace(s: string) {
    forall i :: 0 <= i < |s| ==> IsWhitespace(s[i])
  }

  predicate NoOuterSpace(s: string) {
    s == "" || (!IsWhitespace(s[0]) && !IsWhitespace(s[|s| - 1]))
  }

  ghost predicate Around(text: string, lead: string, core: string, tail: string) {
    text == lead + (core + tail) && AllSpace(lead) && AllSpace(tail) && NoOuterSpace(core)
  }

  /** `text` is `core` with white space, or nothing, around it. */
  ghost predicate CoreOf(text: string, core: string) {
    exists lead, tail :: Around(text, lead, core, tail)
  }

  /** The same text up to white space around it. */
  ghost predicate SameCore(a: string, b: string) {
    exists core :: CoreOf(a, core) && CoreOf(b, core)
  }

  lemma {:induction false} TrimStartOf(lead: string, text: string)
    requires AllSpace(lead) && (text == "" || !IsWhitespace(text[0]))
    ensures TrimStart(lead + text) == text
  {
    if lead == "" {
      assert lead + text == text;
    } else {
      TrimStartOf(lead[1..], text);
      assert (lead + text)[1..] == lead[1..] + text;
    }
  }

  lemma {:induction false} TrimStartSplits(s: string) returns (lead: string)
    ensures s == lead + TrimStart(s) && AllSpace(lead)
    ensures TrimStart(s) == "" || !IsWhitespace(TrimStart(s)[0])
  {
    lead := "";
    if s != "" && IsWhitespace(s[0]) {
      var more := TrimStartSplits(s[1..]);
      lead := [s[0]] + more;
      assert s == [s[0]] + s[1..];
      ConcatAssociates([s[0]], more, TrimStart(s));
    } else {
      assert s == lead + s;
    }
  }

  lemma {:induction false} TrimEndOf(text: string, tail: string)
    requires AllSpace(tail) && (text == "" || !IsWhitespace(text[|text| - 1]))
    ensures TrimEnd(text + tail) == text
  {
    if tail == "" {
      assert text + tail == text;
    } else {
      var n := |tail| - 1;
      TrimEndOf(text, tail[..n]);
      assert (text + tail)[..|text| + n] == text + tail[..n];
    }
  }

  lemma {:induction false} TrimEndSplits(s: string) returns (tail: string)
    ensures s == TrimEnd(s) + tail && AllSpace(tail)
    ensures TrimEnd(s) == "" || !IsWhitespace(TrimEnd(s)[|TrimEnd(s)| - 1])
  {
    tail := "";
    if s != "" && IsWhitespace(s[|s| - 1]) {
      var n := |s| - 1;
      var more := TrimEndSplits(s[..n]);
      tail := more + [s[n]];
      assert s == s[..n] + [s[n]];
      ConcatAssociates(TrimEnd(s), more, [s[n]]);
    } else {
      assert s == s + tail;
    }
  }

  lemma AroundIsTrimmed(text: string, lead: string, core: string, tail: string)
    requires Around(text, lead, core, tail)
    ensures Trim(text) == core
  {
    if core == "" {
      assert text + "" == text;
      TrimStartOf(text, "");
    } else {
      TrimStartOf(lead, core + tail);
      TrimEndOf(core, tail);
    }
  }

  lemma TrimIsAround(text: string)
    ensures CoreOf(text, Trim(text))
  {
    var lead := TrimStartSplits(text);
    var tail := TrimEndSplits(TrimStart(text));
    assert Around(text, lead, Trim(text), tail);
  }

  /** Trimming yields the one core of a text. */
  lemma CoreExactly(text: string, core: string)
    ensures CoreOf(text, core) <==> Trim(text) == core
  {
    if CoreOf(text, core) {
      var lead, tail :| Around(text, lead, core, tail);
      AroundIsTrimmed(text, lead, core, tail);
    }
    TrimIsAround(text);
  }

  lemma SameCoreExactly(a: string, b: string)
    ensures SameCore(a, b) <==> Trim(a) == Trim(b)
  {
    CoreExactly(a, Trim(a));
    CoreExactly(b, Trim(b));
    if core :| CoreOf(a, core) && CoreOf(b, core) {
      CoreExactly(a, core);
      CoreExactly(b, core);
    }
    if Trim(a) == Trim(b) {
      assert CoreOf(a, Trim(a)) && CoreOf(b, Trim(a));
    }
  }
}
