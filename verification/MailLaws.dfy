/** What the catcher reads in a message: its headers, line by line, and what it puts in
    place of those that are missing. */
module MailLaws {
  import opened Prelude
  import opened Text
  import opened Trimming
  import opened Wire
  import opened SmtpParsing

  predicate SameLetter(a: char, b: char) {
    || a == b
    || ('A' <= a <= 'Z' && b == 'a' + (a - 'A'))
    || ('A' <= b <= 'Z' && a == 'a' + (b - 'A'))
  }

  /** The same text up to the case of ASCII letters. */
  predicate SameName(a: string, b: string) {
    |a| == |b| && forall i :: 0 <= i < |a| ==> SameLetter(a[i], b[i])
  }

  lemma SameNameExactly(a: string, b: string)
    ensures EqIgnoreAsciiCase(a, b) <==> SameName(a, b)
  {
    if |a| == |b| {
      forall i | 0 <= i < |a|
        ensures AsciiLower(a[i]) == AsciiLower(b[i]) <==> SameLetter(a[i], b[i])
      {
      }
    }
  }

  /** The line is a header of this name with this value: what is before and after its
      first colon, without the white space around. */
  ghost predicate Header(line: string, name: string, value: string) {
    exists k, own :: HeaderAt(line, name, value, k, own)
  }

  ghost predicate HeaderAt(line: string, name: string, value: string, k: int, own: string) {
    && 0 <= k < |line| && line[k] == ':' && (forall i :: 0 <= i < k ==> line[i] != ':')
    && CoreOf(line[..k], own) && SameName(own, name) && CoreOf(line[k + 1..], value)
  }

  lemma {:induction false} FirstColonExactly(s: string)
    ensures forall i :: 0 <= i < FirstColon(s) ==> s[i] != ':'
    ensures FirstColon(s) < |s| ==> s[FirstColon(s)] == ':'
  {
    if s == "" || s[0] == ':' {
    } else {
      FirstColonExactly(s[1..]);
      forall i | 0 < i < FirstColon(s)
        ensures s[i] != ':'
      {
        assert s[i] == s[1..][i - 1];
      }
    }
  }

  lemma OneHeader(line: string, name: string, value: string)
    ensures var n := FirstColon(line);
      Header(line, name, value)
      <==> n < |line| && EqIgnoreAsciiCase(Trim(line[..n]), name) && Trim(line[n + 1..]) == value
  {
    var n := FirstColon(line);
    FirstColonExactly(line);
    if n < |line| {
      var own := Trim(line[..n]);
      CoreExactly(line[..n], own);
      CoreExactly(line[n + 1..], value);
      SameNameExactly(own, name);
      if EqIgnoreAsciiCase(own, name) && Trim(line[n + 1..]) == value {
        assert HeaderAt(line, name, value, n, own);
      }
    }
    if Header(line, name, value) {
      var k, own :| HeaderAt(line, name, value, k, own);
      HeaderAtFirstColon(line, name, value, k, own);
    }
  }

  lemma HeaderAtFirstColon(line: string, name: string, value: string, k: int, own: string)
    requires HeaderAt(line, name, value, k, own)
    ensures var n := FirstColon(line);
      n < |line| && EqIgnoreAsciiCase(Trim(line[..n]), name) && Trim(line[n + 1..]) == value
  {
    FirstColonExactly(line);
    assert k == FirstColon(line);
    CoreExactly(line[..k], own);
    CoreExactly(line[k + 1..], value);
    SameNameExactly(own, name);
  }

  ghost predicate NoHeaders(lines: seq<string>, name: string) {
    forall i, v :: 0 <= i < |lines| ==> !Header(lines[i], name, v)
  }

  /** The first header of this name has this value. */
  ghost predicate FirstHeader(lines: seq<string>, name: string, value: string) {
    exists i :: 0 <= i < |lines| && Header(lines[i], name, value) && NoHeaders(lines[..i], name)
  }

  lemma NoHeadersCons(line: string, lines: seq<string>, name: string)
    ensures NoHeaders([line] + lines, name) <==> NoHeaders(lines, name) && forall v :: !Header(line, name, v)
  {
    var all := [line] + lines;
    assert all[0] == line && forall i :: 0 <= i < |lines| ==> all[i + 1] == lines[i];
    if NoHeaders(lines, name) && forall v :: !Header(line, name, v) {
      forall i, v | 0 <= i < |all| ensures !Header(all[i], name, v) {
        if i > 0 {
          assert all[i] == lines[i - 1];
        }
      }
    }
  }

  lemma FirstHeaderCons(line: string, lines: seq<string>, name: string, value: string)
    ensures Header(line, name, value) ==> FirstHeader([line] + lines, name, value)
    ensures FirstHeader(lines, name, value) && (forall v :: !Header(line, name, v)) ==>
      FirstHeader([line] + lines, name, value)
  {
    var all := [line] + lines;
    assert all[0] == line && all[..0] == [];
    if FirstHeader(lines, name, value) && forall v :: !Header(line, name, v) {
      var i :| 0 <= i < |lines| && Header(lines[i], name, value) && NoHeaders(lines[..i], name);
      NoHeadersCons(line, lines[..i], name);
      assert all[..i + 1] == [line] + lines[..i] && all[i + 1] == lines[i];
    }
  }

  /** The first header of this name is the one read. */
  lemma {:induction false} HeaderExactly(lines: seq<string>, name: string)
    ensures HeaderIn(lines, name).None? <==> NoHeaders(lines, name)
    ensures HeaderIn(lines, name).Some? ==> FirstHeader(lines, name, HeaderIn(lines, name).value)
  {
    if lines == [] {
    } else {
      var line, rest := lines[0], lines[1..];
      assert lines == [line] + rest;
      HeaderExactly(rest, name);
      NoHeadersCons(line, rest, name);
      var read := OneHeaderRead(line, name);
      if read.Some? {
        FirstHeaderCons(line, rest, name, read.value);
      } else if HeaderIn(rest, name).Some? {
        FirstHeaderCons(line, rest, name, HeaderIn(rest, name).value);
      }
    }
  }

  lemma OneHeaderRead(line: string, name: string) returns (read: Option<string>)
    ensures var n := FirstColon(line);
      read == if n < |line| && EqIgnoreAsciiCase(Trim(line[..n]), name) then Some(Trim(line[n + 1..])) else None
    ensures forall v :: Header(line, name, v) <==> read == Some(v)
  {
    var n := FirstColon(line);
    read := if n < |line| && EqIgnoreAsciiCase(Trim(line[..n]), name) then Some(Trim(line[n + 1..])) else None;
    forall v ensures Header(line, name, v) <==> read == Some(v) {
      OneHeader(line, name, v);
    }
  }

  predicate At(s: string, separator: string, i: int) {
    0 <= i && i + |separator| <= |s| && s[i..i + |separator|] == separator
  }

  lemma AtRest(s: string, separator: string, i: int)
    requires s != "" && i > 0
    ensures At(s, separator, i) <==> At(s[1..], separator, i - 1)
  {
    if i + |separator| <= |s| {
      assert s[i..i + |separator|] == s[1..][i - 1..i - 1 + |separator|];
    }
  }

  lemma JoinedFirst(c: char, before: string, separator: string, after: string)
    ensures [c] + before + separator + after == [c] + (before + separator + after)
  {
  }

  /** The text is cut at the first separator, if there is one. */
  lemma {:induction false} SplitOnceExactly(s: string, separator: string)
    requires separator != ""
    ensures SplitOnce(s, separator).None? ==> forall i :: !At(s, separator, i)
    ensures SplitOnce(s, separator).Some? ==>
      var (before, after) := SplitOnce(s, separator).value;
      && s == before + separator + after && At(s, separator, |before|)
      && forall i :: At(s, separator, i) ==> i >= |before|
  {
    if |separator| <= |s| && s[..|separator|] == separator {
      assert s == "" + separator + s[|separator|..];
    } else if s == "" {
    } else {
      var rest := s[1..];
      SplitOnceExactly(rest, separator);
      forall i | i > 0 ensures At(s, separator, i) <==> At(rest, separator, i - 1) {
        AtRest(s, separator, i);
      }
      assert !At(s, separator, 0);
      if SplitOnce(rest, separator).Some? {
        var (before, after) := SplitOnce(rest, separator).value;
        assert s == [s[0]] + rest;
        JoinedFirst(s[0], before, separator, after);
        assert At(rest, separator, |before| + 1 - 1);
      } else {
        forall i ensures !At(s, separator, i) {
          assert i > 0 ==> !At(rest, separator, i - 1);
        }
      }
    }
  }

  ghost predicate NoHeader(block: string, name: string) {
    NoHeaders(Lines(block), name)
  }

  /** What is missing comes from the envelope: the sender, the recipients one after the
      other, and no subject. */
  lemma EnvelopeFillsIn(envelopeFrom: string, rcpts: seq<string>, raw: string)
    ensures var e, block := ParseEmail(envelopeFrom, rcpts, raw), SplitHeader(raw).0;
      && (NoHeader(block, "From") ==> e.from == envelopeFrom)
      && (NoHeader(block, "To") ==> e.to == Join(rcpts, ", "))
      && (NoHeader(block, "Subject") ==> e.subject == "")
  {
    var block := SplitHeader(raw).0;
    HeaderExactly(Lines(block), "From");
    HeaderExactly(Lines(block), "To");
    HeaderExactly(Lines(block), "Subject");
  }

  /** Without a blank line everything is body, and the envelope is all there is. */
  lemma NoBlankLine(envelopeFrom: string, rcpts: seq<string>, raw: string)
    requires forall i :: !At(raw, "\n\n", i) && !At(raw, "\r\n\r\n", i)
    ensures ParseEmail(envelopeFrom, rcpts, raw) == Email(envelopeFrom, Join(rcpts, ", "), "", raw)
  {
    SplitOnceExactly(raw, "\r\n\r\n");
    SplitOnceExactly(raw, "\n\n");
    assert Lines("") == [];
  }

  /** Headers end at the first blank line of CR LF line ends, if there is one, else at
      the first of plain ones. */
  lemma HeadersEndAtBlankLine(raw: string, block: string, body: string)
    ensures At(raw, "\r\n\r\n", |block|) && raw == block + "\r\n\r\n" + body
            && (forall i :: At(raw, "\r\n\r\n", i) ==> i >= |block|)
      ==> SplitHeader(raw) == (block, body)
    ensures (forall i :: !At(raw, "\r\n\r\n", i)) && At(raw, "\n\n", |block|) && raw == block + "\n\n" + body
            && (forall i :: At(raw, "\n\n", i) ==> i >= |block|)
      ==> SplitHeader(raw) == (block, body)
  {
    SplitOnceExactly(raw, "\r\n\r\n");
    SplitOnceExactly(raw, "\n\n");
    FirstIsSplit(raw, "\r\n\r\n", block, body);
    FirstIsSplit(raw, "\n\n", block, body);
  }

  lemma FirstIsSplit(s: string, separator: string, before: string, after: string)
    requires separator != ""
    ensures s == before + separator + after && At(s, separator, |before|)
            && (forall i :: At(s, separator, i) ==> i >= |before|)
      ==> SplitOnce(s, separator) == Some((before, after))
  {
    SplitOnceExactly(s, separator);
    if s == before + separator + after && At(s, separator, |before|)
       && forall i :: At(s, separator, i) ==> i >= |before|
    {
      var (b, a) := SplitOnce(s, separator).value;
      assert |b| == |before|;
      assert b == s[..|b|] && a == s[|b| + |separator|..];
      assert before == s[..|before|] && after == s[|before| + |separator|..];
    }
  }

  /** The lines of a text, with either line end, and the last one as it is. */
  lemma LinesExactly(line: string, rest: string)
    requires NewlineFree(line)
    ensures Lines(line + "\r\n" + rest) == [line] + Lines(rest)
    ensures line == "" || line[|line| - 1] != '\r' ==> Lines(line + "\n" + rest) == [line] + Lines(rest)
    ensures line != "" ==> Lines(line) == [line]
  {
    CutLine(line, rest);
    CutCrLf(line, rest);
    if line != "" {
      LastLineWhole(line);
    }
  }

  lemma CutCrLf(line: string, rest: string)
    requires NewlineFree(line)
    ensures Lines(line + "\r\n" + rest) == [line] + Lines(rest)
  {
    CutLine(line + "\r", rest);
    assert line + "\r\n" + rest == line + "\r" + "\n" + rest;
    assert (line + "\r")[..|line|] == line;
  }

  lemma LastLineWhole(line: string)
    requires NewlineFree(line) && line != ""
    ensures Lines(line) == [line]
  {
    LineLengthOfLast(line);
    assert line[..|line|] == line && line[|line|..] == "" && Lines("") == [];
    assert [line] + [] == [line];
  }

  lemma CutLine(line: string, rest: string)
    requires NewlineFree(line)
    ensures Lines(line + "\n" + rest) == [StripCr(line)] + Lines(rest)
  {
    var s := line + "\n" + rest;
    LineLengthOf(line, rest);
    assert s[|line|] == '\n' && s[..|line|] == line && s[|line| + 1..] == rest;
  }
}
