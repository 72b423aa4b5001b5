/** The catcher's parser reads back what the sender's builder wrote. */
module MessageParsing {
  import opened Prelude
  import opened Text
  import opened Wire
  import opened SmtpParsing
  import opened DataTransparency

  /** Header lines as received, one newline after each. */
  function Block(headers: seq<string>): string {
    if headers == [] then "" else headers[0] + "\n" + Block(headers[1..])
  }

  /** Neither empty, nor broken by a line end, nor starting with a dot. */
  ghost predicate HeaderLine(h: string) {
    h != "" && EolFree(h) && h[0] != '.'
  }

  ghost predicate HeaderBlock(headers: seq<string>) {
    forall i :: 0 <= i < |headers| ==> HeaderLine(headers[i])
  }

  // Where the header ends: no `\r\n` survives, and the first empty line is the separator.

  ghost predicate NoCrLf(s: string) {
    forall i :: 0 <= i < |s| - 1 ==> !(s[i] == '\r' && s[i + 1] == '\n')
  }

  lemma {:induction false} NoCrLfNoSplit(s: string)
    requires NoCrLf(s)
    ensures SplitOnce(s, "\r\n\r\n").None?
  {
    if s == "" {
    } else {
      forall i | 0 <= i < |s[1..]| - 1
        ensures !(s[1..][i] == '\r' && s[1..][i + 1] == '\n')
      {
        assert s[1..][i] == s[i + 1] && s[1..][i + 1] == s[i + 2];
      }
      NoCrLfNoSplit(s[1..]);
      if |s| >= 4 {
        assert s[..4][0] == s[0] && s[..4][1] == s[1];
      }
    }
  }

  lemma NoCrLfJoin(a: string, b: string)
    requires NoCrLf(a) && NoCrLf(b) && (a == "" || a[|a| - 1] != '\r')
    ensures NoCrLf(a + b)
  {
  }

  lemma NewlineFreeNoCrLf(line: string)
    requires NewlineFree(line) && (line == "" || line[|line| - 1] != '\r')
    ensures NoCrLf(line + "\n")
  {
  }

  lemma {:induction false} TrimEolEnd(s: string)
    ensures TrimEol(s) == "" || !IsEol(TrimEol(s)[|TrimEol(s)| - 1])
  {
    if s != "" && IsEol(s[|s| - 1]) {
      TrimEolEnd(s[..|s| - 1]);
    }
  }

  lemma {:induction false} NormalizedNoCrLf(lines: seq<string>)
    requires forall i :: 0 <= i < |lines| ==> NewlineFree(lines[i])
    ensures NoCrLf(Normalized(lines))
  {
    if lines == [] {
    } else {
      var line := TrimEol(lines[0]);
      TrimEolEnd(lines[0]);
      TrimEolIsPrefix(lines[0]);
      NewlineFreeNoCrLf(line);
      NormalizedNoCrLf(lines[1..]);
      NoCrLfJoin(line + "\n", Normalized(lines[1..]));
    }
  }

  lemma {:induction false} BlockNoCrLf(headers: seq<string>)
    requires HeaderBlock(headers)
    ensures NoCrLf(Block(headers))
    ensures headers != [] ==> Block(headers) != "" && Block(headers)[|Block(headers)| - 1] == '\n'
  {
    if headers == [] {
    } else {
      NewlineFreeNoCrLf(headers[0]);
      BlockNoCrLf(headers[1..]);
      NoCrLfJoin(headers[0] + "\n", Block(headers[1..]));
    }
  }

  lemma {:induction false} SplitSkipsLine(line: string, rest: string)
    requires NewlineFree(line) && rest != "" && rest[0] != '\n'
    ensures SplitOnce(line + "\n" + rest, "\n\n")
         == match SplitOnce(rest, "\n\n")
            case None => None
            case Some((before, after)) => Some((line + "\n" + before, after))
  {
    var s := line + "\n" + rest;
    if line == "" {
      assert s[0] == '\n' && s[1] == rest[0] && s[1..] == rest;
      assert |s| >= 2 ==> s[..2][1] == rest[0];
      if SplitOnce(rest, "\n\n").Some? {
        var before := SplitOnce(rest, "\n\n").value.0;
        assert [s[0]] + before == "" + "\n" + before;
      }
    } else {
      assert s[0] == line[0] && s[1..] == line[1..] + "\n" + rest;
      assert |s| >= 2 ==> s[..2][0] == line[0];
      SplitSkipsLine(line[1..], rest);
      if SplitOnce(rest, "\n\n").Some? {
        var before := SplitOnce(rest, "\n\n").value.0;
        assert [line[0]] + (line[1..] + "\n" + before) == line + "\n" + before;
      }
    }
  }

  lemma {:induction false} SplitAtLine(line: string, body: string)
    requires NewlineFree(line)
    ensures SplitOnce(line + "\n" + ("\n" + body), "\n\n") == Some((line, body))
  {
    var s := line + "\n" + ("\n" + body);
    if line == "" {
      assert s[..2] == "\n\n" && s[2..] == body;
    } else {
      assert s[0] == line[0] && s[1..] == line[1..] + "\n" + ("\n" + body);
      assert s[..2][0] == line[0];
      SplitAtLine(line[1..], body);
      assert [line[0]] + line[1..] == line;
    }
  }

  lemma {:induction false} SplitAfterBlock(headers: seq<string>, body: string)
    requires headers != [] && HeaderBlock(headers)
    ensures SplitOnce(Block(headers) + ("\n" + body), "\n\n") == Some((Join(headers, "\n"), body))
  {
    var rest := Block(headers[1..]) + ("\n" + body);
    assert Block(headers) + ("\n" + body) == headers[0] + "\n" + rest;
    if |headers| == 1 {
      assert rest == "\n" + body;
      SplitAtLine(headers[0], body);
    } else {
      assert rest[0] == headers[1][0];
      SplitAfterBlock(headers[1..], body);
      SplitSkipsLine(headers[0], rest);
    }
  }

  lemma Halves(a: string, b: string)
    ensures (a + b)[..|a|] == a && (a + b)[|a|..] == b
  {
  }

  lemma LinesCons(line: string, rest: string)
    requires HeaderLine(line)
    ensures Lines(line + "\n" + rest) == [line] + Lines(rest)
  {
    LineLengthOf(line, rest);
    Halves(line + "\n", rest);
    Halves(line, "\n" + rest);
    ConcatAssociates(line, "\n", rest);
    assert (line + "\n" + rest)[|line|] == '\n' && StripCr(line) == line;
  }

  lemma {:induction false} LinesOfJoined(headers: seq<string>)
    requires headers != [] && HeaderBlock(headers)
    ensures Lines(Join(headers, "\n")) == headers
    decreases |headers|
  {
    var h := headers[0];
    if |headers| == 1 {
      LastLine(h);
    } else {
      LinesCons(h, Join(headers[1..], "\n"));
      LinesOfJoined(headers[1..]);
      assert headers == [h] + headers[1..];
    }
  }

  lemma LastLine(line: string)
    requires HeaderLine(line)
    ensures Lines(line) == [line]
  {
    LineLengthOfLast(line);
    assert line[|line|..] == "" && line[..|line|] == line;
    assert Lines("") == [] && [line] + [] == [line];
  }

  // Finding a header.

  lemma {:induction false} ColonAfterName(name: string, rest: string)
    requires forall i :: 0 <= i < |name| ==> name[i] != ':'
    ensures FirstColon(name + ":" + rest) == |name|
  {
    var s := name + ":" + rest;
    if name == "" {
    } else {
      assert s[0] == name[0] && s[1..] == name[1..] + ":" + rest;
      ColonAfterName(name[1..], rest);
    }
  }

  /** A header name: neither colons nor outer white space. */
  predicate PlainName(name: string) {
    && name != "" && !IsWhitespace(name[0]) && !IsWhitespace(name[|name| - 1])
    && forall i :: 0 <= i < |name| ==> name[i] != ':'
  }

  lemma HeaderFoundAtFront(name: string, value: string, lines: seq<string>)
    requires PlainName(name) && lines != [] && lines[0] == name + ": " + value
    ensures HeaderIn(lines, name) == Some(Trim(value))
  {
    var line := lines[0];
    assert line == name + ":" + (" " + value);
    ColonAfterName(name, " " + value);
    assert line[..|name|] == name && line[|name| + 1..] == " " + value;
    assert (" " + value)[1..] == value;
    assert Trim(" " + value) == Trim(value);
  }

  lemma OtherHeaderSkipped(other: string, name: string, value: string, lines: seq<string>)
    requires PlainName(other) && lines != [] && lines[0] == other + ": " + value
    requires !EqIgnoreAsciiCase(other, name)
    ensures HeaderIn(lines, name) == HeaderIn(lines[1..], name)
  {
    var line := lines[0];
    assert line == other + ":" + (" " + value);
    ColonAfterName(other, " " + value);
    assert line[..|other|] == other;
  }

  lemma FirstThreeFound(
      a: string, x: string, b: string, y: string, c: string, z: string, lines: seq<string>)
    requires PlainName(a) && PlainName(b) && PlainName(c) && |lines| >= 3
    requires !EqIgnoreAsciiCase(a, b) && !EqIgnoreAsciiCase(a, c) && !EqIgnoreAsciiCase(b, c)
    requires lines[0] == a + ": " + x && lines[1] == b + ": " + y && lines[2] == c + ": " + z
    ensures HeaderIn(lines, a) == Some(Trim(x)) && HeaderIn(lines, b) == Some(Trim(y))
    ensures HeaderIn(lines, c) == Some(Trim(z))
  {
    HeaderFoundAtFront(a, x, lines);
    OtherHeaderSkipped(a, b, x, lines);
    OtherHeaderSkipped(a, c, x, lines);
    HeaderFoundAtFront(b, y, lines[1..]);
    OtherHeaderSkipped(b, c, y, lines[1..]);
    HeaderFoundAtFront(c, z, lines[1..][1..]);
  }

  lemma StandardNames()
    ensures PlainName("From") && PlainName("To") && PlainName("Subject")
    ensures !EqIgnoreAsciiCase("From", "To") && !EqIgnoreAsciiCase("From", "Subject")
    ensures !EqIgnoreAsciiCase("To", "Subject")
  {
  }
}
