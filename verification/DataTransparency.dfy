/** Section 4.5.2 of RFC 5321 between this sender and this catcher: any body passes
    through DATA, and nothing in it can be taken for the end of the message. */
module DataTransparency {
  import opened Text
  import opened Wire
  import opened SmtpParsing
  import opened SmtpClient

  /** What the catcher keeps of the lines it reads. */
  function Received(lines: seq<string>): string {
    if lines == [] then "" else Unstuffed(TrimEol(lines[0])) + "\n" + Received(lines[1..])
  }

  /** Body lines as they arrive: trailing carriage returns gone, one newline each. */
  function Normalized(lines: seq<string>): string {
    if lines == [] then "" else TrimEol(lines[0]) + "\n" + Normalized(lines[1..])
  }

  /** Lines that DATA can carry: none of them reads as the terminator. */
  ghost predicate Carriable(lines: seq<string>) {
    forall i :: 0 <= i < |lines| ==> NewlineFree(lines[i]) && TrimEol(lines[i]) != "."
  }

  lemma {:induction false} WrittenCons(line: string, lines: seq<string>)
    ensures Written([line] + lines) == line + CRLF + Written(lines)
  {
    if lines == [] {
      assert [line] + lines == [line] && [line][..0] == [];
      assert "" + (line + CRLF) == line + CRLF + "";
    } else {
      var n := |lines| - 1;
      WrittenCons(line, lines[..n]);
      assert ([line] + lines)[..n + 1] == [line] + lines[..n];
      var tail := lines[n] + CRLF;
      assert (line + CRLF + Written(lines[..n])) + tail == line + CRLF + (Written(lines[..n]) + tail);
    }
  }

  lemma Utf8LenOfLine(text: string, line: string)
    ensures Utf8Len(text + line + "\n") == Utf8Len(text) + Utf8Len(line) + 1
  {
    Utf8LenAppend(text + line, "\n");
    Utf8LenAppend(text, line);
    assert Utf8Len("\n") == 1 by {
      assert "\n"[1..] == "";
    }
  }

  const END := "." + CRLF

  lemma ReadTerminator(rest: string, text: string)
    ensures ReadDataFrom(END + rest, text) == Data(text, rest)
  {
    ReadWrittenLine(".", rest);
    assert "." + CRLF + rest == END + rest;
  }

  lemma ReadOneLine(line: string, rest: string, text: string)
    requires NewlineFree(line) && TrimEol(line) != "."
    ensures ReadDataFrom(line + CRLF + rest, text)
         == if Utf8Len(text + Unstuffed(TrimEol(line)) + "\n") > MAX_MESSAGE_BYTES then DataError(MessageTooLarge)
            else ReadDataFrom(rest, text + Unstuffed(TrimEol(line)) + "\n")
  {
    ReadWrittenLine(line, rest);
    Utf8LenOfLine(text, Unstuffed(TrimEol(line)));
    assert line + CRLF + rest != "";
  }

  lemma WrittenStarts(lines: seq<string>, rest: string)
    requires lines != []
    ensures Written(lines) + rest == lines[0] + CRLF + (Written(lines[1..]) + rest)
  {
    WrittenHead(lines);
    ConcatAssociates(lines[0] + CRLF, Written(lines[1..]), rest);
  }

  lemma ReceivedStarts(text: string, lines: seq<string>)
    requires lines != []
    ensures text + Received(lines) == text + Unstuffed(TrimEol(lines[0])) + "\n" + Received(lines[1..])
  {
  }

  /** The catcher consumes exactly what the sender wrote, up to and including the
      terminating line, and keeps every line - or reports a message over the limit. */
  lemma {:induction false} ReadWritten(lines: seq<string>, rest: string, text: string)
    requires Carriable(lines) && Utf8Len(text) <= MAX_MESSAGE_BYTES
    ensures ReadDataFrom(Written(lines) + (END + rest), text)
         == if Utf8Len(text + Received(lines)) <= MAX_MESSAGE_BYTES then Data(text + Received(lines), rest)
            else DataError(MessageTooLarge)
  {
    if lines == [] {
      assert Written(lines) + (END + rest) == END + rest;
      assert text + "" == text;
      ReadTerminator(rest, text);
    } else {
      var kept := text + Unstuffed(TrimEol(lines[0])) + "\n";
      WrittenStarts(lines, END + rest);
      ReadOneLine(lines[0], Written(lines[1..]) + (END + rest), text);
      ReceivedStarts(text, lines);
      Utf8LenAppend(kept, Received(lines[1..]));
      if Utf8Len(kept) <= MAX_MESSAGE_BYTES {
        ReadWritten(lines[1..], rest, kept);
      }
    }
  }

  lemma WrittenHead(lines: seq<string>)
    requires lines != []
    ensures Written(lines) == lines[0] + CRLF + Written(lines[1..])
  {
    assert lines == [lines[0]] + lines[1..];
    WrittenCons(lines[0], lines[1..]);
  }

  /** A text that breaks off before its terminating line is no message. */
  lemma {:induction false} BrokenOff(lines: seq<string>, text: string)
    requires Carriable(lines) && Utf8Len(text) <= MAX_MESSAGE_BYTES
    ensures ReadDataFrom(Written(lines), text)
         == DataError(if Utf8Len(text + Received(lines)) <= MAX_MESSAGE_BYTES then UnexpectedEof else MessageTooLarge)
  {
    if lines == [] {
      assert text + "" == text;
    } else {
      var kept := text + Unstuffed(TrimEol(lines[0])) + "\n";
      WrittenHead(lines);
      ReadOneLine(lines[0], Written(lines[1..]), text);
      ReceivedStarts(text, lines);
      Utf8LenAppend(kept, Received(lines[1..]));
      if Utf8Len(kept) <= MAX_MESSAGE_BYTES {
        BrokenOff(lines[1..], kept);
      }
    }
  }

  lemma {:induction false} TrimEolIsPrefix(s: string)
    ensures |TrimEol(s)| <= |s| && s[..|TrimEol(s)|] == TrimEol(s)
  {
    if s != "" && IsEol(s[|s| - 1]) {
      TrimEolIsPrefix(s[..|s| - 1]);
    }
  }

  lemma {:induction false} TrimEolAfterDot(line: string)
    requires line != "" && line[0] == '.'
    ensures TrimEol("." + line) == "." + TrimEol(line)
    ensures TrimEol(line) != ""
  {
    var s := "." + line;
    var n := |line| - 1;
    assert s[|s| - 1] == line[n];
    if IsEol(line[n]) {
      TrimEolAfterDot(line[..n]);
      assert s[..|s| - 1] == "." + line[..n];
    }
  }

  /** A stuffed line is never the terminator, and un-stuffing restores the line. */
  lemma StuffingIsUndone(rawLine: string)
    requires NewlineFree(rawLine)
    ensures NewlineFree(Stuffed(rawLine)) && TrimEol(Stuffed(rawLine)) != "."
    ensures Unstuffed(TrimEol(Stuffed(rawLine))) == TrimEol(rawLine)
  {
    var line := StripCr(rawLine);
    assert TrimEol(line) == TrimEol(rawLine);
    TrimEolIsPrefix(line);
    if line != "" && line[0] == '.' {
      TrimEolAfterDot(line);
    }
  }

  lemma {:induction false} StuffedLinesArrive(rawLines: seq<string>)
    requires forall i :: 0 <= i < |rawLines| ==> NewlineFree(rawLines[i])
    ensures Carriable(StuffedLines(rawLines))
    ensures Received(StuffedLines(rawLines)) == Normalized(rawLines)
  {
    if rawLines == [] {
    } else {
      StuffingIsUndone(rawLines[0]);
      StuffedLinesArrive(rawLines[1..]);
      assert StuffedLines(rawLines)[1..] == StuffedLines(rawLines[1..]);
      assert forall i :: 1 <= i < |rawLines| ==> StuffedLines(rawLines)[i] == StuffedLines(rawLines[1..])[i - 1];
    }
  }

  /** The lines of a body, which put together again give the body. */
  lemma {:induction false} SplitLinesIsFaithful(body: string)
    ensures forall i :: 0 <= i < |SplitLines(body)| ==> NewlineFree(SplitLines(body)[i])
    ensures Join(SplitLines(body), "\n") == body
  {
    if body == "" {
    } else {
      SplitLinesIsFaithful(body[1..]);
      var rest := SplitLines(body[1..]);
      assert body == [body[0]] + body[1..];
      if body[0] == '\n' {
        assert SplitLines(body)[1..] == rest;
        assert "" + "\n" + body[1..] == body;
      } else {
        assert SplitLines(body)[1..] == rest[1..];
        if |rest| > 1 {
          var tail := Join(rest[1..], "\n");
          assert [body[0]] + rest[0] + "\n" + tail == [body[0]] + (rest[0] + "\n" + tail);
        }
      }
    }
  }

  /** For every body: what the catcher reads is the body's lines, each without its
      trailing carriage returns and with one newline, as long as they fit. */
  lemma BodyPassesThrough(body: string, rest: string)
    ensures var lines := StuffedLines(SplitLines(body));
      ReadDataFrom(Written(lines) + (END + rest), "")
      == if Utf8Len(Normalized(SplitLines(body))) <= MAX_MESSAGE_BYTES then Data(Normalized(SplitLines(body)), rest)
         else DataError(MessageTooLarge)
  {
    SplitLinesIsFaithful(body);
    StuffedLinesArrive(SplitLines(body));
    ReadWritten(StuffedLines(SplitLines(body)), rest, "");
    assert "" + Normalized(SplitLines(body)) == Normalized(SplitLines(body));
  }
}
