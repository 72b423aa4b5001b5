/** Byte streams between sender and catcher, read line by line. A stream that has
    been read to its end is a closed connection. */
module Wire {

  /** The length of the first line, its newline included. */
  function LineLength(s: string): (n: nat)
    ensures n <= |s| && (s != "" ==> n >= 1)
  {
    if s == "" then 0 else if s[0] == '\n' then 1 else 1 + LineLength(s[1..])
  }

  function FirstLine(s: string): string {
    s[..LineLength(s)]
  }

  function AfterLine(s: string): string {
    s[LineLength(s)..]
  }

  predicate IsEol(c: char) {
    c == '\r' || c == '\n'
  }

  /** `trim_end_matches(['\r', '\n'])`. */
  function TrimEol(s: string): string {
    if s != "" && IsEol(s[|s| - 1]) then TrimEol(s[..|s| - 1]) else s
  }

  predicate NewlineFree(s: string) {
    forall i :: 0 <= i < |s| ==> s[i] != '\n'
  }

  predicate EolFree(s: string) {
    forall i :: 0 <= i < |s| ==> !IsEol(s[i])
  }

  const CRLF := "\r\n"

  class Socket {
    var incoming: string
    var outgoing: string

    method ReadLine() returns (line: string)
      modifies this
      ensures line == FirstLine(old(incoming)) && incoming == AfterLine(old(incoming))
      ensures outgoing == old(outgoing)
    {
      var n := LineLength(incoming);
      line, incoming := incoming[..n], incoming[n..];
    }

    method WriteAll(text: string)
      modifies this
      ensures outgoing == old(outgoing) + text && incoming == old(incoming)
    {
      outgoing := outgoing + text;
    }
  }

  lemma {:induction false} LineLengthOf(line: string, rest: string)
    requires NewlineFree(line)
    ensures LineLength(line + "\n" + rest) == |line| + 1
  {
    var s := line + "\n" + rest;
    if line == "" {
      assert s[0] == '\n';
    } else {
      assert s[0] == line[0] && s[1..] == line[1..] + "\n" + rest;
      LineLengthOf(line[1..], rest);
    }
  }

  lemma {:induction false} LineLengthOfLast(line: string)
    requires NewlineFree(line)
    ensures LineLength(line) == |line|
  {
    if line == "" {
    } else {
      LineLengthOfLast(line[1..]);
    }
  }

  lemma TrimEolFree(s: string)
    requires s == "" || !IsEol(s[|s| - 1])
    ensures TrimEol(s) == s
  {
  }

  /** Reading a line that was written with `\r\n`. */
  lemma ReadWrittenLine(line: string, rest: string)
    requires NewlineFree(line)
    ensures FirstLine(line + CRLF + rest) == line + CRLF
    ensures AfterLine(line + CRLF + rest) == rest
    ensures TrimEol(line + CRLF) == TrimEol(line)
    ensures EolFree(line) ==> TrimEol(line) == line
  {
    assert line + CRLF + rest == (line + "\r") + "\n" + rest;
    LineLengthOf(line + "\r", rest);
    assert (line + CRLF)[..|line| + 1] == line + "\r";
    assert (line + "\r")[..|line|] == line;
  }
}
