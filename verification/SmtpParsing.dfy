/** What the SMTP catcher makes of the bytes it reads: message text, commands, emails. */
module SmtpParsing {
  import opened Prelude
  import opened Text
  import opened Wire

  const MAX_LINE_BYTES := 64 * 1024
  const MAX_MESSAGE_BYTES := 10 * 1024 * 1024

  datatype Email = Email(from: string, to: string, subject: string, body: string)

  /** `Panicked`: the source slices a string inside a character. */
  datatype EmailError =
    | UnexpectedEof
    | InvalidResponse
    | MessageTooLarge
    | Rejected(code: nat, phase: string)
    | StartTlsUnsupported
    | AuthRequiresTls
    | Panicked

  // Receiving the message text.

  function Unstuffed(line: string): string {
    if line != "" && line[0] == '.' then line[1..] else line
  }

  datatype DataResult = Data(text: string, rest: string) | DataError(error: EmailError)

  function ReadDataFrom(stream: string, text: string): (r: DataResult)
    ensures r.Data? ==> |r.rest| < |stream|
    decreases |stream|
  {
    if stream == "" then DataError(UnexpectedEof)
    else
      var line := TrimEol(FirstLine(stream));
      if line == "." then Data(text, AfterLine(stream))
      else if Utf8Len(text) + Utf8Len(Unstuffed(line)) + 1 > MAX_MESSAGE_BYTES then DataError(MessageTooLarge)
      else ReadDataFrom(AfterLine(stream), text + Unstuffed(line) + "\n")
  }

  method ReadData(socket: Socket) returns (result: Result<string, EmailError>)
    modifies socket
    ensures socket.outgoing == old(socket.outgoing)
    ensures match ReadDataFrom(old(socket.incoming), "")
      case Data(text, rest) => result == Ok(text) && socket.incoming == rest
      case DataError(error) => result == Err(error)
  {
    var data := "";
    while true
      invariant socket.outgoing == old(socket.outgoing)
      invariant ReadDataFrom(old(socket.incoming), "") == ReadDataFrom(socket.incoming, data)
      decreases |socket.incoming|
    {
      if socket.incoming == "" {
        return Err(UnexpectedEof);
      }
      var line := socket.ReadLine();
      var trimmed := TrimEol(line);
      if trimmed == "." {
        return Ok(data);
      }
      var unstuffed := Unstuffed(trimmed);
      if Utf8Len(data) + Utf8Len(unstuffed) + 1 > MAX_MESSAGE_BYTES {
        return Err(MessageTooLarge);
      }
      data := data + unstuffed + "\n";
    }
  }

  // Parsing commands.

  /** `to_uppercase` as far as it can produce one of the verbs: ASCII letters and
      the two other characters whose upper case is a single ASCII letter. */
  function UpperChar(c: char): char {
    if 'a' <= c <= 'z' then 'A' + (c - 'a')
    else if c == '\U{131}' then 'I'
    else if c == '\U{17F}' then 'S'
    else c
  }

  function Upper(s: string): string {
    seq(|s|, i requires 0 <= i < |s| => UpperChar(s[i]))
  }

  function AsciiLower(c: char): char {
    if 'A' <= c <= 'Z' then 'a' + (c - 'A') else c
  }

  predicate EqIgnoreAsciiCase(a: string, b: string) {
    |a| == |b| && forall i :: 0 <= i < |a| ==> AsciiLower(a[i]) == AsciiLower(b[i])
  }

  function FirstSpace(s: string): (n: nat)
    ensures n <= |s| && (n < |s| ==> IsWhitespace(s[n]))
  {
    if s == "" || IsWhitespace(s[0]) then 0 else 1 + FirstSpace(s[1..])
  }

  datatype Parsed<+T> = Value(value: T) | Panic

  /** The verb in upper case and the text after it. The source skips one byte for
      the separator, which panics when the separator takes more than one. */
  function SplitVerb(line: string): Parsed<(string, string)> {
    var t := TrimStart(line);
    var n := FirstSpace(t);
    if n == |t| then Value((Upper(t), ""))
    else if CharBytes(t[n]) != 1 then Panic
    else Value((Upper(t[..n]), TrimStart(t[n + 1..])))
  }

  function UpTo(s: string, stop: char): string {
    if s == "" || s[0] == stop then "" else [s[0]] + UpTo(s[1..], stop)
  }

  function ParseAddr(text: string, prefix: string): Parsed<Option<string>> {
    var rest := TrimStart(text);
    if Utf8Len(rest) < Utf8Len(prefix) then Value(None)
    else
      var head := BytePrefix(rest, Utf8Len(prefix));
      if head.None? then Panic
      else if !EqIgnoreAsciiCase(head.value, prefix) then Value(None)
      else
        var after := Trim(rest[|head.value|..]);
        var inside := if after != "" && after[0] == '<' then UpTo(after[1..], '>') else after;
        Value(Some(Trim(inside)))
  }

  datatype Command =
    | Helo
    | Ehlo
    | Mail(sender: Option<string>)
    | Rcpt(recipient: Option<string>)
    | DataCommand
    | Rset
    | Noop
    | Vrfy
    | Quit
    | Blank
    | Unknown
    | Crash

  function Interpret(line: string): Command {
    match SplitVerb(line)
    case Panic => Crash
    case Value((verb, rest)) =>
      if verb == "HELO" then Helo
      else if verb == "EHLO" then Ehlo
      else if verb == "MAIL" then
        (match ParseAddr(rest, "FROM:") case Panic => Crash case Value(sender) => Mail(sender))
      else if verb == "RCPT" then
        (match ParseAddr(rest, "TO:") case Panic => Crash case Value(recipient) => Rcpt(recipient))
      else if verb == "DATA" then DataCommand
      else if verb == "RSET" then Rset
      else if verb == "NOOP" then Noop
      else if verb == "VRFY" then Vrfy
      else if verb == "QUIT" then Quit
      else if verb == "" then Blank
      else Unknown
  }

  // Parsing the message.

  function SplitOnce(s: string, separator: string): Option<(string, string)> {
    if |separator| <= |s| && s[..|separator|] == separator then Some(("", s[|separator|..]))
    else if s == "" then None
    else match SplitOnce(s[1..], separator)
      case None => None
      case Some((before, after)) => Some(([s[0]] + before, after))
  }

  function StripCr(line: string): string {
    if line != "" && line[|line| - 1] == '\r' then line[..|line| - 1] else line
  }

  /** `str::lines`. */
  function Lines(s: string): seq<string>
    decreases |s|
  {
    if s == "" then []
    else
      var n := LineLength(s);
      var line := if s[n - 1] == '\n' then StripCr(s[..n - 1]) else s[..n];
      [line] + Lines(s[n..])
  }

  function FirstColon(s: string): (n: nat)
    ensures n <= |s|
  {
    if s == "" || s[0] == ':' then 0 else 1 + FirstColon(s[1..])
  }

  function HeaderIn(lines: seq<string>, name: string): Option<string> {
    if lines == [] then None
    else
      var n := FirstColon(lines[0]);
      if n < |lines[0]| && EqIgnoreAsciiCase(Trim(lines[0][..n]), name) then Some(Trim(lines[0][n + 1..]))
      else HeaderIn(lines[1..], name)
  }

  function HeaderValue(block: string, name: string): Option<string> {
    HeaderIn(Lines(block), name)
  }

  function Join(parts: seq<string>, separator: string): string {
    if parts == [] then ""
    else if |parts| == 1 then parts[0]
    else parts[0] + separator + Join(parts[1..], separator)
  }

  function SplitHeader(raw: string): (string, string) {
    match SplitOnce(raw, "\r\n\r\n")
    case Some(parts) => parts
    case None =>
      match SplitOnce(raw, "\n\n")
      case Some(parts) => parts
      case None => ("", raw)
  }

  function ParseEmail(envelopeFrom: string, rcpts: seq<string>, raw: string): Email {
    var (block, body) := SplitHeader(raw);
    Email(HeaderValue(block, "From").GetOr(envelopeFrom),
          HeaderValue(block, "To").GetOr(Join(rcpts, ", ")),
          HeaderValue(block, "Subject").GetOr(""),
          body)
  }
}
