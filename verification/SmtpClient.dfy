/** The SMTP sender: message text, replies, and the sequence of commands. */
module SmtpClient {
  import opened Prelude
  import opened Text
  import opened Wire
  import opened SmtpParsing

  // The message.

  function SplitLines(body: string): (lines: seq<string>)
    ensures lines != []
  {
    if body == "" then [""]
    else
      var rest := SplitLines(body[1..]);
      if body[0] == '\n' then [""] + rest else [[body[0]] + rest[0]] + rest[1..]
  }

  function HeaderSafe(value: string): string {
    Filter(value, (c: char) => c != '\r' && c != '\n')
  }

  /** The part after the last `@`, if there is one. */
  function AfterLastAt(s: string): Option<string> {
    if s == "" then None
    else
      var later := AfterLastAt(s[1..]);
      if later.Some? then later else if s[0] == '@' then Some(s[1..]) else None
  }

  function Domain(from: string): string {
    var d := AfterLastAt(from);
    if d.Some? && d.value != "" then d.value else "localhost"
  }

  /** `date` and `uuid` come from the clock and the random generator. */
  function HeaderLines(from: string, to: string, subject: string, date: string, uuid: string): seq<string> {
    ["From: " + HeaderSafe(from),
     "To: " + HeaderSafe(to),
     "Subject: " + HeaderSafe(subject),
     "Date: " + date,
     "Message-ID: <" + uuid + "@" + Domain(from) + ">",
     "MIME-Version: 1.0",
     "Content-Type: text/plain; charset=utf-8"]
  }

  /** Section 4.5.2 of RFC 5321: a line that starts with a dot gets another. */
  function Stuffed(rawLine: string): string {
    var line := StripCr(rawLine);
    if line != "" && line[0] == '.' then "." + line else line
  }

  function StuffedLines(rawLines: seq<string>): seq<string> {
    seq(|rawLines|, i requires 0 <= i < |rawLines| => Stuffed(rawLines[i]))
  }

  /** Lines as they are written, each ended by `\r\n`. */
  function Written(lines: seq<string>): string {
    if lines == [] then "" else Written(lines[..|lines| - 1]) + (lines[|lines| - 1] + CRLF)
  }

  function MessageLines(from: string, to: string, subject: string, body: string, date: string, uuid: string)
    : seq<string>
  {
    HeaderLines(from, to, subject, date, uuid) + [""] + StuffedLines(SplitLines(body))
  }

  lemma WrittenSnoc(lines: seq<string>, line: string)
    ensures Written(lines + [line]) == Written(lines) + (line + CRLF)
  {
    assert (lines + [line])[..|lines|] == lines;
  }

  method PushHeaders(headers: seq<string>) returns (out: string)
    ensures out == Written(headers)
  {
    out := "";
    for i := 0 to |headers|
      invariant out == Written(headers[..i])
    {
      out := out + (headers[i] + CRLF);
      WrittenSnoc(headers[..i], headers[i]);
      assert headers[..i + 1] == headers[..i] + [headers[i]];
    }
    assert headers[..|headers|] == headers;
  }

  lemma StuffedLinesSnoc(top: seq<string>, rawLines: seq<string>, rawLine: string)
    ensures Written(top + StuffedLines(rawLines + [rawLine]))
         == Written(top + StuffedLines(rawLines)) + (Stuffed(rawLine) + CRLF)
  {
    assert StuffedLines(rawLines + [rawLine]) == StuffedLines(rawLines) + [Stuffed(rawLine)];
    assert top + StuffedLines(rawLines + [rawLine]) == top + StuffedLines(rawLines) + [Stuffed(rawLine)];
    WrittenSnoc(top + StuffedLines(rawLines), Stuffed(rawLine));
  }

  lemma NextLineStuffed(top: seq<string>, rawLines: seq<string>, i: nat)
    requires i < |rawLines|
    ensures Written(top + StuffedLines(rawLines[..i + 1]))
         == Written(top + StuffedLines(rawLines[..i])) + (Stuffed(rawLines[i]) + CRLF)
  {
    StuffedLinesSnoc(top, rawLines[..i], rawLines[i]);
    assert rawLines[..i + 1] == rawLines[..i] + [rawLines[i]];
  }

  method PushLine(start: string, rawLine: string) returns (out: string)
    ensures out == start + (Stuffed(rawLine) + CRLF)
  {
    var line := StripCr(rawLine);
    out := start;
    if line != "" && line[0] == '.' {
      out := out + ".";
    }
    out := out + line;
    out := out + CRLF;
  }

  method PushBody(start: string, ghost top: seq<string>, body: string) returns (out: string)
    requires start == Written(top)
    ensures out == Written(top + StuffedLines(SplitLines(body)))
  {
    out := start;
    var rawLines := SplitLines(body);
    assert top + StuffedLines(rawLines[..0]) == top;
    for i := 0 to |rawLines|
      invariant out == Written(top + StuffedLines(rawLines[..i]))
    {
      out := PushLine(out, rawLines[i]);
      NextLineStuffed(top, rawLines, i);
    }
    assert rawLines[..|rawLines|] == rawLines;
  }

  method BuildMessage(from: string, to: string, subject: string, body: string, date: string, uuid: string)
    returns (out: string)
    ensures out == Written(MessageLines(from, to, subject, body, date, uuid))
  {
    var headers := HeaderLines(from, to, subject, date, uuid);
    out := PushHeaders(headers);
    WrittenSnoc(headers, "");
    out := out + ("" + CRLF);
    out := PushBody(out, headers + [""], body);
  }

  // Replies.

  datatype Reply = Reply(code: nat, lines: seq<string>, rest: string) | ReplyError(error: EmailError)

  /** One reply, of one or more lines: the last has a space, or nothing, after its
      three-digit code (section 4.2.1 of RFC 5321). */
  function ReadReplyFrom(stream: string, lines: seq<string>): Reply
    decreases |stream|
  {
    if stream == "" then ReplyError(UnexpectedEof)
    else
      var line := TrimEol(FirstLine(stream));
      if Utf8Len(line) < 3 then ReplyError(InvalidResponse)
      else
        var digits := BytePrefix(line, 3);
        if digits.None? then ReplyError(Panicked)
        else
          var code := ParseUnsigned(digits.value, 0xFFFF);
          if code.None? then ReplyError(InvalidResponse)
          else if |line| == |digits.value| || line[|digits.value|] == ' ' then
            Reply(code.value, lines + [line], AfterLine(stream))
          else ReadReplyFrom(AfterLine(stream), lines + [line])
  }

  method ReadReply(socket: Socket) returns (result: Result<(nat, seq<string>), EmailError>)
    modifies socket
    ensures socket.outgoing == old(socket.outgoing)
    ensures match ReadReplyFrom(old(socket.incoming), [])
      case Reply(code, lines, rest) => result == Ok((code, lines)) && socket.incoming == rest
      case ReplyError(error) => result == Err(error)
  {
    var lines := [];
    while true
      invariant socket.outgoing == old(socket.outgoing)
      invariant ReadReplyFrom(old(socket.incoming), []) == ReadReplyFrom(socket.incoming, lines)
      decreases |socket.incoming|
    {
      if socket.incoming == "" {
        return Err(UnexpectedEof);
      }
      var line := socket.ReadLine();
      var trimmed := TrimEol(line);
      if Utf8Len(trimmed) < 3 {
        return Err(InvalidResponse);
      }
      var digits := BytePrefix(trimmed, 3);
      if digits.None? {
        return Err(Panicked);
      }
      var code := ParseUnsigned(digits.value, 0xFFFF);
      if code.None? {
        return Err(InvalidResponse);
      }
      var isLast := |trimmed| == |digits.value| || trimmed[|digits.value|] == ' ';
      lines := lines + [trimmed];
      if isLast {
        return Ok((code.value, lines));
      }
    }
  }

  // The dialogue: send a text, then expect a reply with a given code.

  datatype Step = Step(text: string, expected: nat, phase: string)

  /** What the sender writes when `replies` is all it ever receives, and how it ends. */
  datatype Sent = Sent(output: string, result: Result<seq<string>, EmailError>, rest: string) {
    function After(text: string): Sent {
      this.(output := text + output)
    }
  }

  function Play(steps: seq<Step>, replies: string, lines: seq<string>): Sent {
    if steps == [] then Sent("", Ok(lines), replies)
    else
      match ReadReplyFrom(replies, [])
      case ReplyError(error) => Sent(steps[0].text, Err(error), replies)
      case Reply(code, lines', rest) =>
        if code != steps[0].expected then Sent(steps[0].text, Err(Rejected(code, steps[0].phase)), rest)
        else Play(steps[1..], rest, lines').After(steps[0].text)
  }

  datatype TlsMode = NoTls | StartTls

  datatype Sender = Sender(fromEmail: string, ehloName: string, tlsMode: TlsMode, hasCredentials: bool)

  datatype Message = Message(to: string, subject: string, body: string, date: string, uuid: string)

  const QUIT_LINE := "QUIT" + CRLF

  function Opening(s: Sender): seq<Step> {
    [Step("", 220, "greeting"), Step("EHLO " + s.ehloName + CRLF, 250, "EHLO")]
  }

  function MessageText(s: Sender, m: Message): string {
    Written(MessageLines(s.fromEmail, m.to, m.subject, m.body, m.date, m.uuid))
  }

  function Terminated(text: string): string {
    if |text| >= 2 && text[|text| - 2..] == CRLF then text else text + CRLF
  }

  function Transaction(s: Sender, to: string, message: string): seq<Step> {
    [Step("MAIL FROM:<" + s.fromEmail + ">" + CRLF, 250, "MAIL FROM"),
     Step("RCPT TO:<" + to + ">" + CRLF, 250, "RCPT TO"),
     Step("DATA" + CRLF, 354, "DATA"),
     Step(Terminated(message) + "." + CRLF, 250, "message")]
  }

  predicate FirstWordIs(text: string, token: string) {
    var t := TrimStart(text);
    t != "" && EqIgnoreAsciiCase(t[..FirstSpace(t)], token)
  }

  /** Whether a line of the EHLO reply names the extension; the text of a line
      starts after its first four bytes. */
  function EhloSupports(caps: seq<string>, token: string): Parsed<bool> {
    if caps == [] then Value(false)
    else if Utf8Len(caps[0]) <= 4 then EhloSupports(caps[1..], token)
    else
      var mark := BytePrefix(caps[0], 4);
      if mark.None? then Panic
      else if FirstWordIs(caps[0][|mark.value|..], token) then Value(true)
      else EhloSupports(caps[1..], token)
  }

  /** How `send_email` ends; once STARTTLS has been granted, the rest of the session
      is not part of this model. */
  datatype Outcome = Delivered | Failed(error: EmailError) | OverTls

  datatype Sending = Sending(output: string, outcome: Outcome)

  /** The last command is sent after success, and its reply does not matter. */
  function ThenQuit(p: Sent): Sending {
    if p.result.Ok? then Sending(p.output + QUIT_LINE, Delivered) else Sending(p.output, Failed(p.result.error))
  }

  const STARTTLS_STEP := Step("STARTTLS" + CRLF, 220, "STARTTLS")

  /** STARTTLS is sent where the reply to EHLO names it. */
  function AskForTls(opening: Sent): Sending {
    if opening.result.Err? then Sending(opening.output, Failed(opening.result.error))
    else match EhloSupports(opening.result.value, "STARTTLS")
      case Panic => Sending(opening.output, Failed(Panicked))
      case Value(false) => Sending(opening.output, Failed(StartTlsUnsupported))
      case Value(true) =>
        var asked := Play([STARTTLS_STEP], opening.rest, opening.result.value);
        Sending(opening.output + asked.output, if asked.result.Ok? then OverTls else Failed(asked.result.error))
  }

  /** Everything the sender does, given all the replies it will ever receive. */
  function Send(s: Sender, m: Message, replies: string): Sending {
    if s.hasCredentials && s.tlsMode == NoTls then Sending("", Failed(AuthRequiresTls))
    else if s.tlsMode == StartTls then AskForTls(Play(Opening(s), replies, []))
    else ThenQuit(Play(Opening(s) + Transaction(s, m.to, MessageText(s, m)), replies, []))
  }

  /** Sends the text of a step and checks the reply; `rest` is what is left to do. */
  method Command(socket: Socket, step: Step, ghost rest: seq<Step>, ghost before: seq<string>)
    returns (r: Result<seq<string>, EmailError>)
    modifies socket
    ensures socket.outgoing == old(socket.outgoing) + step.text
    ensures var p := Play([step] + rest, old(socket.incoming), before);
      if r.Err? then p.output == step.text && p.result == r
      else p == Play(rest, socket.incoming, r.value).After(step.text)
  {
    ghost var steps := [step] + rest;
    assert steps[0] == step && steps[1..] == rest;
    socket.WriteAll(step.text);
    var reply := ReadReply(socket);
    if reply.Err? {
      return Err(reply.error);
    }
    if reply.value.0 != step.expected {
      return Err(Rejected(reply.value.0, step.phase));
    }
    r := Ok(reply.value.1);
  }

  lemma AfterNothing(p: Sent)
    ensures p.After("") == p
  {
    assert "" + p.output == p.output;
  }

  lemma AfterTwice(p: Sent, text: string, before: string)
    ensures p.After(text).After(before) == p.After(before + text)
  {
    ConcatAssociates(before, text, p.output);
  }

  /** Two steps, the second only after the reply to the first. */
  method TwoSteps(socket: Socket, a: Step, b: Step, ghost rest: seq<Step>, ghost before: seq<string>)
    returns (r: Result<seq<string>, EmailError>, ghost text: string)
    modifies socket
    ensures socket.outgoing == old(socket.outgoing) + text
    ensures var p := Play([a] + ([b] + rest), old(socket.incoming), before);
      if r.Err? then p.output == text && p.result == r else p == Play(rest, socket.incoming, r.value).After(text)
  {
    ghost var start := socket.outgoing;
    r := Command(socket, a, [b] + rest, before);
    text := a.text;
    if r.Ok? {
      r := Command(socket, b, rest, r.value);
      ConcatAssociates(start, a.text, b.text);
      text := a.text + b.text;
      if r.Ok? {
        AfterTwice(Play(rest, socket.incoming, r.value), b.text, a.text);
      }
    }
  }

  lemma TwoFirst(opening: seq<Step>, rest: seq<Step>)
    requires |opening| == 2
    ensures opening + rest == [opening[0]] + ([opening[1]] + rest)
  {
    assert opening == [opening[0], opening[1]];
  }

  /** MAIL and RCPT, then DATA and the message. */
  method FourSteps(socket: Socket, steps: seq<Step>, ghost before: seq<string>)
    returns (r: Result<seq<string>, EmailError>, ghost text: string)
    requires |steps| == 4
    modifies socket
    ensures socket.outgoing == old(socket.outgoing) + text
    ensures var p := Play(steps, old(socket.incoming), before); p.output == text && p.result == r
  {
    ghost var start := socket.outgoing;
    TwoFirst(steps[..2], steps[2..]);
    assert steps[..2] + steps[2..] == steps;
    r, text := TwoSteps(socket, steps[0], steps[1], steps[2..], before);
    if r.Ok? {
      ghost var more;
      TwoFirst(steps[2..], []);
      assert steps[2..] + [] == steps[2..];
      r, more := TwoSteps(socket, steps[2], steps[3], [], r.value);
      assert more + "" == more;
      ConcatAssociates(start, text, more);
      text := text + more;
    }
  }

  method SendEmail(socket: Socket, s: Sender, m: Message) returns (outcome: Outcome)
    modifies socket
    ensures socket.outgoing == old(socket.outgoing) + Send(s, m, old(socket.incoming)).output
    ensures outcome == Send(s, m, old(socket.incoming)).outcome
  {
    if s.hasCredentials && s.tlsMode == NoTls {
      return Failed(AuthRequiresTls);
    }
    var message := BuildMessage(s.fromEmail, m.to, m.subject, m.body, m.date, m.uuid);
    var opening := Opening(s);
    if s.tlsMode == StartTls {
      outcome := SendOverTls(socket, opening);
    } else {
      outcome := SendPlain(socket, opening, Transaction(s, m.to, message));
    }
  }

  method SendOverTls(socket: Socket, opening: seq<Step>) returns (outcome: Outcome)
    requires |opening| == 2
    modifies socket
    ensures var sending := AskForTls(Play(opening, old(socket.incoming), []));
      socket.outgoing == old(socket.outgoing) + sending.output && outcome == sending.outcome
  {
    ghost var text;
    var r;
    TwoFirst(opening, []);
    assert opening + [] == opening;
    r, text := TwoSteps(socket, opening[0], opening[1], [], []);
    if r.Err? {
      return Failed(r.error);
    }
    assert text + "" == text;
    match EhloSupports(r.value, "STARTTLS") {
      case Panic => outcome := Failed(Panicked);
      case Value(false) => outcome := Failed(StartTlsUnsupported);
      case Value(true) => outcome := StartTlsAsked(socket, r.value);
    }
  }

  method StartTlsAsked(socket: Socket, caps: seq<string>) returns (outcome: Outcome)
    modifies socket
    ensures var asked := Play([STARTTLS_STEP], old(socket.incoming), caps);
      socket.outgoing == old(socket.outgoing) + asked.output
      && outcome == if asked.result.Ok? then OverTls else Failed(asked.result.error)
  {
    assert [STARTTLS_STEP] + [] == [STARTTLS_STEP];
    var r := Command(socket, STARTTLS_STEP, [], caps);
    assert STARTTLS_STEP.text + "" == STARTTLS_STEP.text;
    outcome := if r.Ok? then OverTls else Failed(r.error);
  }

  method SendPlain(socket: Socket, opening: seq<Step>, transaction: seq<Step>)
    returns (outcome: Outcome)
    requires |opening| == 2 && |transaction| == 4
    modifies socket
    ensures var sending := ThenQuit(Play(opening + transaction, old(socket.incoming), []));
      socket.outgoing == old(socket.outgoing) + sending.output && outcome == sending.outcome
  {
    ghost var text, more;
    ghost var start := socket.outgoing;
    var r;
    TwoFirst(opening, transaction);
    r, text := TwoSteps(socket, opening[0], opening[1], transaction, []);
    if r.Err? {
      return Failed(r.error);
    }
    r, more := FourSteps(socket, transaction, r.value);
    ConcatAssociates(start, text, more);
    if r.Err? {
      return Failed(r.error);
    }
    socket.WriteAll(QUIT_LINE);
    ConcatAssociates(start, text + more, QUIT_LINE);
    var ignored := ReadReply(socket);
    outcome := Delivered;
  }
}
