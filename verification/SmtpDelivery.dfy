/** End to end: a plaintext, credential-free `send_email` against the catcher. */
module SmtpDelivery {
  import opened Prelude
  import opened Text
  import opened Wire
  import opened SmtpParsing
  import opened SmtpServer
  import opened SmtpDialogue
  import opened SmtpExchange
  import opened DataTransparency
  import opened MessageParsing
  import C = SmtpClient

  function MailLines(s: C.Sender, m: C.Message): seq<string> {
    C.MessageLines(s.fromEmail, m.to, m.subject, m.body, m.date, m.uuid)
  }

  /** Names and addresses without line ends, and command lines within the catcher's
      limit. The subject and the body are arbitrary. */
  ghost predicate Addressed(hostname: string, s: C.Sender, m: C.Message) {
    && s.tlsMode == C.NoTls && !s.hasCredentials
    && EolFree(hostname) && EolFree(s.fromEmail) && EolFree(m.date) && EolFree(m.uuid)
    && FitsLine(EhloLine(s.ehloName)) && FitsLine(MailLine(s.fromEmail)) && FitsLine(RcptLine(m.to))
  }

  /** The message is within the catcher's limit. */
  predicate Fits(s: C.Sender, m: C.Message) {
    Utf8Len(Received(MailLines(s, m))) <= MAX_MESSAGE_BYTES
  }

  /** What arrives: trimmed header values without line ends, and the body's lines. */
  function Expected(s: C.Sender, m: C.Message): Email {
    Email(Trim(C.HeaderSafe(s.fromEmail)), Trim(C.HeaderSafe(m.to)), Trim(C.HeaderSafe(m.subject)),
          Normalized(C.SplitLines(m.body)))
  }

  // The message is carried and parsed back.

  lemma {:induction false} HeaderSafeIsSafe(value: string)
    ensures EolFree(C.HeaderSafe(value))
  {
    if value == "" {
    } else {
      HeaderSafeIsSafe(value[..|value| - 1]);
    }
  }

  lemma {:induction false} AfterLastAtIsPart(s: string)
    requires EolFree(s)
    ensures C.AfterLastAt(s).Some? ==> EolFree(C.AfterLastAt(s).value)
  {
    if s == "" {
    } else {
      AfterLastAtIsPart(s[1..]);
    }
  }

  lemma Labelled(prefix: string, value: string)
    requires HeaderLine(prefix) && EolFree(value)
    ensures HeaderLine(prefix + value)
  {
  }

  lemma FixedTexts()
    ensures HeaderLine("From: ") && HeaderLine("To: ") && HeaderLine("Subject: ")
    ensures HeaderLine("Date: ") && HeaderLine("Message-ID: <")
  {
  }

  lemma FixedHeaders()
    ensures HeaderLine("MIME-Version: 1.0")
    ensures HeaderLine("Content-Type: text/plain; charset=utf-8")
  {
  }

  lemma MessageIdIsWellFormed(prefix: string, domain: string, uuid: string)
    requires HeaderLine(prefix) && EolFree(domain) && EolFree(uuid)
    ensures HeaderLine(prefix + uuid + "@" + domain + ">")
  {
    Labelled(prefix, uuid);
    Labelled(prefix + uuid, "@");
    Labelled(prefix + uuid + "@", domain);
    Labelled(prefix + uuid + "@" + domain, ">");
  }

  lemma SevenHeaders(a: string, b: string, c: string, d: string, e: string, f: string, g: string)
    requires HeaderLine(a) && HeaderLine(b) && HeaderLine(c) && HeaderLine(d)
    requires HeaderLine(e) && HeaderLine(f) && HeaderLine(g)
    ensures HeaderBlock([a, b, c, d, e, f, g])
  {
  }

  lemma HeadersAreWellFormed(from: string, to: string, subject: string, date: string, uuid: string)
    requires EolFree(from) && EolFree(date) && EolFree(uuid)
    ensures HeaderBlock(C.HeaderLines(from, to, subject, date, uuid))
  {
    FixedTexts();
    FixedHeaders();
    HeaderSafeIsSafe(from);
    HeaderSafeIsSafe(to);
    HeaderSafeIsSafe(subject);
    AfterLastAtIsPart(from);
    Labelled("From: ", C.HeaderSafe(from));
    Labelled("To: ", C.HeaderSafe(to));
    Labelled("Subject: ", C.HeaderSafe(subject));
    Labelled("Date: ", date);
    assert EolFree(C.Domain(from));
    MessageIdIsWellFormed("Message-ID: <", C.Domain(from), uuid);
    SevenHeaders("From: " + C.HeaderSafe(from), "To: " + C.HeaderSafe(to), "Subject: " + C.HeaderSafe(subject),
                 "Date: " + date, "Message-ID: <" + uuid + "@" + C.Domain(from) + ">",
                 "MIME-Version: 1.0", "Content-Type: text/plain; charset=utf-8");
  }

  lemma {:induction false} ReceivedAppend(a: seq<string>, b: seq<string>)
    ensures Received(a + b) == Received(a) + Received(b)
  {
    if a == [] {
      assert a + b == b;
    } else {
      ReceivedAppend(a[1..], b);
      var lines := a + b;
      assert lines[0] == a[0] && lines[1..] == a[1..] + b;
      ConcatAssociates(Unstuffed(TrimEol(a[0])) + "\n", Received(a[1..]), Received(b));
    }
  }

  lemma {:induction false} HeadersArrive(headers: seq<string>)
    requires HeaderBlock(headers)
    ensures Carriable(headers) && Received(headers) == Block(headers)
  {
    if headers == [] {
    } else {
      TrimEolFree(headers[0]);
      HeadersArrive(headers[1..]);
      forall i | 0 <= i < |headers|
        ensures NewlineFree(headers[i]) && TrimEol(headers[i]) != "."
      {
        TrimEolFree(headers[i]);
      }
    }
  }

  lemma BlankLineArrives()
    ensures Carriable([""]) && Received([""]) == "\n"
  {
    assert [""][1..] == [];
  }

  lemma CarriableAppend(a: seq<string>, b: seq<string>)
    requires Carriable(a) && Carriable(b)
    ensures Carriable(a + b)
  {
  }

  lemma MessageArrives(headers: seq<string>, body: string)
    requires HeaderBlock(headers)
    ensures Carriable(headers + [""] + C.StuffedLines(C.SplitLines(body)))
    ensures Received(headers + [""] + C.StuffedLines(C.SplitLines(body)))
         == Block(headers) + ("\n" + Normalized(C.SplitLines(body)))
  {
    var stuffed := C.StuffedLines(C.SplitLines(body));
    assert Carriable(stuffed) && Received(stuffed) == Normalized(C.SplitLines(body)) by {
      SplitLinesIsFaithful(body);
      StuffedLinesArrive(C.SplitLines(body));
    }
    HeadersArrive(headers);
    BlankLineArrives();
    ThreePartsArrive(headers, [""], stuffed);
  }

  lemma ThreePartsArrive(a: seq<string>, b: seq<string>, c: seq<string>)
    requires Carriable(a) && Carriable(b) && Carriable(c)
    ensures Carriable(a + b + c) && Received(a + b + c) == Received(a) + (Received(b) + Received(c))
  {
    CarriableAppend(a, b);
    CarriableAppend(a + b, c);
    ReceivedAppend(a, b);
    ReceivedAppend(a + b, c);
    ConcatAssociates(Received(a), Received(b), Received(c));
  }

  lemma HeaderSplits(headers: seq<string>, body: string)
    requires headers != [] && HeaderBlock(headers)
    ensures SplitHeader(Block(headers) + ("\n" + Normalized(C.SplitLines(body))))
         == (Join(headers, "\n"), Normalized(C.SplitLines(body)))
  {
    var text := Normalized(C.SplitLines(body));
    SplitLinesIsFaithful(body);
    NormalizedNoCrLf(C.SplitLines(body));
    BlockNoCrLf(headers);
    NoCrLfJoin("\n", text);
    NoCrLfJoin(Block(headers), "\n" + text);
    NoCrLfNoSplit(Block(headers) + ("\n" + text));
    SplitAfterBlock(headers, text);
  }

  lemma HeadersAreFound(from: string, to: string, subject: string, date: string, uuid: string)
    ensures var headers := C.HeaderLines(from, to, subject, date, uuid);
      && HeaderIn(headers, "From") == Some(Trim(C.HeaderSafe(from)))
      && HeaderIn(headers, "To") == Some(Trim(C.HeaderSafe(to)))
      && HeaderIn(headers, "Subject") == Some(Trim(C.HeaderSafe(subject)))
  {
    var headers := C.HeaderLines(from, to, subject, date, uuid);
    StandardNames();
    FirstThreeFound("From", C.HeaderSafe(from), "To", C.HeaderSafe(to), "Subject", C.HeaderSafe(subject), headers);
  }

  /** The catcher's parser recovers sender, recipient, subject and body, whatever
      the envelope says. */
  lemma ParsesBack(s: C.Sender, m: C.Message, envelopeFrom: string, rcpts: seq<string>)
    requires EolFree(s.fromEmail) && EolFree(m.date) && EolFree(m.uuid)
    ensures Carriable(MailLines(s, m))
    ensures ParseEmail(envelopeFrom, rcpts, Received(MailLines(s, m))) == Expected(s, m)
  {
    var headers := C.HeaderLines(s.fromEmail, m.to, m.subject, m.date, m.uuid);
    HeadersAreWellFormed(s.fromEmail, m.to, m.subject, m.date, m.uuid);
    MessageArrives(headers, m.body);
    HeaderSplits(headers, m.body);
    LinesOfJoined(headers);
    HeadersAreFound(s.fromEmail, m.to, m.subject, m.date, m.uuid);
  }

  // The five stages.

  function EhloReply(hostname: string): seq<string> {
    ["250" + "-" + hostname, "250" + "-" + SIZE, "250" + " " + UTF8]
  }

  lemma EhloStage(hostname: string, st: Session, s: C.Sender) returns (reply: string, lines: seq<string>)
    requires EolFree(hostname) && FitsLine(EhloLine(s.ehloName))
    ensures lines == EhloReply(hostname)
    ensures Stage(Catcher(hostname), false, st, C.Opening(s)[1], reply, lines, false, st)
  {
    var d := Catcher(hostname);
    reply, lines := Response(hostname, Ehlo), EhloReply(hostname);
    EhloIsUnderstood(s.ehloName);
    TrimEolFree(EhloLine(s.ehloName));
    forall later
      ensures Answers(d, false, st, C.Opening(s)[1].text, later, Response(hostname, Ehlo), false, st)
    {
      CommandAnswered(d, st, EhloLine(s.ehloName), later);
    }
    forall later
      ensures Understood(Response(hostname, Ehlo), later, 250, lines)
    {
      EhloUnderstood(hostname, later);
    }
  }

  lemma EhloUnderstood(hostname: string, later: string)
    requires EolFree(hostname)
    ensures Understood(Response(hostname, Ehlo), later, 250, EhloReply(hostname))
  {
    KnownCodes();
    var size, utf8 := SIZE, UTF8;
    ThreeLinesUnderstood("250", 250, hostname, size, utf8, later);
  }

  lemma ThreeLinesUnderstood(digits: string, code: nat, a: string, b: string, c: string, later: string)
    requires ReplyCode(digits, code) && EolFree(digits) && EolFree(a) && EolFree(b) && EolFree(c)
    ensures Understood(OngoingLine(digits, a) + OngoingLine(digits, b) + ClosingLine(digits, c), later, code,
                       [digits + "-" + a, digits + "-" + b, digits + " " + c])
  {
    var first, second, third := digits + "-" + a, digits + "-" + b, digits + " " + c;
    var end := third + CRLF + later;
    var middle := second + CRLF + end;
    assert OngoingLine(digits, a) + OngoingLine(digits, b) + ClosingLine(digits, c) + later == first + CRLF + middle;
    ReplyLine(digits, code, "-", a, middle, []);
    ReplyLine(digits, code, "-", b, end, [first]);
    ReplyLine(digits, code, " ", c, later, [first, second]);
    assert [] + [first] == [first] && [first] + [second] == [first, second];
    assert [first, second] + [third] == [first, second, third];
  }

  lemma MailAnswer(hostname: string, from: string)
    ensures EolFree("2.1.0 OK")
    ensures var cmd := Interpret(MailLine(from));
      cmd.Mail? && cmd.sender.Some? && Response(hostname, cmd) == ClosingLine("250", "2.1.0 OK")
  {
    MailIsUnderstood(from);
  }

  lemma RcptAnswer(hostname: string, to: string)
    ensures EolFree("2.1.5 OK")
    ensures var cmd := Interpret(RcptLine(to));
      cmd.Rcpt? && cmd.recipient.Some? && Response(hostname, cmd) == ClosingLine("250", "2.1.5 OK")
  {
    RcptIsUnderstood(to);
  }

  lemma MailStage(hostname: string, st: Session, from: string, step: C.Step)
    returns (reply: string, lines: seq<string>, after: Session)
    requires FitsLine(MailLine(from)) && step.text == MailLine(from) + CRLF && step.expected == 250
    ensures Stage(Catcher(hostname), false, st, step, reply, lines, false, after)
    ensures after.mailFrom.Some? && after.mailbox == st.mailbox
  {
    after := Effect(st, Interpret(MailLine(from)));
    MailAnswer(hostname, from);
    var text := "2.1.0 OK";
    reply := ClosingLine("250", text);
    lines := OkStage(Catcher(hostname), st, MailLine(from), Interpret(MailLine(from)), text, step);
  }

  lemma RcptStage(hostname: string, st: Session, to: string, step: C.Step)
    returns (reply: string, lines: seq<string>, after: Session)
    requires FitsLine(RcptLine(to)) && step.text == RcptLine(to) + CRLF && step.expected == 250
    ensures Stage(Catcher(hostname), false, st, step, reply, lines, false, after)
    ensures after.mailFrom == st.mailFrom && after.rcpts != [] && after.mailbox == st.mailbox
  {
    after := Effect(st, Interpret(RcptLine(to)));
    RcptAnswer(hostname, to);
    var text := "2.1.5 OK";
    reply := ClosingLine("250", text);
    lines := OkStage(Catcher(hostname), st, RcptLine(to), Interpret(RcptLine(to)), text, step);
  }

  lemma OkStage(d: Dialect, st: Session, line: string, cmd: Command, text: string, step: C.Step)
    returns (lines: seq<string>)
    requires FitsLine(line) && EolFree(text) && step.text == line + CRLF && step.expected == 250
    requires d.parse(line) == cmd && (cmd.Mail? || cmd.Rcpt?) && d.respond(cmd) == ClosingLine("250", text)
    ensures Stage(d, false, st, step, ClosingLine("250", text), lines, false, Effect(st, cmd))
  {
    lines := ["250" + " " + text];
    KnownCodes();
    forall later
      ensures Answers(d, false, st, step.text, later, ClosingLine("250", text), false, Effect(st, cmd))
      ensures Understood(ClosingLine("250", text), later, 250, lines)
    {
      CommandAnswered(d, st, line, later);
      OneLineUnderstood("250", 250, text, later);
    }
  }

  lemma StartDataStage(d: Dialect, st: Session, line: string, digits: string, code: nat, text: string, step: C.Step)
    requires ReadyForData(st) && FitsLine(line) && d.parse(line).DataCommand?
    requires ReplyCode(digits, code) && EolFree(digits) && EolFree(text) && d.startData == ClosingLine(digits, text)
    requires step.text == line + CRLF && step.expected == code
    ensures Stage(d, false, st, step, d.startData, [digits + " " + text], true, st)
  {
    forall later
      ensures Answers(d, false, st, step.text, later, d.startData, true, st)
      ensures Understood(d.startData, later, code, [digits + " " + text])
    {
      DataAnswered(d, st, line, later);
      OneLineUnderstood(digits, code, text, later);
    }
  }

  lemma StartDataText()
    ensures EolFree(START_DATA_TEXT) && EolFree("354")
  {
  }

  lemma DataStage(hostname: string, st: Session, step: C.Step) returns (reply: string, lines: seq<string>)
    requires ReadyForData(st) && step.text == "DATA" + CRLF && step.expected == 354
    ensures Stage(Catcher(hostname), false, st, step, reply, lines, true, st)
  {
    KnownCodes();
    DataIsUnderstood();
    DataFits();
    StartDataText();
    var text := START_DATA_TEXT;
    StartDataStage(Catcher(hostname), st, "DATA", "354", 354, text, step);
    reply, lines := ClosingLine("354", text), ["354" + " " + text];
  }

  lemma DataFits()
    ensures FitsLine("DATA") && FitsLine("QUIT")
  {
    AsciiBytes("DATA" + CRLF, "");
    AsciiBytes("QUIT" + CRLF, "");
  }

  ghost predicate Carries(text: string, raw: string, later: string) {
    ReadDataFrom(text + later, "") == Data(raw, later)
  }

  lemma QueuedStage(d: Dialect, st: Session, raw: string, digits: string, code: nat, text: string, step: C.Step)
    requires forall later :: Carries(step.text, raw, later)
    requires ReplyCode(digits, code) && EolFree(digits) && EolFree(text) && d.queued == ClosingLine(digits, text)
    requires step.expected == code
    ensures Stage(d, true, st, step, d.queued, [digits + " " + text], false, Deliver(d, st, raw))
  {
    forall later
      ensures Answers(d, true, st, step.text, later, d.queued, false, Deliver(d, st, raw))
      ensures Understood(d.queued, later, code, [digits + " " + text])
    {
      assert Carries(step.text, raw, later);
      MessageAnswered(d, st, step.text, raw, later);
      OneLineUnderstood(digits, code, text, later);
    }
  }

  lemma QueuedText()
    ensures EolFree(QUEUED_TEXT) && EolFree("250")
  {
  }

  lemma MessageStage(hostname: string, st: Session, s: C.Sender, m: C.Message, step: C.Step)
    returns (reply: string, lines: seq<string>)
    requires EolFree(s.fromEmail) && EolFree(m.date) && EolFree(m.uuid) && Fits(s, m)
    requires step.text == C.Terminated(C.MessageText(s, m)) + "." + CRLF && step.expected == 250
    ensures Stage(Catcher(hostname), true, st, step, reply, lines, false,
                  Session(None, [], st.mailbox + [Expected(s, m)]))
  {
    var raw := Received(MailLines(s, m));
    KnownCodes();
    QueuedText();
    forall later
      ensures Carries(step.text, raw, later)
    {
      MessageIsRead(s, m, step.text, later);
    }
    ParsesBack(s, m, st.mailFrom.GetOr(""), st.rcpts);
    var text := QUEUED_TEXT;
    QueuedStage(Catcher(hostname), st, raw, "250", 250, text, step);
    reply, lines := ClosingLine("250", text), ["250" + " " + text];
  }

  lemma WrittenIsTerminated(lines: seq<string>)
    requires lines != []
    ensures C.Terminated(C.Written(lines)) == C.Written(lines)
  {
    var w := C.Written(lines);
    assert w[|w| - 2..] == CRLF;
  }

  lemma MessageIsRead(s: C.Sender, m: C.Message, text: string, later: string)
    requires EolFree(s.fromEmail) && EolFree(m.date) && EolFree(m.uuid)
    requires text == C.Terminated(C.MessageText(s, m)) + "." + CRLF
    ensures ReadDataFrom(text + later, "")
         == if Fits(s, m) then Data(Received(MailLines(s, m)), later) else DataError(MessageTooLarge)
  {
    var lines := MailLines(s, m);
    ParsesBack(s, m, "", []);
    WrittenIsTerminated(lines);
    ConcatAssociates(C.Written(lines), ".", CRLF);
    ConcatAssociates(C.Written(lines), END, later);
    assert "" + Received(lines) == Received(lines);
    ReadWritten(lines, later, "");
  }

  // The chain of stages, for any replies.

  datatype Leg = Leg(receiving: bool, st: Session, reply: string, lines: seq<string>)

  ghost predicate Leads(d: Dialect, step: C.Step, leg: Leg, receiving: bool, st: Session) {
    Stage(d, leg.receiving, leg.st, step, leg.reply, leg.lines, receiving, st)
  }

  /** Leg `i` is answered as it says and leads to leg `i + 1`. */
  ghost predicate Route(d: Dialect, steps: seq<C.Step>, legs: seq<Leg>) {
    |legs| == |steps| + 1
    && forall i :: 0 <= i < |steps| ==>
         Leads(d, steps[i], legs[i], legs[i + 1].receiving, legs[i + 1].st)
  }

  /** A session whose last leg is over says goodbye and ends. */
  ghost predicate Farewell(d: Dialect, leg: Leg) {
    !leg.receiving
    && var end := Serve(d, false, C.QUIT_LINE, leg.st);
       end.output == leg.reply && end.mailbox == leg.st.mailbox && end.ending == Finished
  }

  /** Linked streams for steps that a route leads through, and more, come out of it
      linked for what is left. */
  lemma {:induction false} RouteReaches(
      d: Dialect, first: seq<C.Step>, more: seq<C.Step>, legs: seq<Leg>, lines: seq<string>, c: string, s: string)
    returns (lines': seq<string>, c': string, s': string)
    requires Route(d, first, legs)
    requires Linked(d, legs[0].receiving, legs[0].st, first + more, lines, c, s)
    ensures var last := legs[|first|];
      && Linked(d, last.receiving, last.st, more, lines', c', s')
      && C.ThenQuit(C.Play(first + more, s, lines)).outcome == C.ThenQuit(C.Play(more, s', lines')).outcome
      && Serve(d, legs[0].receiving, c, legs[0].st).mailbox == Serve(d, last.receiving, c', last.st).mailbox
      && Serve(d, legs[0].receiving, c, legs[0].st).ending == Serve(d, last.receiving, c', last.st).ending
  {
    if first == [] {
      assert first + more == more;
      lines', c', s' := lines, c, s;
    } else {
      assert (first + more)[0] == first[0] && (first + more)[1..] == first[1..] + more;
      var c1, s1 := Advance(d, legs[0].receiving, legs[0].st, first + more, lines, c, s,
                            legs[0].reply, legs[0].lines, legs[1].receiving, legs[1].st);
      lines', c', s' := RouteReaches(d, first[1..], more, legs[1..], legs[0].lines, c1, s1);
    }
  }

  /** What the sender holds after the last of these steps. */
  function LastLines(legs: seq<Leg>, lines: seq<string>): seq<string> {
    if |legs| <= 1 then lines else legs[|legs| - 2].lines
  }

  /** The other way round: linked streams for the rest extend to the whole. */
  lemma {:induction false} RouteBuilt(
      d: Dialect, first: seq<C.Step>, more: seq<C.Step>, legs: seq<Leg>, lines: seq<string>, c': string, s': string)
    returns (c: string, s: string)
    requires Route(d, first, legs)
    requires Linked(d, legs[|first|].receiving, legs[|first|].st, more, LastLines(legs, lines), c', s')
    ensures Linked(d, legs[0].receiving, legs[0].st, first + more, lines, c, s)
  {
    if first == [] {
      assert first + more == more;
      c, s := c', s';
    } else {
      assert (first + more)[0] == first[0] && (first + more)[1..] == first[1..] + more;
      assert LastLines(legs[1..], legs[0].lines) == LastLines(legs, lines);
      var c1, s1 := RouteBuilt(d, first[1..], more, legs[1..], legs[0].lines, c', s');
      Retreat(d, legs[0].receiving, legs[0].st, first + more, lines, legs[0].reply, legs[0].lines,
              legs[1].receiving, legs[1].st, c1, s1);
      c, s := first[0].text + c1, legs[0].reply + s1;
    }
  }

  /** The end of a session: QUIT is answered, and nothing follows. */
  lemma FarewellFollows(d: Dialect, leg: Leg, lines: seq<string>, c: string, s: string)
    requires Farewell(d, leg)
    ensures Linked(d, leg.receiving, leg.st, [], lines, C.QUIT_LINE, leg.reply)
    ensures C.ThenQuit(C.Play([], s, lines)).outcome == C.Delivered
    ensures Linked(d, leg.receiving, leg.st, [], lines, c, s) ==>
      var served := Serve(d, leg.receiving, c, leg.st);
      served.mailbox == leg.st.mailbox && served.ending == Finished
  {
    assert "" + C.QUIT_LINE == C.QUIT_LINE;
  }

  // The route of a delivery.

  function Steps(s: C.Sender, m: C.Message): seq<C.Step> {
    C.Opening(s) + C.Transaction(s, m.to, C.MessageText(s, m))
  }

  lemma StepTexts(s: C.Sender, m: C.Message)
    ensures var steps := Steps(s, m)[1..];
      && |steps| == 5 && steps[0] == C.Opening(s)[1]
      && steps[1].text == MailLine(s.fromEmail) + CRLF && steps[1].expected == 250
      && steps[2].text == RcptLine(m.to) + CRLF && steps[2].expected == 250
      && steps[3].text == "DATA" + CRLF && steps[3].expected == 354
      && steps[4].text == C.Terminated(C.MessageText(s, m)) + "." + CRLF && steps[4].expected == 250
    ensures Steps(s, m)[0] == C.Step("", 220, "greeting")
  {
  }

  lemma GoodbyeIsSaid(hostname: string, st: Session) returns (reply: string)
    ensures Farewell(Catcher(hostname), Leg(false, st, reply, []))
  {
    reply := Response(hostname, Quit);
    QuitIsUnderstood();
    DataFits();
    ReadWrittenLine("QUIT", "");
    assert "QUIT" + CRLF + "" == C.QUIT_LINE;
  }

  lemma EnvelopeLegs(hostname: string, s: C.Sender, m: C.Message, st: Session) returns (legs: seq<Leg>, after: Session)
    requires Addressed(hostname, s, m)
    ensures var d, steps := Catcher(hostname), Steps(s, m)[1..];
      && |legs| == 3 && !legs[0].receiving && legs[0].st == st
      && Leads(d, steps[0], legs[0], legs[1].receiving, legs[1].st)
      && Leads(d, steps[1], legs[1], legs[2].receiving, legs[2].st)
      && Leads(d, steps[2], legs[2], false, after)
    ensures ReadyForData(after) && after.mailbox == st.mailbox
  {
    var steps := Steps(s, m)[1..];
    StepTexts(s, m);
    var r0, l0 := EhloStage(hostname, st, s);
    var r1, l1, st1 := MailStage(hostname, st, s.fromEmail, steps[1]);
    var r2, l2, st2 := RcptStage(hostname, st1, m.to, steps[2]);
    legs, after := [Leg(false, st, r0, l0), Leg(false, st, r1, l1), Leg(false, st1, r2, l2)], st2;
  }

  lemma FourLegs(d: Dialect, steps: seq<C.Step>, a: seq<Leg>, b: Leg, after: Leg)
    requires |steps| == 4 && |a| == 3
    requires Leads(d, steps[0], a[0], a[1].receiving, a[1].st) && Leads(d, steps[1], a[1], a[2].receiving, a[2].st)
    requires Leads(d, steps[2], a[2], b.receiving, b.st) && Leads(d, steps[3], b, after.receiving, after.st)
    ensures Route(d, steps, a + [b, after])
  {
  }

  /** From EHLO to the reply to DATA, whatever the message. */
  lemma ReceivingRoute(hostname: string, s: C.Sender, m: C.Message, mailbox: seq<Email>) returns (legs: seq<Leg>)
    requires Addressed(hostname, s, m)
    ensures Route(Catcher(hostname), Steps(s, m)[1..][..4], legs)
    ensures !legs[0].receiving && legs[0].st == Session(None, [], mailbox)
    ensures legs[4].receiving && ReadyForData(legs[4].st) && legs[4].st.mailbox == mailbox
  {
    var steps := Steps(s, m)[1..];
    StepTexts(s, m);
    var a, st := EnvelopeLegs(hostname, s, m, Session(None, [], mailbox));
    var r3, l3 := DataStage(hostname, st, steps[3]);
    var b, after := Leg(false, st, r3, l3), Leg(true, st, "", []);
    FourLegs(Catcher(hostname), steps[..4], a, b, after);
    legs := a + [b, after];
  }

  ghost predicate IsMessage(s: C.Sender, m: C.Message, step: C.Step) {
    step.text == C.Terminated(C.MessageText(s, m)) + "." + CRLF && step.expected == 250
  }

  /** A message within the limit is kept and acknowledged. */
  lemma MessageLeg(hostname: string, s: C.Sender, m: C.Message, st: Session, step: C.Step) returns (leg: Leg, last: Leg)
    requires Addressed(hostname, s, m) && Fits(s, m) && IsMessage(s, m, step)
    ensures leg.receiving && leg.st == st && Route(Catcher(hostname), [step], [leg, last])
    ensures Farewell(Catcher(hostname), last) && last.st.mailbox == st.mailbox + [Expected(s, m)]
  {
    var end := Session(None, [], st.mailbox + [Expected(s, m)]);
    var r4, l4 := MessageStage(hostname, st, s, m, step);
    var r5 := GoodbyeIsSaid(hostname, end);
    leg, last := Leg(true, st, r4, l4), Leg(false, end, r5, []);
    assert Leads(Catcher(hostname), step, leg, false, end);
  }

  lemma MessageIsKept(
      hostname: string, s: C.Sender, m: C.Message, st: Session, step: C.Step, lines: seq<string>, c: string, r: string)
    requires Addressed(hostname, s, m) && Fits(s, m) && IsMessage(s, m, step)
    requires Linked(Catcher(hostname), true, st, [step], lines, c, r)
    ensures C.ThenQuit(C.Play([step], r, lines)).outcome == C.Delivered
    ensures var served := Serve(Catcher(hostname), true, c, st);
      served.mailbox == st.mailbox + [Expected(s, m)] && served.ending == Finished
  {
    var leg, last := MessageLeg(hostname, s, m, st, step);
    assert [step] + [] == [step];
    var lines', c', r' := RouteReaches(Catcher(hostname), [step], [], [leg, last], lines, c, r);
    FarewellFollows(Catcher(hostname), last, lines', c', r');
  }

  lemma KeptRunExists(hostname: string, s: C.Sender, m: C.Message, st: Session, step: C.Step, lines: seq<string>)
    returns (c: string, r: string)
    requires Addressed(hostname, s, m) && Fits(s, m) && IsMessage(s, m, step)
    ensures Linked(Catcher(hostname), true, st, [step], lines, c, r)
  {
    var leg, last := MessageLeg(hostname, s, m, st, step);
    FarewellFollows(Catcher(hostname), last, LastLines([leg, last], lines), "", "");
    assert [step] + [] == [step];
    c, r := RouteBuilt(Catcher(hostname), [step], [], [leg, last], lines, C.QUIT_LINE, last.reply);
  }

  ghost predicate Refused(text: string, later: string) {
    ReadDataFrom(text + later, "") == DataError(MessageTooLarge)
  }

  lemma TextIsRefused(d: Dialect, st: Session, step: C.Step, lines: seq<string>, c: string, r: string)
    requires forall later :: Refused(step.text, later)
    ensures Linked(d, true, st, [step], lines, step.text, "")
    ensures Linked(d, true, st, [step], lines, c, r) ==>
      && C.ThenQuit(C.Play([step], r, lines)).outcome == C.Failed(UnexpectedEof)
      && Serve(d, true, c, st) == Served("", [], st.mailbox, Failed(MessageTooLarge))
  {
    StepIsWrittenFirst([step], r, lines);
    if Linked(d, true, st, [step], lines, c, r) {
      var later := c[|step.text|..];
      assert c == step.text + later && Refused(step.text, later);
    }
    assert step.text + "" == step.text && Refused(step.text, "");
  }

  /** One over the limit ends the catcher's session in silence, in which the sender
      still waits for the reply to it. */
  lemma MessageIsTooLarge(
      hostname: string, s: C.Sender, m: C.Message, st: Session, step: C.Step, lines: seq<string>, c: string, r: string)
    requires Addressed(hostname, s, m) && !Fits(s, m) && IsMessage(s, m, step)
    ensures Linked(Catcher(hostname), true, st, [step], lines, step.text, "")
    ensures Linked(Catcher(hostname), true, st, [step], lines, c, r) ==>
      && C.ThenQuit(C.Play([step], r, lines)).outcome == C.Failed(UnexpectedEof)
      && Serve(Catcher(hostname), true, c, st) == Served("", [], st.mailbox, Failed(MessageTooLarge))
  {
    forall later
      ensures Refused(step.text, later)
    {
      MessageIsRead(s, m, step.text, later);
    }
    TextIsRefused(Catcher(hostname), st, step, lines, c, r);
  }

  lemma GreetingIsUnderstood(hostname: string, later: string) returns (lines: seq<string>)
    requires EolFree(hostname)
    ensures Understood(Greeting(hostname), later, 220, lines)
  {
    var text := hostname + " ESMTP cctf-rs catcher";
    KnownCodes();
    lines := ["220" + " " + text];
    OneLineUnderstood("220", 220, text, later);
  }

  /** The two streams of a complete run: each is what one side writes on reading the other. */
  ghost predicate CompleteRun(
      hostname: string, s: C.Sender, m: C.Message, mailbox: seq<Email>, toCatcher: string, toSender: string)
  {
    && toCatcher == C.Send(s, m, toSender).output
    && toSender == Connection(hostname, toCatcher, mailbox).output
  }

  /** After the greeting the sender does as if the dialogue began with EHLO. */
  lemma SentAfterGreeting(s: C.Sender, m: C.Message, greeting: string, later: string, lines: seq<string>)
    requires s.tlsMode == C.NoTls && !s.hasCredentials && Understood(greeting, later, 220, lines)
    ensures C.Send(s, m, greeting + later) == C.ThenQuit(C.Play(Steps(s, m)[1..], later, lines))
  {
    var rest := C.ThenQuit(C.Play(Steps(s, m)[1..], later, lines));
    StepTexts(s, m);
    PlayOneStep(Steps(s, m), greeting, later, [], lines);
    assert "" + rest.output == rest.output;
  }

  lemma MessageComesLast(s: C.Sender, m: C.Message)
    ensures var steps := Steps(s, m)[1..];
      |steps| == 5 && steps == steps[..4] + [steps[4]] && IsMessage(s, m, steps[4])
  {
    StepTexts(s, m);
  }

  /** What a complete run comes to. A message within the limit is delivered: the sender
      gets every reply it expects and returns Ok, the catcher ends in good order, and
      the mailbox grows by exactly this email. One over the limit is not: the mailbox
      stays as it was, and the sender is left without a reply. */
  lemma EveryRunDelivers(
      hostname: string, s: C.Sender, m: C.Message, mailbox: seq<Email>, toCatcher: string, toSender: string)
    requires Addressed(hostname, s, m) && CompleteRun(hostname, s, m, mailbox, toCatcher, toSender)
    ensures C.Send(s, m, toSender).outcome == if Fits(s, m) then C.Delivered else C.Failed(UnexpectedEof)
    ensures Connection(hostname, toCatcher, mailbox).mailbox
         == if Fits(s, m) then mailbox + [Expected(s, m)] else mailbox
    ensures Connection(hostname, toCatcher, mailbox).ending
         == if Fits(s, m) then Finished else Failed(MessageTooLarge)
  {
    var d, st, steps := Catcher(hostname), Session(None, [], mailbox), Steps(s, m)[1..];
    var later := Serve(d, false, toCatcher, st).output;
    var lines := GreetingIsUnderstood(hostname, later);
    SentAfterGreeting(s, m, Greeting(hostname), later, lines);
    MessageComesLast(s, m);
    var legs := ReceivingRoute(hostname, s, m, mailbox);
    var lines', c, r := RouteReaches(d, steps[..4], [steps[4]], legs, lines, toCatcher, later);
    if Fits(s, m) {
      MessageIsKept(hostname, s, m, legs[4].st, steps[4], lines', c, r);
    } else {
      MessageIsTooLarge(hostname, s, m, legs[4].st, steps[4], lines', c, r);
    }
  }

  /** And there is one, for a message of any size. */
  lemma ARunExists(hostname: string, s: C.Sender, m: C.Message, mailbox: seq<Email>)
    returns (toCatcher: string, toSender: string)
    requires Addressed(hostname, s, m)
    ensures CompleteRun(hostname, s, m, mailbox, toCatcher, toSender)
  {
    var d, steps := Catcher(hostname), Steps(s, m)[1..];
    MessageComesLast(s, m);
    var legs := ReceivingRoute(hostname, s, m, mailbox);
    var lines := GreetingIsUnderstood(hostname, "");
    var c, r := steps[4].text, "";
    if Fits(s, m) {
      c, r := KeptRunExists(hostname, s, m, legs[4].st, steps[4], LastLines(legs, lines));
    } else {
      MessageIsTooLarge(hostname, s, m, legs[4].st, steps[4], LastLines(legs, lines), c, r);
    }
    var later;
    toCatcher, later := RouteBuilt(d, steps[..4], [steps[4]], legs, lines, c, r);
    toSender := LinkedIsComplete(hostname, s, m, mailbox, toCatcher, later, lines);
  }

  lemma LinkedIsComplete(
      hostname: string, s: C.Sender, m: C.Message, mailbox: seq<Email>,
      toCatcher: string, later: string, lines: seq<string>)
    returns (toSender: string)
    requires Addressed(hostname, s, m) && |Steps(s, m)[1..]| > 0
    requires Linked(Catcher(hostname), false, Session(None, [], mailbox), Steps(s, m)[1..], lines, toCatcher, later)
    ensures CompleteRun(hostname, s, m, mailbox, toCatcher, toSender)
  {
    var lines' := GreetingIsUnderstood(hostname, later);
    SentAfterGreeting(s, m, Greeting(hostname), later, lines');
    toSender := Greeting(hostname) + later;
  }
}
