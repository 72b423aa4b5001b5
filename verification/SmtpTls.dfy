/** A sender that insists on STARTTLS gets nowhere with this catcher. */
module SmtpTls {
  import opened Prelude
  import opened Text
  import opened Wire
  import opened SmtpParsing
  import opened SmtpServer
  import opened SmtpDialogue
  import opened SmtpExchange
  import opened SmtpDelivery
  import C = SmtpClient

  const TOKEN := "STARTTLS"

  lemma {:induction false} CapabilityRead(mark: string, text: string, rest: seq<string>)
    requires Ascii(mark) && |mark| == 4
    ensures C.EhloSupports([mark + text] + rest, TOKEN)
         == if C.FirstWordIs(text, TOKEN) then Value(true) else C.EhloSupports(rest, TOKEN)
  {
    var caps := [mark + text] + rest;
    AsciiBytes(mark, text);
    Utf8LenAppend(mark, text);
    assert caps[0] == mark + text && caps[1..] == rest;
    assert (mark + text)[4..] == text;
    if text == "" {
      assert !C.FirstWordIs(text, TOKEN);
    } else {
      assert Utf8Len(text) >= 1;
    }
  }

  lemma FirstWord(word: string, rest: string, token: string)
    requires word != "" && SpaceFree(word) && (rest == "" || IsWhitespace(rest[0]))
    ensures C.FirstWordIs(word + rest, token) <==> EqIgnoreAsciiCase(word, token)
  {
    FirstSpaceAfter(word, rest);
    var text := word + rest;
    assert text[0] == word[0] && text[..|word|] == word;
  }

  lemma SizeIsNoToken(size: string)
    requires size == SIZE
    ensures !C.FirstWordIs(size, TOKEN)
  {
    var word, rest := size[..4], size[4..];
    assert word + rest == size;
    FirstWord(word, rest, TOKEN);
  }

  lemma Utf8IsNoToken(utf8: string)
    requires utf8 == UTF8
    ensures !C.FirstWordIs(utf8, TOKEN)
  {
    assert utf8 + "" == utf8;
    FirstWord(utf8, "", TOKEN);
    assert AsciiLower(utf8[1]) != AsciiLower(TOKEN[1]);
  }

  lemma SizeIsSkipped(mark: string, size: string, rest: seq<string>)
    requires Ascii(mark) && |mark| == 4 && size == SIZE
    ensures C.EhloSupports([mark + size] + rest, TOKEN) == C.EhloSupports(rest, TOKEN)
  {
    SizeIsNoToken(size);
    CapabilityRead(mark, size, rest);
  }

  lemma Utf8IsSkipped(mark: string, utf8: string, rest: seq<string>)
    requires Ascii(mark) && |mark| == 4 && utf8 == UTF8
    ensures C.EhloSupports([mark + utf8] + rest, TOKEN) == C.EhloSupports(rest, TOKEN)
  {
    Utf8IsNoToken(utf8);
    CapabilityRead(mark, utf8, rest);
  }

  /** No capability but the host name, on the first line, can be taken for it. */
  lemma CapabilitiesNamed(digits: string, hostname: string, lines: seq<string>)
    requires Ascii(digits) && |digits| == 3
    requires lines == [digits + "-" + hostname, digits + "-" + SIZE, digits + " " + UTF8]
    ensures C.EhloSupports(lines, TOKEN) == Value(C.FirstWordIs(hostname, TOKEN))
  {
    var two, one, none := lines[1..], lines[2..], lines[3..];
    assert none == [] && C.EhloSupports(none, TOKEN) == Value(false);
    assert C.EhloSupports(one, TOKEN) == Value(false) by {
      Utf8IsSkipped(digits + " ", UTF8, none);
      assert [digits + " " + UTF8] + none == one;
    }
    assert C.EhloSupports(two, TOKEN) == Value(false) by {
      SizeIsSkipped(digits + "-", SIZE, one);
      assert [digits + "-" + SIZE] + one == two;
    }
    CapabilityRead(digits + "-", hostname, two);
    assert [digits + "-" + hostname] + two == lines;
  }

  lemma CatcherCapabilities(hostname: string, lines: seq<string>)
    requires lines == EhloReply(hostname)
    ensures C.EhloSupports(lines, TOKEN) == Value(C.FirstWordIs(hostname, TOKEN))
  {
    CapabilitiesNamed("250", hostname, lines);
  }

  // The catcher knows no such command.

  lemma StartTlsIsUnknown()
    ensures Interpret(TOKEN) == Unknown
  {
    VerbAlone(TOKEN);
  }

  lemma RefusalCode()
    ensures ReplyCode("502", 502)
  {
    DigitsOf('5', '0', '2');
    assert "502" == ['5', '0', '2'];
  }

  lemma RefusalFits()
    ensures FitsLine(TOKEN) && EolFree("5.5.1 Command not implemented") && EolFree("502")
  {
    AsciiBytes(TOKEN + CRLF, "");
  }

  lemma StepIsRejected(step: C.Step, digits: string, code: nat, text: string, lines: seq<string>)
    requires ReplyCode(digits, code) && EolFree(digits) && EolFree(text) && step.expected != code
    ensures C.Play([step], ClosingLine(digits, text), lines)
         == C.Sent(step.text, Err(Rejected(code, step.phase)), "")
  {
    OneLineUnderstood(digits, code, text, "");
    assert ClosingLine(digits, text) + "" == ClosingLine(digits, text);
  }

  lemma OnlyCommandAnswered(d: Dialect, st: Session, line: string, cmd: Command)
    requires FitsLine(line) && d.parse(line) == cmd && cmd.Unknown?
    ensures var served := Serve(d, false, line + CRLF, st);
      served.output == d.respond(Unknown) && served.mailbox == st.mailbox
  {
    CommandAnswered(d, st, line, "");
    assert line + CRLF + "" == line + CRLF;
    assert d.respond(Unknown) + "" == d.respond(Unknown);
  }

  lemma CommandIsRefused(
      d: Dialect, st: Session, line: string, step: C.Step, digits: string, code: nat, text: string, caps: seq<string>)
    requires FitsLine(line) && d.parse(line).Unknown? && d.respond(Unknown) == ClosingLine(digits, text)
    requires ReplyCode(digits, code) && EolFree(digits) && EolFree(text)
    requires step.text == line + CRLF && step.expected != code
    ensures var served := Serve(d, false, step.text, st);
      && served.mailbox == st.mailbox
      && C.Play([step], served.output, caps) == C.Sent(step.text, Err(Rejected(code, step.phase)), "")
  {
    OnlyCommandAnswered(d, st, line, Unknown);
    StepIsRejected(step, digits, code, text, caps);
  }

  lemma StartTlsIsRefused(hostname: string, st: Session, caps: seq<string>)
    ensures var served := Serve(Catcher(hostname), false, TOKEN + CRLF, st);
      && served.mailbox == st.mailbox
      && C.Play([C.STARTTLS_STEP], served.output, caps)
         == C.Sent(TOKEN + CRLF, Err(Rejected(502, TOKEN)), "")
  {
    StartTlsIsUnknown();
    RefusalCode();
    RefusalFits();
    CommandIsRefused(Catcher(hostname), st, TOKEN, C.STARTTLS_STEP, "502", 502, "5.5.1 Command not implemented", caps);
  }

  // The opening, and all that the sender writes after it.

  /** What follows the EHLO line: the request for TLS, if the host name reads like it. */
  function AfterEhlo(hostname: string): string {
    if C.FirstWordIs(hostname, TOKEN) then TOKEN + CRLF else ""
  }

  lemma OpeningGoes(hostname: string, s: C.Sender, st: Session, rest: string)
    requires EolFree(hostname) && FitsLine(EhloLine(s.ehloName))
    ensures var text, d := C.Opening(s)[1].text, Catcher(hostname);
      && C.Play(C.Opening(s), Greeting(hostname) + Serve(d, false, text + rest, st).output, [])
         == C.Sent(text, Ok(EhloReply(hostname)), Serve(d, false, rest, st).output)
      && Serve(d, false, text + rest, st).mailbox == Serve(d, false, rest, st).mailbox
  {
    var d, steps := Catcher(hostname), C.Opening(s);
    var text := steps[1].text;
    var later := Serve(d, false, text + rest, st).output;
    var lines := GreetingIsUnderstood(hostname, later);
    PlayBoth(steps, Greeting(hostname), later, lines);
    var reply, caps := EhloStage(hostname, st, s);
    assert Answers(d, false, st, text, rest, reply, false, st);
    var after := Serve(d, false, rest, st).output;
    assert Understood(reply, after, 250, caps);
    LastStep(steps[1..], reply, after, lines, caps);
  }

  lemma EhloIsWrittenFirst(hostname: string, s: C.Sender, m: C.Message, later: string)
    requires s.tlsMode == C.StartTls && EolFree(hostname)
    ensures C.Opening(s)[1].text <= C.Send(s, m, Greeting(hostname) + later).output
  {
    var lines := GreetingIsUnderstood(hostname, later);
    PlayBoth(C.Opening(s), Greeting(hostname), later, lines);
    OpeningIsPrefix(C.Play(C.Opening(s), Greeting(hostname) + later, []));
  }

  lemma OpeningIsPrefix(opening: C.Sent)
    ensures opening.output <= C.AskForTls(opening).output
  {
  }

  /** What the sender makes of the opening. */
  lemma AfterTheOpening(hostname: string, st: Session, text: string, rest: string)
    ensures var after := Serve(Catcher(hostname), false, rest, st).output;
      var sending := C.AskForTls(C.Sent(text, Ok(EhloReply(hostname)), after));
      && sending.output == text + AfterEhlo(hostname)
      && (rest == AfterEhlo(hostname) ==>
            && sending.outcome
               == C.Failed(if C.FirstWordIs(hostname, TOKEN) then Rejected(502, TOKEN) else StartTlsUnsupported)
            && Serve(Catcher(hostname), false, rest, st).mailbox == st.mailbox)
  {
    var caps := EhloReply(hostname);
    CatcherCapabilities(hostname, caps);
    assert text + "" == text;
    if C.FirstWordIs(hostname, TOKEN) {
      StartTlsIsRefused(hostname, st, caps);
      OneStepIsWritten(C.STARTTLS_STEP, Serve(Catcher(hostname), false, rest, st).output, caps);
    }
  }

  lemma OneStepIsWritten(step: C.Step, replies: string, lines: seq<string>)
    ensures C.Play([step], replies, lines).output == step.text
  {
    assert step.text + "" == step.text;
  }

  /** In every complete run the mailbox stays as it was, and the sender gives up:
      because STARTTLS is not offered or, where the catcher's own host name begins with
      that word and is taken for the extension, because the command is refused. */
  lemma StartTlsDeliversNothing(
      hostname: string, s: C.Sender, m: C.Message, mailbox: seq<Email>, toCatcher: string, toSender: string)
    requires s.tlsMode == C.StartTls && EolFree(hostname) && FitsLine(EhloLine(s.ehloName))
    requires CompleteRun(hostname, s, m, mailbox, toCatcher, toSender)
    ensures Connection(hostname, toCatcher, mailbox).mailbox == mailbox
    ensures C.Send(s, m, toSender).outcome
         == C.Failed(if C.FirstWordIs(hostname, TOKEN) then Rejected(502, TOKEN) else StartTlsUnsupported)
  {
    var d, st := Catcher(hostname), Session(None, [], mailbox);
    EhloIsWrittenFirst(hostname, s, m, Serve(d, false, toCatcher, st).output);
    var text := C.Opening(s)[1].text;
    var rest := toCatcher[|text|..];
    assert toCatcher == text + rest;
    OpeningGoes(hostname, s, st, rest);
    AfterTheOpening(hostname, st, text, rest);
    assert rest == AfterEhlo(hostname);
  }

  /** And there is such a run for every sender and every host name. */
  lemma AStartTlsRunExists(hostname: string, s: C.Sender, m: C.Message, mailbox: seq<Email>)
    returns (toCatcher: string, toSender: string)
    requires s.tlsMode == C.StartTls && EolFree(hostname) && FitsLine(EhloLine(s.ehloName))
    ensures CompleteRun(hostname, s, m, mailbox, toCatcher, toSender)
  {
    var st, text := Session(None, [], mailbox), C.Opening(s)[1].text;
    toCatcher := text + AfterEhlo(hostname);
    toSender := Connection(hostname, toCatcher, mailbox).output;
    OpeningGoes(hostname, s, st, AfterEhlo(hostname));
    AfterTheOpening(hostname, st, text, AfterEhlo(hostname));
  }

  /** A host name that is taken for the extension. */
  lemma MisleadingHostName() returns (hostname: string)
    ensures EolFree(hostname) && C.FirstWordIs(hostname, TOKEN)
  {
    hostname := TOKEN;
    assert SpaceFree(hostname);
    TokenItself(hostname);
  }

  lemma TokenItself(token: string)
    requires token != "" && SpaceFree(token)
    ensures EolFree(token) && C.FirstWordIs(token, token)
  {
    assert token + "" == token;
    FirstWord(token, "", token);
    assert IsWhitespace('\r') && IsWhitespace('\n');
  }

  lemma PlayBoth(steps: seq<C.Step>, greeting: string, later: string, lines: seq<string>)
    requires |steps| == 2 && steps[0].text == "" && Understood(greeting, later, steps[0].expected, lines)
    ensures C.Play(steps, greeting + later, []) == C.Play(steps[1..], later, lines)
    ensures steps[1].text <= C.Play(steps, greeting + later, []).output
  {
    C.AfterNothing(C.Play(steps[1..], later, lines));
  }

  lemma LastStep(steps: seq<C.Step>, reply: string, later: string, lines: seq<string>, lines': seq<string>)
    requires |steps| == 1 && Understood(reply, later, steps[0].expected, lines')
    ensures C.Play(steps, reply + later, lines) == C.Sent(steps[0].text, Ok(lines'), later)
  {
    assert steps[0].text + "" == steps[0].text;
  }
}
