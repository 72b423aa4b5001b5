/** Where the catcher is not what a sender would expect: the lines that make it panic,
    and the lines that close an envelope. */
module CatcherEdges {
  import opened Prelude
  import opened Text
  import opened Trimming
  import opened Wire
  import opened SmtpParsing
  import opened SmtpServer
  import opened SmtpDialogue
  import opened SmtpExchange
  import opened DataTransparency
  import opened CommandLines
  import C = SmtpClient

  // Panics.

  lemma InsideLast(prefix: string, c: char)
    requires Ascii(prefix) && CharBytes(c) > 1
    ensures InsideChar(prefix + [c], |prefix| + 1)
  {
    var s := prefix + [c];
    AsciiBytes(prefix, [c]);
    Utf8LenAppend(prefix, [c]);
    assert [c][1..] == "";
    assert s[..|prefix|] == prefix && s[..|prefix| + 1] == s;
    assert Utf8Len(s[..|prefix|]) < |prefix| + 1 < Utf8Len(s[..|prefix| + 1]);
  }

  lemma SpellsItself(word: string)
    requires UpperCase(word)
    ensures Spells(word, word) && SpaceFree(word)
  {
  }

  lemma WithArgument(verb: string, sep: char, argument: string)
    requires verb != "" && SpaceFree(verb) && IsWhitespace(sep) && (argument == "" || !IsWhitespace(argument[0]))
    ensures Splits(verb + ([sep] + argument), "", verb, sep, "", argument)
  {
    assert "" + argument == argument;
    var line := verb + ([sep] + argument);
    assert "" + line == line;
  }

  /** One line for each cause: a no-break space, and an accented letter after the
      keywords FROM and TO, before which the separator is a plain space. */
  lemma SeparatorPanics(verb: string)
    requires verb != "" && SpaceFree(verb)
    ensures Interpret(verb + (['\U{A0}'] + "")).Crash?
  {
    WithArgument(verb, '\U{A0}', "");
    CrashExactly(verb + (['\U{A0}'] + ""));
  }

  lemma KeywordPanics(word: string, argument: string)
    requires UpperCase(word) && word != "" && argument != "" && !IsWhitespace(argument[0]) && Panics(word, argument)
    ensures Interpret(word + ([' '] + argument)).Crash?
  {
    SpellsItself(word);
    WithArgument(word, ' ', argument);
    assert Reads(word + ([' '] + argument), word, argument);
    CrashExactly(word + ([' '] + argument));
  }

  lemma MailPanics()
    ensures Interpret("MAIL" + ([' '] + ("FROM" + ['\U{E9}']))).Crash?
  {
    SpellsItself("MAIL");
    InsideLast("FROM", '\U{E9}');
    KeywordPanics("MAIL", "FROM" + ['\U{E9}']);
  }

  lemma RcptPanics()
    ensures Interpret("RCPT" + ([' '] + ("TO" + ['\U{E9}']))).Crash?
  {
    SpellsItself("RCPT");
    InsideLast("TO", '\U{E9}');
    KeywordPanics("RCPT", "TO" + ['\U{E9}']);
  }

  // What each command is answered.

  function EhloText(hostname: string): string {
    OngoingLine("250", hostname) + OngoingLine("250", SIZE) + ClosingLine("250", UTF8)
  }

  /** The reply to each command line, DATA in an open envelope aside. */
  lemma GreetingReplies(hostname: string, line: string)
    ensures Says(line, "HELO") ==> Response(hostname, Interpret(line)) == ClosingLine("250", hostname)
    ensures Says(line, "EHLO") ==>
      Response(hostname, Interpret(line)) == EhloText(hostname)
    ensures Says(line, "QUIT") ==>
      Response(hostname, Interpret(line)) == ClosingLine("221", "2.0.0 " + hostname + " closing connection")
  {
    CommandExactly(line);
  }

  lemma EnvelopeReplies(hostname: string, line: string)
    ensures Says(line, "MAIL") && !MakesPanic(line) ==>
      Response(hostname, Interpret(line)) == ClosingLine("250", "2.1.0 OK")
    ensures RcptWithoutKeyword(line) ==>
      Response(hostname, Interpret(line)) == ClosingLine("501", "5.5.4 Syntax: RCPT TO:<address>")
    ensures Says(line, "RCPT") && !MakesPanic(line) && !RcptWithoutKeyword(line) ==>
      Response(hostname, Interpret(line)) == ClosingLine("250", "2.1.5 OK")
  {
    MailOrRcptExactly(line);
    RecipientsExactly(line);
  }

  lemma DataReply(hostname: string, line: string)
    requires Says(line, "DATA")
    ensures Response(hostname, Interpret(line)) == ClosingLine("503", "5.5.1 Need MAIL and RCPT first")
  {
    CommandExactly(line);
  }

  lemma ResetReply(hostname: string, line: string)
    requires Says(line, "RSET")
    ensures Interpret(line) == Rset && Response(hostname, Interpret(line)) == ClosingLine("250", "2.0.0 OK")
  {
    CommandExactly(line);
  }

  lemma NoopReply(hostname: string, line: string)
    requires Says(line, "NOOP")
    ensures Response(hostname, Interpret(line)) == ClosingLine("250", "2.0.0 OK")
  {
    CommandExactly(line);
  }

  lemma VrfyReply(hostname: string, line: string)
    requires Says(line, "VRFY")
    ensures Response(hostname, Interpret(line)) == ClosingLine("252", "2.5.2 Cannot VRFY user")
  {
    CommandExactly(line);
  }

  lemma BlankReply(hostname: string, line: string)
    requires AllSpace(line)
    ensures Response(hostname, Interpret(line)) == ClosingLine("500", "5.5.2 Error: bad syntax")
  {
    CommandExactly(line);
  }

  lemma UnknownReply(hostname: string, line: string)
    requires !AllSpace(line) && !MakesPanic(line)
    requires !Says(line, "HELO") && !Says(line, "EHLO") && !Says(line, "MAIL") && !Says(line, "RCPT")
    requires !Says(line, "DATA") && !Says(line, "RSET") && !Says(line, "NOOP") && !Says(line, "VRFY")
    requires !Says(line, "QUIT")
    ensures Response(hostname, Interpret(line)) == ClosingLine("502", "5.5.1 Command not implemented")
  {
    UnknownExactly(line);
  }

  /** A line over the limit ends the session, with nothing answered or kept. */
  lemma TooLongLineEnds(d: Dialect, input: string, st: Session)
    requires input != "" && Utf8Len(FirstLine(input)) > MAX_LINE_BYTES
    ensures Serve(d, false, input, st) == Served("", [], st.mailbox, Failed(MessageTooLarge))
  {
  }

  // Closed envelopes.

  /** What is answered to lines none of which can open an envelope. */
  function Replies(d: Dialect, lines: seq<string>): string {
    if lines == [] then "" else d.respond(d.parse(lines[0])) + Replies(d, lines[1..])
  }

  ghost predicate OpensNothing(cmd: Command) {
    !cmd.Crash? && !cmd.Quit? && (cmd.Mail? ==> cmd.sender.None?)
  }

  /** A line within the limit that makes nothing panic, is no QUIT, and no MAIL with a sender. */
  ghost predicate Harmless(line: string) {
    FitsLine(line) && !MakesPanic(line) && !Says(line, "QUIT") && forall a :: !GivesSender(line, a)
  }

  lemma HarmlessOpensNothing(line: string)
    requires Harmless(line)
    ensures OpensNothing(Interpret(line))
  {
    CrashExactly(line);
    CommandExactly(line);
    SendersExactly(line);
  }

  ghost predicate Senderless(d: Dialect, lines: seq<string>) {
    forall i :: 0 <= i < |lines| ==> FitsLine(lines[i]) && OpensNothing(d.parse(lines[i]))
  }

  /** After `text` the catcher has answered `reply`, delivered nothing and has no sender. */
  ghost predicate AnsweredSenderless(
      d: Dialect, st: Session, text: string, later: string, reply: string, end: Session)
  {
    && end.mailFrom.None? && end.mailbox == st.mailbox && Answers(d, false, st, text, later, reply, false, end)
  }

  lemma AnswersInTurn(
      d: Dialect, st: Session, first: string, reply: string, middle: Session,
      more: string, later: string, replies: string, end: Session)
    requires Answers(d, false, st, first, more + later, reply, false, middle)
    requires Answers(d, false, middle, more, later, replies, false, end)
    ensures Answers(d, false, st, first + more, later, reply + replies, false, end)
  {
    ConcatAssociates(first, more, later);
    ConcatAssociates(reply, replies, Serve(d, false, later, end).output);
  }

  /** Without a sender every command is answered as its kind always is - DATA by its
      refusal, however many recipients there are - and nothing is delivered. */
  lemma {:induction false} SenderlessReplies(d: Dialect, lines: seq<string>, later: string, st: Session)
    returns (end: Session)
    requires st.mailFrom.None? && Senderless(d, lines)
    ensures AnsweredSenderless(d, st, C.Written(lines), later, Replies(d, lines), end)
  {
    if lines == [] {
      end := st;
      assert C.Written(lines) + later == later;
      assert "" + Serve(d, false, later, st).output == Serve(d, false, later, st).output;
    } else {
      var more, cmd := C.Written(lines[1..]), d.parse(lines[0]);
      end := SenderlessReplies(d, lines[1..], later, Effect(st, cmd));
      CommandAnswered(d, st, lines[0], more + later);
      AnswersInTurn(d, st, lines[0] + CRLF, d.respond(cmd), Effect(st, cmd),
                    more, later, Replies(d, lines[1..]), end);
      WrittenStarts(lines, "");
      assert lines[0] + CRLF + (more + "") == lines[0] + CRLF + more && C.Written(lines) + "" == C.Written(lines);
    }
  }

  /** After a line that clears the sender - whatever the envelope was - nothing is
      delivered and no DATA accepted until a line that gives one. */
  lemma EnvelopeCloses(d: Dialect, line: string, lines: seq<string>, later: string, st: Session) returns (end: Session)
    requires FitsLine(line) && Senderless(d, lines)
    requires d.parse(line) == Mail(None) || d.parse(line) == Rset
    ensures AnsweredSenderless(d, st, line + CRLF + C.Written(lines), later,
                               d.respond(d.parse(line)) + Replies(d, lines), end)
  {
    var more, cmd := C.Written(lines), d.parse(line);
    end := SenderlessReplies(d, lines, later, Effect(st, cmd));
    CommandAnswered(d, st, line, more + later);
    AnswersInTurn(d, st, line + CRLF, d.respond(cmd), Effect(st, cmd), more, later, Replies(d, lines), end);
  }

  /** Each DATA among the lines is answered 503. */
  ghost predicate DataRefused(hostname: string, lines: seq<string>) {
    forall i :: 0 <= i < |lines| && Says(lines[i], "DATA") ==>
      Catcher(hostname).respond(Catcher(hostname).parse(lines[i]))
      == ClosingLine("503", "5.5.1 Need MAIL and RCPT first")
  }

  lemma HarmlessLines(hostname: string, lines: seq<string>)
    requires forall i :: 0 <= i < |lines| ==> Harmless(lines[i])
    ensures Senderless(Catcher(hostname), lines) && DataRefused(hostname, lines)
  {
    forall i | 0 <= i < |lines|
      ensures OpensNothing(Interpret(lines[i]))
    {
      HarmlessOpensNothing(lines[i]);
    }
    RefusedEverywhere(hostname, lines);
  }

  lemma RefusedEverywhere(hostname: string, lines: seq<string>)
    ensures DataRefused(hostname, lines)
  {
    forall i | 0 <= i < |lines| && Says(lines[i], "DATA")
      ensures Response(hostname, Interpret(lines[i])) == ClosingLine("503", "5.5.1 Need MAIL and RCPT first")
    {
      DataReply(hostname, lines[i]);
    }
  }

  /** MAIL without its keyword is answered 250 all the same, but closes the envelope:
      until a MAIL with it, each DATA is answered 503 and nothing is delivered. */
  lemma AddresslessMailRefusesData(hostname: string, line: string, lines: seq<string>, later: string, st: Session)
    returns (end: Session)
    requires FitsLine(line) && MailWithoutKeyword(line) && forall i :: 0 <= i < |lines| ==> Harmless(lines[i])
    ensures AnsweredSenderless(Catcher(hostname), st, line + CRLF + C.Written(lines), later,
                               ClosingLine("250", "2.1.0 OK") + Replies(Catcher(hostname), lines), end)
    ensures DataRefused(hostname, lines)
  {
    SendersExactly(line);
    HarmlessLines(hostname, lines);
    end := EnvelopeCloses(Catcher(hostname), line, lines, later, st);
  }

  /** RSET likewise, in every session. */
  lemma ResetRefusesData(hostname: string, line: string, lines: seq<string>, later: string, st: Session)
    returns (end: Session)
    requires FitsLine(line) && Says(line, "RSET") && forall i :: 0 <= i < |lines| ==> Harmless(lines[i])
    ensures AnsweredSenderless(Catcher(hostname), st, line + CRLF + C.Written(lines), later,
                               ClosingLine("250", "2.0.0 OK") + Replies(Catcher(hostname), lines), end)
    ensures DataRefused(hostname, lines)
  {
    HarmlessLines(hostname, lines);
    ResetReply(hostname, line);
    end := EnvelopeCloses(Catcher(hostname), line, lines, later, st);
  }

  /** A MAIL without its keyword, for one. */
  lemma AddresslessWitness()
    ensures MailWithoutKeyword("MAIL")
  {
    SpellsItself("MAIL");
    assert "" + "MAIL" == "MAIL";
    assert Alone("MAIL", "", "MAIL");
    assert Reads("MAIL", "MAIL", "");
  }

  /** And one on the other side: the keyword with nothing after it gives an empty
      address, which is an address like any other. */
  lemma EmptyAddressIsAccepted()
    ensures GivesSender("MAIL" + ([' '] + "FROM:"), "")
  {
    SpellsItself("MAIL");
    WithArgument("MAIL", ' ', "FROM:");
    assert Reads("MAIL" + ([' '] + "FROM:"), "MAIL", "FROM:");
    EmptyAddress();
    assert "FROM:"[5..] == "";
  }

  lemma EmptyAddress()
    ensures Address("", "") && Keyword("FROM:", "FROM:")
  {
    AddressPartExactly("", "");
  }

  /** After any address, and a recipient, DATA is accepted. */
  lemma AnyAddressOpens(st: Session, sender: string, recipient: string)
    ensures ReadyForData(Effect(Effect(st, Mail(Some(sender))), Rcpt(Some(recipient))))
  {
  }
}
