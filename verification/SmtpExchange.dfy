/** Sender and catcher connected to each other.

    Each side is a deterministic function from everything it ever reads to
    everything it ever writes, where the end of the input stands for a closed
    connection; a side that waits for more has written exactly what it would write
    if the stream ended there. So however the network cuts and delays the bytes, a
    complete run leaves two streams of which each is what one side writes on reading
    the other. The theorems are about every such pair. */
module SmtpExchange {
  import opened Text
  import opened Wire
  import opened SmtpParsing
  import opened SmtpServer
  import opened SmtpDialogue
  import C = SmtpClient

  // One exchange: a text from the sender, the catcher's reply.

  ghost predicate Answers(
      d: Dialect, receiving: bool, st: Session, text: string, later: string,
      reply: string, receiving': bool, st': Session)
  {
    var before := Serve(d, receiving, text + later, st);
    var after := Serve(d, receiving', later, st');
    before.output == reply + after.output && before.mailbox == after.mailbox && before.ending == after.ending
  }

  ghost predicate Understood(reply: string, later: string, expected: nat, lines: seq<string>) {
    C.ReadReplyFrom(reply + later, []) == C.Reply(expected, lines, later)
  }

  /** Whatever follows on either stream, the catcher answers the step with `reply`
      and the sender takes `reply` for what it expects. */
  ghost predicate Stage(
      d: Dialect, receiving: bool, st: Session, step: C.Step,
      reply: string, lines: seq<string>, receiving': bool, st': Session)
  {
    && (forall later :: Answers(d, receiving, st, step.text, later, reply, receiving', st'))
    && (forall later :: Understood(reply, later, step.expected, lines))
  }

  /** `c` and `s` are what the two sides still have to write, each on reading the other. */
  ghost predicate Linked(
      d: Dialect, receiving: bool, st: Session, steps: seq<C.Step>, lines: seq<string>, c: string, s: string)
  {
    c == C.ThenQuit(C.Play(steps, s, lines)).output && s == Serve(d, receiving, c, st).output
  }

  lemma StepIsWrittenFirst(steps: seq<C.Step>, s: string, lines: seq<string>)
    requires steps != []
    ensures steps[0].text <= C.ThenQuit(C.Play(steps, s, lines)).output
  {
    var p := C.Play(steps, s, lines);
    assert steps[0].text <= p.output;
    assert p.output <= p.output + C.QUIT_LINE;
  }

  lemma PlayOneStep(steps: seq<C.Step>, reply: string, later: string, lines: seq<string>, lines': seq<string>)
    requires steps != [] && Understood(reply, later, steps[0].expected, lines')
    ensures C.ThenQuit(C.Play(steps, reply + later, lines)).output
         == steps[0].text + C.ThenQuit(C.Play(steps[1..], later, lines')).output
    ensures C.ThenQuit(C.Play(steps, reply + later, lines)).outcome
         == C.ThenQuit(C.Play(steps[1..], later, lines')).outcome
  {
    var rest := C.Play(steps[1..], later, lines');
    assert steps[0].text + (rest.output + C.QUIT_LINE) == steps[0].text + rest.output + C.QUIT_LINE;
  }

  /** A linked pair of streams goes through the exchange of its first step. */
  lemma Advance(
      d: Dialect, receiving: bool, st: Session, steps: seq<C.Step>, lines: seq<string>, c: string, s: string,
      reply: string, lines': seq<string>, receiving': bool, st': Session)
    returns (c': string, s': string)
    requires steps != [] && Linked(d, receiving, st, steps, lines, c, s)
    requires Stage(d, receiving, st, steps[0], reply, lines', receiving', st')
    ensures Linked(d, receiving', st', steps[1..], lines', c', s')
    ensures C.ThenQuit(C.Play(steps, s, lines)).outcome == C.ThenQuit(C.Play(steps[1..], s', lines')).outcome
    ensures Serve(d, receiving, c, st).mailbox == Serve(d, receiving', c', st').mailbox
    ensures Serve(d, receiving, c, st).ending == Serve(d, receiving', c', st').ending
  {
    StepIsWrittenFirst(steps, s, lines);
    var text := steps[0].text;
    c' := c[|text|..];
    assert c == text + c';
    assert Answers(d, receiving, st, text, c', reply, receiving', st');
    s' := Serve(d, receiving', c', st').output;
    assert Understood(reply, s', steps[0].expected, lines');
    PlayOneStep(steps, reply, s', lines, lines');
    assert c' == (text + C.ThenQuit(C.Play(steps[1..], s', lines')).output)[|text|..];
  }

  /** And the other way round: linked streams for the rest extend to linked streams. */
  lemma Retreat(
      d: Dialect, receiving: bool, st: Session, steps: seq<C.Step>, lines: seq<string>,
      reply: string, lines': seq<string>, receiving': bool, st': Session, c': string, s': string)
    requires steps != [] && Linked(d, receiving', st', steps[1..], lines', c', s')
    requires Stage(d, receiving, st, steps[0], reply, lines', receiving', st')
    ensures Linked(d, receiving, st, steps, lines, steps[0].text + c', reply + s')
  {
    assert Answers(d, receiving, st, steps[0].text, c', reply, receiving', st');
    assert Understood(reply, s', steps[0].expected, lines');
    PlayOneStep(steps, reply, s', lines, lines');
  }

  // The five exchanges of a delivery.

  ghost predicate FitsLine(line: string) {
    EolFree(line) && Utf8Len(line + CRLF) <= MAX_LINE_BYTES
  }

  lemma CommandAnswered(d: Dialect, st: Session, line: string, later: string)
    requires FitsLine(line)
    requires var cmd := d.parse(line); !cmd.Crash? && !cmd.Quit? && !(cmd.DataCommand? && ReadyForData(st))
    ensures Answers(d, false, st, line + CRLF, later, d.respond(d.parse(line)), false, Effect(st, d.parse(line)))
  {
    ReadWrittenLine(line, later);
    assert line + CRLF + later != "";
  }

  lemma DataAnswered(d: Dialect, st: Session, line: string, later: string)
    requires FitsLine(line) && d.parse(line).DataCommand? && ReadyForData(st)
    ensures Answers(d, false, st, line + CRLF, later, d.startData, true, st)
  {
    ReadWrittenLine(line, later);
    assert line + CRLF + later != "";
  }

  lemma MessageAnswered(d: Dialect, st: Session, text: string, raw: string, later: string)
    requires ReadDataFrom(text + later, "") == Data(raw, later)
    ensures Answers(d, true, st, text, later, d.queued, false, Deliver(d, st, raw))
  {
  }

  lemma OneLineUnderstood(digits: string, code: nat, text: string, later: string)
    requires ReplyCode(digits, code) && EolFree(text) && EolFree(digits)
    ensures Understood(ClosingLine(digits, text), later, code, [digits + " " + text])
  {
    ReplyLine(digits, code, " ", text, later, []);
    assert [] + [digits + " " + text] == [digits + " " + text];
  }
}
