/** Section 4.1.4 of RFC 5321 as the catcher keeps it, for every input and however
    commands are parsed: only complete envelopes are delivered. */
module SessionSafety {
  import opened Prelude
  import opened Text
  import opened Wire
  import opened SmtpParsing
  import opened SmtpServer

  function CommandOf(d: Dialect, e: Event): Command {
    if e.LineRead? then d.parse(TrimEol(e.line)) else Unknown
  }

  /** The recipients accepted during these events, in order. */
  function Accepted(d: Dialect, events: seq<Event>): seq<string> {
    if events == [] then []
    else
      var cmd := CommandOf(d, events[|events| - 1]);
      var before := Accepted(d, events[..|events| - 1]);
      if cmd.Rcpt? && cmd.recipient.Some? then before + [cmd.recipient.value] else before
  }

  predicate ClearsEnvelope(d: Dialect, e: Event) {
    e.MessageRead? || CommandOf(d, e).Mail? || CommandOf(d, e).Rset?
  }

  /** Event `j` is the latest to have touched the envelope as a whole: a MAIL with
      this sender, after which exactly `rcpts` were accepted. */
  ghost predicate OpenedBy(d: Dialect, past: seq<Event>, j: int, sender: string, rcpts: seq<string>) {
    && 0 <= j < |past| && CommandOf(d, past[j]) == Mail(Some(sender))
    && (forall k :: j < k < |past| ==> !ClearsEnvelope(d, past[k]))
    && rcpts == Accepted(d, past[j + 1..])
  }

  /** An envelope with a recipient is open. */
  ghost predicate EnvelopeOpen(d: Dialect, past: seq<Event>) {
    exists j, sender, rcpts :: OpenedBy(d, past, j, sender, rcpts) && rcpts != []
  }

  /** The session holds exactly the envelope that these events have opened, if any. */
  ghost predicate EnvelopeMatches(d: Dialect, past: seq<Event>, st: Session) {
    && (st.mailFrom.Some? ==> exists j :: OpenedBy(d, past, j, st.mailFrom.value, st.rcpts))
    && (forall j, sender, rcpts :: OpenedBy(d, past, j, sender, rcpts) ==>
          st.mailFrom == Some(sender) && st.rcpts == rcpts)
  }

  function WithRecipient(rcpts: seq<string>, cmd: Command): seq<string> {
    if cmd.Rcpt? && cmd.recipient.Some? then rcpts + [cmd.recipient.value] else rcpts
  }

  /** One more event that does not end the envelope keeps it open, with the recipient
      it gives if it gives one. */
  lemma OpenedSnoc(d: Dialect, past: seq<Event>, j: int, sender: string, rcpts: seq<string>, e: Event)
    requires 0 <= j < |past| && !ClearsEnvelope(d, e)
    ensures OpenedBy(d, past, j, sender, rcpts) ==>
      OpenedBy(d, past + [e], j, sender, WithRecipient(rcpts, CommandOf(d, e)))
    ensures OpenedBy(d, past + [e], j, sender, rcpts) ==>
      OpenedBy(d, past, j, sender, Accepted(d, past[j + 1..]))
      && rcpts == WithRecipient(Accepted(d, past[j + 1..]), CommandOf(d, e))
  {
    var all := past + [e];
    assert all[j + 1..][..|all[j + 1..]| - 1] == past[j + 1..];
    assert all[j + 1..] == past[j + 1..] + [e];
    assert all[j] == past[j] && forall k :: j < k < |past| ==> all[k] == past[k];
    assert all[|past|] == e;
  }

  /** One that ends it leaves only what it opens itself. */
  lemma OpenedAnew(d: Dialect, past: seq<Event>, j: int, sender: string, rcpts: seq<string>, e: Event)
    requires ClearsEnvelope(d, e)
    ensures OpenedBy(d, past + [e], j, sender, rcpts)
       <==> j == |past| && CommandOf(d, e) == Mail(Some(sender)) && rcpts == []
  {
    var all := past + [e];
    assert all[|past|] == e && all[|past| + 1..] == [];
    if 0 <= j < |past| {
      assert ClearsEnvelope(d, all[|past|]);
    }
  }

  lemma NewEnvelope(d: Dialect, past: seq<Event>, st: Session, e: Event)
    requires ClearsEnvelope(d, e) && (st.mailFrom.Some? ==> st.rcpts == [])
    requires forall sender :: CommandOf(d, e) == Mail(Some(sender)) <==> st.mailFrom == Some(sender)
    ensures EnvelopeMatches(d, past + [e], st)
  {
    forall j, sender, rcpts ensures OpenedBy(d, past + [e], j, sender, rcpts)
      <==> j == |past| && CommandOf(d, e) == Mail(Some(sender)) && rcpts == [] {
      OpenedAnew(d, past, j, sender, rcpts, e);
    }
    if st.mailFrom.Some? {
      assert OpenedBy(d, past + [e], |past|, st.mailFrom.value, []);
    }
  }

  lemma SameEnvelope(d: Dialect, past: seq<Event>, st: Session, e: Event)
    requires EnvelopeMatches(d, past, st) && !ClearsEnvelope(d, e)
    ensures EnvelopeMatches(d, past + [e], st.(rcpts := WithRecipient(st.rcpts, CommandOf(d, e))))
      || st.mailFrom.None?
    ensures st.mailFrom.None? ==>
      forall after: Session :: after.mailFrom.None? ==> EnvelopeMatches(d, past + [e], after)
  {
    if st.mailFrom.Some? {
      var j :| OpenedBy(d, past, j, st.mailFrom.value, st.rcpts);
      OpenedSnoc(d, past, j, st.mailFrom.value, st.rcpts, e);
    }
    assert (past + [e])[|past|] == e;
    forall j, sender, rcpts | OpenedBy(d, past + [e], j, sender, rcpts)
      ensures st.mailFrom == Some(sender) && rcpts == WithRecipient(st.rcpts, CommandOf(d, e))
    {
      if j < |past| {
        OpenedSnoc(d, past, j, sender, rcpts, e);
      }
    }
  }

  lemma CommandKeepsEnvelope(d: Dialect, past: seq<Event>, st: Session, e: Event)
    requires EnvelopeMatches(d, past, st) && e.LineRead?
    ensures EnvelopeMatches(d, past + [e], Effect(st, CommandOf(d, e)))
  {
    if ClearsEnvelope(d, e) {
      NewEnvelope(d, past, Effect(st, CommandOf(d, e)), e);
    } else {
      SameEnvelope(d, past, st, e);
    }
  }

  lemma OpenMeansReady(d: Dialect, past: seq<Event>, st: Session)
    requires EnvelopeMatches(d, past, st)
    ensures EnvelopeOpen(d, past) <==> ReadyForData(st)
  {
    if ReadyForData(st) {
      var j :| OpenedBy(d, past, j, st.mailFrom.value, st.rcpts);
    }
  }

  /** The latest event was a DATA line in an open envelope. */
  ghost predicate AwaitsText(d: Dialect, past: seq<Event>) {
    past != [] && CommandOf(d, past[|past| - 1]).DataCommand? && EnvelopeOpen(d, past[..|past| - 1])
  }

  /** A message text is read after a DATA line in an open envelope and nowhere else, and
      is acknowledged; every line is answered as its command is, DATA in an open
      envelope apart. */
  ghost predicate JustifiedAfter(d: Dialect, past: seq<Event>, e: Event) {
    match e
    case MessageRead(_, envelopeFrom, rcpts, _, reply) =>
      AwaitsText(d, past) && reply == d.queued && rcpts != [] && exists j :: OpenedBy(d, past, j, envelopeFrom, rcpts)
    case LineRead(_, reply) =>
      !AwaitsText(d, past)
      && reply == if CommandOf(d, e).DataCommand? && EnvelopeOpen(d, past) then d.startData
                  else d.respond(CommandOf(d, e))
  }

  ghost predicate Justified(d: Dialect, all: seq<Event>, i: int)
    requires 0 <= i < |all|
  {
    JustifiedAfter(d, all[..i], all[i])
  }

  ghost predicate JustifiedFrom(d: Dialect, all: seq<Event>, start: nat) {
    forall i :: start <= i < |all| ==> Justified(d, all, i)
  }

  function EmailOf(d: Dialect, e: Event): seq<Email> {
    if e.MessageRead? then [d.parseEmail(e.envelopeFrom, e.rcpts, e.raw)] else []
  }

  function Emails(d: Dialect, events: seq<Event>): seq<Email> {
    if events == [] then [] else EmailOf(d, events[0]) + Emails(d, events[1..])
  }

  function RepliesIn(events: seq<Event>): string {
    if events == [] then "" else events[0].reply + RepliesIn(events[1..])
  }

  lemma EmailsCons(d: Dialect, e: Event, events: seq<Event>)
    ensures Emails(d, [e] + events) == EmailOf(d, e) + Emails(d, events)
    ensures RepliesIn([e] + events) == e.reply + RepliesIn(events)
  {
    assert ([e] + events)[1..] == events;
  }

  /** All that is served is justified; the texts read make up what is added to the
      mailbox, and the replies what is written. */
  ghost predicate Safe(d: Dialect, past: seq<Event>, mailbox: seq<Email>, served: Served) {
    && JustifiedFrom(d, past + served.events, |past|)
    && served.mailbox == mailbox + Emails(d, served.events)
    && served.output == RepliesIn(served.events)
  }

  /** Whatever is sent: from any point of a session on, every delivery hands over
      exactly the recipients accepted since the most recent MAIL, with no RSET and no
      other delivery in between; DATA is accepted exactly in an open envelope with a
      recipient; and mailbox and output grow by exactly what is delivered and answered. */
  lemma {:induction false} DeliveriesAreJustified(
      d: Dialect, receiving: bool, input: string, st: Session, past: seq<Event>)
    requires EnvelopeMatches(d, past, st) && (receiving ==> ReadyForData(st)) && (receiving <==> AwaitsText(d, past))
    ensures Safe(d, past, st.mailbox, Serve(d, receiving, input, st))
    decreases |input|, 2
  {
    NothingServed(d, past, st.mailbox, Serve(d, receiving, input, st).ending);
    if !receiving {
      CommandIsJustified(d, input, st, past);
    } else {
      var r := ReadDataFrom(input, "");
      if r.Data? {
        DeliveryIsJustified(d, past, st, input, r.text, r.rest);
      }
    }
  }

  lemma NothingServed(d: Dialect, past: seq<Event>, mailbox: seq<Email>, ending: Ending)
    ensures Safe(d, past, mailbox, Served("", [], mailbox, ending))
  {
    assert mailbox + Emails(d, []) == mailbox && past + [] == past;
  }

  lemma QuietEnd(d: Dialect, past: seq<Event>, e: Event, mailbox: seq<Email>)
    requires e.LineRead? && JustifiedAfter(d, past, e)
    ensures Safe(d, past, mailbox, Served(e.reply, [e], mailbox, Finished))
  {
    var all := past + [e];
    assert all[|past|] == e && all[..|past|] == past;
    EmailsCons(d, e, []);
    assert [e] + [] == [e] && e.reply + "" == e.reply;
  }

  lemma {:induction false} CommandIsJustified(d: Dialect, input: string, st: Session, past: seq<Event>)
    requires EnvelopeMatches(d, past, st) && !AwaitsText(d, past)
    ensures Safe(d, past, st.mailbox, Serve(d, false, input, st))
    decreases |input|, 1
  {
    NothingServed(d, past, st.mailbox, Serve(d, false, input, st).ending);
    OpenMeansReady(d, past, st);
    if input != "" && Utf8Len(FirstLine(input)) <= MAX_LINE_BYTES {
      var cmd, rest := d.parse(TrimEol(FirstLine(input))), AfterLine(input);
      var receiving := cmd.DataCommand? && ReadyForData(st);
      var e := LineRead(FirstLine(input), if receiving then d.startData else d.respond(cmd));
      if cmd.Quit? {
        QuietEnd(d, past, e, st.mailbox);
      } else if !cmd.Crash? {
        OrdinaryIsJustified(d, past, st, e, rest, receiving);
      }
    }
  }

  lemma {:induction false} OrdinaryIsJustified(
      d: Dialect, past: seq<Event>, st: Session, e: Event, rest: string, receiving: bool)
    requires EnvelopeMatches(d, past, st) && e.LineRead? && !AwaitsText(d, past)
    requires receiving <==> CommandOf(d, e).DataCommand? && ReadyForData(st)
    requires e.reply == if receiving then d.startData else d.respond(CommandOf(d, e))
    ensures Safe(d, past, st.mailbox, Serve(d, receiving, rest, Effect(st, CommandOf(d, e))).Prefixed(e.reply, [e]))
    decreases |rest|, 4
  {
    CommandKeepsEnvelope(d, past, st, e);
    OpenMeansReady(d, past, st);
    AwaitsAfter(d, past, e);
    if receiving {
      ReadyAfterData(st, CommandOf(d, e));
    }
    LineIsJustified(d, past, e);
    AfterEvent(d, past, e, receiving, rest, Effect(st, CommandOf(d, e)), st.mailbox);
  }

  lemma LineIsJustified(d: Dialect, past: seq<Event>, e: Event)
    requires e.LineRead? && !AwaitsText(d, past)
    requires e.reply == if CommandOf(d, e).DataCommand? && EnvelopeOpen(d, past) then d.startData
                        else d.respond(CommandOf(d, e))
    ensures JustifiedAfter(d, past, e) && EmailOf(d, e) == []
  {
  }

  lemma AwaitsAfter(d: Dialect, past: seq<Event>, e: Event)
    ensures AwaitsText(d, past + [e]) <==> CommandOf(d, e).DataCommand? && EnvelopeOpen(d, past)
  {
    assert (past + [e])[..|past|] == past;
  }

  lemma ReadyAfterData(st: Session, cmd: Command)
    requires cmd.DataCommand?
    ensures Effect(st, cmd) == st
  {
  }

  lemma EnvelopeJustifies(d: Dialect, past: seq<Event>, st: Session, e: Event)
    requires EnvelopeMatches(d, past, st) && ReadyForData(st) && AwaitsText(d, past)
    requires e.MessageRead? && e.envelopeFrom == st.mailFrom.GetOr("") && e.rcpts == st.rcpts && e.reply == d.queued
    ensures JustifiedAfter(d, past, e)
  {
    var j :| OpenedBy(d, past, j, st.mailFrom.value, st.rcpts);
    assert OpenedBy(d, past, j, e.envelopeFrom, e.rcpts);
  }

  lemma {:induction false} DeliveryIsJustified(
      d: Dialect, past: seq<Event>, st: Session, input: string, raw: string, rest: string)
    requires EnvelopeMatches(d, past, st) && ReadyForData(st) && AwaitsText(d, past) && |rest| <= |input|
    ensures var e, later := TextTaken(d, st, input, raw, rest), Serve(d, false, rest, Deliver(d, st, raw));
      Safe(d, past, st.mailbox, later.Prefixed(d.queued, [e]))
    decreases |rest|, 4
  {
    var e := TextTaken(d, st, input, raw, rest);
    EnvelopeJustifies(d, past, st, e);
    NewEnvelope(d, past, Deliver(d, st, raw), e);
    AfterEvent(d, past, e, false, rest, Deliver(d, st, raw), st.mailbox);
  }

  lemma JustifiedCons(d: Dialect, past: seq<Event>, e: Event, later: seq<Event>)
    requires JustifiedAfter(d, past, e) && JustifiedFrom(d, past + [e] + later, |past| + 1)
    ensures JustifiedFrom(d, past + ([e] + later), |past|)
  {
    var all := past + ([e] + later);
    assert past + [e] + later == all && all[|past|] == e && all[..|past|] == past;
  }

  lemma {:induction false} AfterEvent(
      d: Dialect, past: seq<Event>, e: Event, receiving: bool, rest: string, st: Session, mailbox: seq<Email>)
    requires EnvelopeMatches(d, past + [e], st) && JustifiedAfter(d, past, e) && (receiving ==> ReadyForData(st))
    requires receiving <==> AwaitsText(d, past + [e])
    requires st.mailbox == mailbox + EmailOf(d, e)
    ensures Safe(d, past, mailbox, Serve(d, receiving, rest, st).Prefixed(e.reply, [e]))
    decreases |rest|, 3
  {
    DeliveriesAreJustified(d, receiving, rest, st, past + [e]);
    AfterServed(d, past, e, Serve(d, receiving, rest, st), st.mailbox, mailbox);
  }

  lemma AfterServed(
      d: Dialect, past: seq<Event>, e: Event, later: Served, after: seq<Email>, mailbox: seq<Email>)
    requires JustifiedAfter(d, past, e) && after == mailbox + EmailOf(d, e) && Safe(d, past + [e], after, later)
    ensures Safe(d, past, mailbox, later.Prefixed(e.reply, [e]))
  {
    JustifiedCons(d, past, e, later.events);
    EmailsCons(d, e, later.events);
  }

  // The record against the wire.

  function TextOf(e: Event): string {
    if e.LineRead? then e.line else e.text
  }

  function WireOf(events: seq<Event>): string {
    if events == [] then "" else TextOf(events[0]) + WireOf(events[1..])
  }

  /** A command line is one line and makes nothing panic; a message text is one that
      reading up to the terminating dot takes for `raw`. */
  ghost predicate Genuine(d: Dialect, e: Event) {
    match e
    case LineRead(line, _) => line != "" && LineLength(line) == |line| && !CommandOf(d, e).Crash?
    case MessageRead(text, _, _, raw, _) => ReadDataFrom(text, "") == Data(raw, "")
  }

  ghost predicate AllGenuine(d: Dialect, events: seq<Event>) {
    forall i :: 0 <= i < |events| ==> Genuine(d, events[i])
  }

  lemma {:induction false} LineLengthOfPrefix(s: string, n: nat)
    requires LineLength(s) <= n <= |s|
    ensures LineLength(s[..n]) == LineLength(s)
  {
    if s == "" || s[0] == '\n' {
    } else {
      LineLengthOfPrefix(s[1..], n - 1);
      assert s[..n][1..] == s[1..][..n - 1];
    }
  }

  lemma SameFirstLine(input: string, n: nat)
    requires LineLength(input) <= n <= |input|
    ensures FirstLine(input[..n]) == FirstLine(input)
    ensures AfterLine(input[..n]) == AfterLine(input)[..n - LineLength(input)]
  {
    LineLengthOfPrefix(input, n);
    PrefixSlices(input, n, LineLength(input));
  }

  lemma PrefixSlices(s: string, n: nat, k: nat)
    requires k <= n <= |s|
    ensures s[..n][..k] == s[..k] && s[..n][k..] == s[k..][..n - k]
  {
  }

  /** Cutting off what is left after a text does not change how it is read. */
  lemma {:induction false} ReadDataAlone(input: string, kept: string)
    requires ReadDataFrom(input, kept).Data?
    ensures var r := ReadDataFrom(input, kept); ReadDataFrom(input[..|input| - |r.rest|], kept) == Data(r.text, "")
    decreases |input|
  {
    var r := ReadDataFrom(input, kept);
    var line, n := TrimEol(FirstLine(input)), |input| - |r.rest|;
    if line == "." {
      SameFirstLine(input, n);
    } else {
      var next := kept + Unstuffed(line) + "\n";
      ReadDataAlone(AfterLine(input), next);
      SameFirstLine(input, n);
      ReadDataStep(input[..n], kept, line);
    }
  }

  lemma ReadDataStep(text: string, kept: string, line: string)
    requires text != "" && line == TrimEol(FirstLine(text)) && line != "."
    requires Utf8Len(kept) + Utf8Len(Unstuffed(line)) + 1 <= MAX_MESSAGE_BYTES
    ensures ReadDataFrom(text, kept) == ReadDataFrom(AfterLine(text), kept + Unstuffed(line) + "\n")
  {
  }

  lemma {:induction false} ReadDataRest(input: string, kept: string)
    requires ReadDataFrom(input, kept).Data?
    ensures var r := ReadDataFrom(input, kept); input[|input| - |r.rest|..] == r.rest
    decreases |input|
  {
    var line := TrimEol(FirstLine(input));
    if line == "." {
    } else {
      ReadDataRest(AfterLine(input), kept + Unstuffed(line) + "\n");
    }
  }

  /** The events are genuine and the input begins with them. */
  ghost predicate ReadFrom(d: Dialect, events: seq<Event>, input: string) {
    AllGenuine(d, events) && WireOf(events) <= input
  }

  lemma WireCons(d: Dialect, e: Event, events: seq<Event>, input: string, rest: string)
    requires Genuine(d, e) && input == TextOf(e) + rest && ReadFrom(d, events, rest)
    ensures ReadFrom(d, [e] + events, input)
  {
    assert ([e] + events)[1..] == events;
  }

  /** The events of a session are what its input begins with, line by line. */
  lemma {:induction false} EventsAreInput(d: Dialect, receiving: bool, input: string, st: Session)
    ensures ReadFrom(d, Serve(d, receiving, input, st).events, input)
    decreases |input|, 1
  {
    if receiving {
      var r := ReadDataFrom(input, "");
      if r.Data? {
        EventsAreInput(d, false, r.rest, Deliver(d, st, r.text));
        TextIsInput(d, input, st, r.text, r.rest, Serve(d, false, r.rest, Deliver(d, st, r.text)).events);
      }
    } else if input != "" && Utf8Len(FirstLine(input)) <= MAX_LINE_BYTES {
      LineIsInput(d, input, st);
    }
  }

  lemma TextIsInput(d: Dialect, input: string, st: Session, raw: string, rest: string, later: seq<Event>)
    requires ReadDataFrom(input, "") == Data(raw, rest) && ReadFrom(d, later, rest)
    ensures ReadFrom(d, [TextTaken(d, st, input, raw, rest)] + later, input)
  {
    var n := |input| - |rest|;
    ReadDataAlone(input, "");
    ReadDataRest(input, "");
    assert input == input[..n] + input[n..];
    WireCons(d, TextTaken(d, st, input, raw, rest), later, input, rest);
  }

  lemma {:induction false} LineIsInput(d: Dialect, input: string, st: Session)
    requires input != "" && Utf8Len(FirstLine(input)) <= MAX_LINE_BYTES
    ensures ReadFrom(d, Serve(d, false, input, st).events, input)
    decreases |input|, 0
  {
    var cmd, rest := d.parse(TrimEol(FirstLine(input))), AfterLine(input);
    var accepted := cmd.DataCommand? && ReadyForData(st);
    var e := LineRead(FirstLine(input), if accepted then d.startData else d.respond(cmd));
    LineLengthOfPrefix(input, LineLength(input));
    assert input == TextOf(e) + rest;
    if cmd.Quit? {
      WireCons(d, e, [], input, rest);
      assert [e] + [] == [e];
    } else if accepted {
      EventsAreInput(d, true, rest, st);
      WireCons(d, e, Serve(d, true, rest, st).events, input, rest);
    } else if !cmd.Crash? {
      EventsAreInput(d, false, rest, Effect(st, cmd));
      WireCons(d, e, Serve(d, false, rest, Effect(st, cmd)).events, input, rest);
    }
  }
}
