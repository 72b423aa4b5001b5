/** Section 4.1.4 of RFC 5321 on the wire: what a connection delivers, in terms of the
    MAIL, RCPT and RSET lines it has received. */
module WireSafety {
  import opened Prelude
  import opened Wire
  import opened SmtpParsing
  import opened SmtpServer
  import opened SmtpDialogue
  import opened SessionSafety
  import opened CommandLines

  function LineOf(e: Event): string {
    if e.LineRead? then TrimEol(e.line) else ""
  }

  /** A MAIL line, with or without an address, an RSET line, or a message text. */
  ghost predicate EndsEnvelope(e: Event) {
    e.MessageRead? || Says(LineOf(e), "MAIL") || Says(LineOf(e), "RSET")
  }

  /** `rcpts` are the addresses of the RCPT lines among these events, in order. */
  ghost predicate RecipientsOf(events: seq<Event>, rcpts: seq<string>) {
    if events == [] then rcpts == []
    else
      var n, e := |events| - 1, events[|events| - 1];
      if e.LineRead? && exists a :: GivesRecipient(LineOf(e), a) then
        rcpts != [] && GivesRecipient(LineOf(e), rcpts[|rcpts| - 1]) && RecipientsOf(events[..n], rcpts[..|rcpts| - 1])
      else RecipientsOf(events[..n], rcpts)
  }

  /** Line `j` gave the sender, nothing since has ended the envelope, and the RCPT lines
      since gave these recipients. */
  ghost predicate GivenBy(past: seq<Event>, j: int, sender: string, rcpts: seq<string>) {
    && 0 <= j < |past| && past[j].LineRead? && GivesSender(LineOf(past[j]), sender)
    && (forall k :: j < k < |past| ==> !EndsEnvelope(past[k]))
    && RecipientsOf(past[j + 1..], rcpts)
  }

  /** Sender and at least one recipient have been given. */
  ghost predicate EnvelopeGiven(past: seq<Event>) {
    exists j, sender, rcpts :: GivenBy(past, j, sender, rcpts) && rcpts != []
  }

  /** The latest event was a DATA line with a sender and a recipient given. */
  ghost predicate TextFollows(past: seq<Event>) {
    past != [] && Says(LineOf(past[|past| - 1]), "DATA") && EnvelopeGiven(past[..|past| - 1])
  }

  /** A message text follows a DATA line with a complete envelope and nothing else, is
      handed over with the sender and the recipients given, and acknowledged; a DATA line
      is answered 354 in a complete envelope, and any other line as its command is. */
  ghost predicate InOrder(hostname: string, past: seq<Event>, e: Event) {
    match e
    case MessageRead(_, envelopeFrom, rcpts, _, reply) =>
      && TextFollows(past) && rcpts != [] && (exists j :: GivenBy(past, j, envelopeFrom, rcpts))
      && reply == ClosingLine("250", QUEUED_TEXT)
    case LineRead(_, reply) =>
      && !TextFollows(past)
      && reply == if Says(LineOf(e), "DATA") && EnvelopeGiven(past) then ClosingLine("354", START_DATA_TEXT)
                  else Response(hostname, Interpret(LineOf(e)))
  }

  ghost predicate AllInOrder(hostname: string, events: seq<Event>) {
    forall i :: 0 <= i < |events| ==> InOrder(hostname, events[..i], events[i])
  }

  lemma ParsedOnWire(hostname: string, e: Event)
    requires Genuine(Catcher(hostname), e) && e.LineRead?
    ensures var cmd := CommandOf(Catcher(hostname), e);
      && cmd == Interpret(LineOf(e)) && (cmd.DataCommand? <==> Says(LineOf(e), "DATA"))
      && (cmd.Mail? <==> Says(LineOf(e), "MAIL")) && (cmd.Rset? <==> Says(LineOf(e), "RSET"))
      && (forall a :: cmd == Mail(Some(a)) <==> GivesSender(LineOf(e), a))
      && (forall a :: cmd == Rcpt(Some(a)) <==> GivesRecipient(LineOf(e), a))
  {
    CommandExactly(LineOf(e));
    CrashExactly(LineOf(e));
    MailOrRcptExactly(LineOf(e));
    SendersExactly(LineOf(e));
    RecipientsExactly(LineOf(e));
  }

  lemma {:induction false} RecipientsOnWire(hostname: string, events: seq<Event>, rcpts: seq<string>)
    requires AllGenuine(Catcher(hostname), events)
    ensures RecipientsOf(events, rcpts) <==> rcpts == Accepted(Catcher(hostname), events)
  {
    if events == [] {
    } else {
      var n := |events| - 1;
      RecipientsOnWire(hostname, events[..n], rcpts);
      if rcpts != [] {
        RecipientsOnWire(hostname, events[..n], rcpts[..|rcpts| - 1]);
        assert rcpts == rcpts[..|rcpts| - 1] + [rcpts[|rcpts| - 1]];
      }
      if events[n].LineRead? {
        ParsedOnWire(hostname, events[n]);
      }
    }
  }

  lemma EndsOnWire(hostname: string, e: Event)
    requires Genuine(Catcher(hostname), e)
    ensures EndsEnvelope(e) <==> ClearsEnvelope(Catcher(hostname), e)
  {
    if e.LineRead? {
      ParsedOnWire(hostname, e);
    }
  }

  lemma OpenedOnWire(hostname: string, past: seq<Event>, j: int, sender: string, rcpts: seq<string>)
    requires AllGenuine(Catcher(hostname), past)
    ensures OpenedBy(Catcher(hostname), past, j, sender, rcpts) <==> GivenBy(past, j, sender, rcpts)
  {
    if 0 <= j < |past| {
      if past[j].LineRead? {
        ParsedOnWire(hostname, past[j]);
      }
      forall k | j < k < |past|
        ensures EndsEnvelope(past[k]) <==> ClearsEnvelope(Catcher(hostname), past[k])
      {
        EndsOnWire(hostname, past[k]);
      }
      RecipientsOnWire(hostname, past[j + 1..], rcpts);
    }
  }

  lemma OpenOnWire(hostname: string, past: seq<Event>)
    requires AllGenuine(Catcher(hostname), past)
    ensures EnvelopeOpen(Catcher(hostname), past) <==> EnvelopeGiven(past)
  {
    forall j, sender, rcpts
      ensures OpenedBy(Catcher(hostname), past, j, sender, rcpts) <==> GivenBy(past, j, sender, rcpts)
    {
      OpenedOnWire(hostname, past, j, sender, rcpts);
    }
  }

  lemma AwaitsOnWire(hostname: string, past: seq<Event>)
    requires AllGenuine(Catcher(hostname), past)
    ensures AwaitsText(Catcher(hostname), past) <==> TextFollows(past)
  {
    if past != [] {
      var e := past[|past| - 1];
      OpenOnWire(hostname, past[..|past| - 1]);
      if e.LineRead? {
        ParsedOnWire(hostname, e);
      } else {
        NothingSaid("DATA");
      }
    }
  }

  /** An empty line is no command. */
  lemma NothingSaid(word: string)
    requires UpperCase(word) && word != ""
    ensures !Says("", word)
  {
    SaysExactly("", word);
    LineExactly("");
  }

  lemma InOrderOnWire(hostname: string, past: seq<Event>, e: Event)
    requires AllGenuine(Catcher(hostname), past) && Genuine(Catcher(hostname), e)
    requires JustifiedAfter(Catcher(hostname), past, e)
    ensures InOrder(hostname, past, e)
  {
    AwaitsOnWire(hostname, past);
    OpenOnWire(hostname, past);
    if e.LineRead? {
      ParsedOnWire(hostname, e);
    } else {
      var j :| OpenedBy(Catcher(hostname), past, j, e.envelopeFrom, e.rcpts);
      OpenedOnWire(hostname, past, j, e.envelopeFrom, e.rcpts);
    }
  }

  lemma AllInOrderOnWire(hostname: string, events: seq<Event>)
    requires AllGenuine(Catcher(hostname), events) && JustifiedFrom(Catcher(hostname), events, 0)
    ensures AllInOrder(hostname, events)
  {
    forall i | 0 <= i < |events|
      ensures InOrder(hostname, events[..i], events[i])
    {
      assert Justified(Catcher(hostname), events, i);
      InOrderOnWire(hostname, events[..i], events[i]);
    }
  }

  /** For whole connections, whatever is sent. The events are what the input begins with,
      line by line and text by text, and in order: DATA is accepted exactly when a MAIL
      line has given a sender and RCPT lines since have given recipients, with no RSET
      line and no message in between, and then a text is read and delivered to these.
      The mailbox grows by exactly these texts, and the output is the greeting and the
      replies. */
  lemma ConnectionIsSafe(hostname: string, input: string, mailbox: seq<Email>)
    ensures var served := Connection(hostname, input, mailbox);
      && ReadFrom(Catcher(hostname), served.events, input)
      && AllInOrder(hostname, served.events)
      && served.mailbox == mailbox + Emails(Catcher(hostname), served.events)
      && served.output == ClosingLine("220", hostname + " ESMTP cctf-rs catcher") + RepliesIn(served.events)
  {
    var d, st := Catcher(hostname), Session(None, [], mailbox);
    var events := Serve(d, false, input, st).events;
    DeliveriesAreJustified(d, false, input, st, []);
    EventsAreInput(d, false, input, st);
    assert [] + events == events;
    AllInOrderOnWire(hostname, events);
  }
}
