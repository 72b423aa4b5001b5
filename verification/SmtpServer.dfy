/** The SMTP catcher's session: command order, envelope, mailbox. */
module SmtpServer {
  import opened Prelude
  import opened Text
  import opened Wire
  import opened SmtpParsing

  // Replies.

  /** The last, or only, line of a reply. */
  function ClosingLine(code: string, text: string): string {
    code + " " + text + CRLF
  }

  /** A line of a reply that goes on. */
  function OngoingLine(code: string, text: string): string {
    code + "-" + text + CRLF
  }

  const SIZE := "SIZE 10485760"
  const UTF8 := "SMTPUTF8"

  function Response(hostname: string, cmd: Command): string {
    match cmd
    case Helo => ClosingLine("250", hostname)
    case Ehlo => OngoingLine("250", hostname) + OngoingLine("250", SIZE) + ClosingLine("250", UTF8)
    case Mail(_) => ClosingLine("250", "2.1.0 OK")
    case Rcpt(Some(_)) => ClosingLine("250", "2.1.5 OK")
    case Rcpt(None) => ClosingLine("501", "5.5.4 Syntax: RCPT TO:<address>")
    case DataCommand => ClosingLine("503", "5.5.1 Need MAIL and RCPT first")
    case Rset => ClosingLine("250", "2.0.0 OK")
    case Noop => ClosingLine("250", "2.0.0 OK")
    case Vrfy => ClosingLine("252", "2.5.2 Cannot VRFY user")
    case Quit => ClosingLine("221", "2.0.0 " + hostname + " closing connection")
    case Blank => ClosingLine("500", "5.5.2 Error: bad syntax")
    case Unknown => ClosingLine("502", "5.5.1 Command not implemented")
    case Crash => ""
  }

  const START_DATA_TEXT := "End data with <CR><LF>.<CR><LF>"
  const QUEUED_TEXT := "2.0.0 OK: message queued"

  function Greeting(hostname: string): string {
    ClosingLine("220", hostname + " ESMTP cctf-rs catcher")
  }

  /** What the command loop is built from: the session itself does not depend on
      how commands are parsed or replies are worded. */
  datatype Dialect = Dialect(
    parse: string -> Command,
    respond: Command -> string,
    startData: string,
    queued: string,
    parseEmail: (string, seq<string>, string) -> Email)

  function Catcher(hostname: string): Dialect {
    Dialect(Interpret, (cmd: Command) => Response(hostname, cmd),
            ClosingLine("354", START_DATA_TEXT), ClosingLine("250", QUEUED_TEXT), ParseEmail)
  }

  // The session.

  datatype Session = Session(mailFrom: Option<string>, rcpts: seq<string>, mailbox: seq<Email>)

  /** What is read in a session and what it is answered, for the record: command lines,
      and message texts with what is handed to the mail parser for them. */
  datatype Event =
    | LineRead(line: string, reply: string)
    | MessageRead(text: string, envelopeFrom: string, rcpts: seq<string>, raw: string, reply: string)

  datatype Ending = Finished | Failed(error: EmailError)

  datatype Served = Served(output: string, events: seq<Event>, mailbox: seq<Email>, ending: Ending) {
    function Prefixed(text: string, first: seq<Event>): Served {
      this.(output := text + output, events := first + events)
    }
  }

  predicate ReadyForData(st: Session) {
    st.mailFrom.Some? && st.rcpts != []
  }

  function Effect(st: Session, cmd: Command): Session {
    match cmd
    case Mail(sender) => st.(mailFrom := sender, rcpts := [])
    case Rcpt(Some(recipient)) => st.(rcpts := st.rcpts + [recipient])
    case Rset => st.(mailFrom := None, rcpts := [])
    case _ => st
  }

  function Deliver(d: Dialect, st: Session, raw: string): Session {
    Session(None, [], st.mailbox + [d.parseEmail(st.mailFrom.GetOr(""), st.rcpts, raw)])
  }

  /** The text taken off the input, up to `rest`. */
  function TextTaken(d: Dialect, st: Session, input: string, raw: string, rest: string): Event
    requires |rest| <= |input|
  {
    MessageRead(input[..|input| - |rest|], st.mailFrom.GetOr(""), st.rcpts, raw, d.queued)
  }

  /** What the catcher writes and keeps when `input` is all it is ever sent;
      `receiving` when it has answered DATA and awaits the text. */
  function Serve(d: Dialect, receiving: bool, input: string, st: Session): Served
    decreases |input|, !receiving
  {
    if receiving then
      match ReadDataFrom(input, "")
      case DataError(error) => Served("", [], st.mailbox, Failed(error))
      case Data(raw, rest) =>
        Serve(d, false, rest, Deliver(d, st, raw))
          .Prefixed(d.queued, [TextTaken(d, st, input, raw, rest)])
    else if input == "" then Served("", [], st.mailbox, Finished)
    else if Utf8Len(FirstLine(input)) > MAX_LINE_BYTES then Served("", [], st.mailbox, Failed(MessageTooLarge))
    else
      var cmd := d.parse(TrimEol(FirstLine(input)));
      var rest := AfterLine(input);
      if cmd.Crash? then Served("", [], st.mailbox, Failed(Panicked))
      else if cmd.Quit? then
        Served(d.respond(Quit), [LineRead(FirstLine(input), d.respond(Quit))], st.mailbox, Finished)
      else if cmd.DataCommand? && ReadyForData(st) then
        Serve(d, true, rest, st).Prefixed(d.startData, [LineRead(FirstLine(input), d.startData)])
      else
        Serve(d, false, rest, Effect(st, cmd)).Prefixed(d.respond(cmd), [LineRead(FirstLine(input), d.respond(cmd))])
  }

  /** One whole connection. */
  function Connection(hostname: string, input: string, mailbox: seq<Email>): Served {
    Serve(Catcher(hostname), false, input, Session(None, [], mailbox)).Prefixed(Greeting(hostname), [])
  }

  /** What is left of a session that has ended, or goes on. */
  function Onward(d: Dialect, ended: Option<Ending>, input: string, st: Session): Served {
    if ended.Some? then Served("", [], st.mailbox, ended.value) else Serve(d, false, input, st)
  }

  class Mailbox {
    var emails: seq<Email>
  }

  lemma PrefixedTwice(rest: Served, text: string, happened: seq<Event>, written: string, events: seq<Event>)
    ensures rest.Prefixed(text, happened).Prefixed(written, events) == rest.Prefixed(written + text, events + happened)
  {
    assert written + (text + rest.output) == written + text + rest.output;
    assert events + (happened + rest.events) == events + happened + rest.events;
  }

  lemma PrefixedByNothing(rest: Served)
    ensures rest.Prefixed("", []) == rest
  {
    assert "" + rest.output == rest.output;
    assert [] + rest.events == rest.events;
  }

  lemma PrefixOfNothing(emails: seq<Email>, ending: Ending, written: string, events: seq<Event>)
    ensures Served("", [], emails, ending).Prefixed(written, events) == Served(written, events, emails, ending)
  {
    assert written + "" == written;
    assert events + [] == events;
  }

  lemma ReceivedIsServed(d: Dialect, line: string, input: string, st: Session, raw: string, rest: string)
    requires ReadDataFrom(input, "") == Data(raw, rest)
    ensures Serve(d, true, input, st).Prefixed(d.startData, [LineRead(line, d.startData)])
         == Serve(d, false, rest, Deliver(d, st, raw))
              .Prefixed(d.startData + d.queued, [LineRead(line, d.startData)] + [TextTaken(d, st, input, raw, rest)])
  {
    PrefixedTwice(Serve(d, false, rest, Deliver(d, st, raw)), d.queued, [TextTaken(d, st, input, raw, rest)],
                  d.startData, [LineRead(line, d.startData)]);
  }

  /** The DATA command once accepted: the message is read, kept and acknowledged. */
  method ReceiveMessage(
      d: Dialect, socket: Socket, mailbox: Mailbox, mailFrom: Option<string>, rcpts: seq<string>, ghost line: string)
    returns (ended: Option<Ending>, ghost text: string, ghost happened: seq<Event>)
    modifies socket, mailbox
    ensures socket.outgoing == old(socket.outgoing) + text
    ensures ended.None? ==> |socket.incoming| < |old(socket.incoming)|
    ensures Serve(d, true, old(socket.incoming), Session(mailFrom, rcpts, old(mailbox.emails)))
              .Prefixed(d.startData, [LineRead(line, d.startData)])
         == Onward(d, ended, socket.incoming, Session(None, [], mailbox.emails)).Prefixed(text, happened)
  {
    socket.WriteAll(d.startData);
    var raw := ReadData(socket);
    if raw.Err? {
      PrefixOfNothing(mailbox.emails, Failed(raw.error), d.startData, [LineRead(line, d.startData)]);
      return Some(Failed(raw.error)), d.startData, [LineRead(line, d.startData)];
    }
    var email := d.parseEmail(mailFrom.GetOr(""), rcpts, raw.value);
    mailbox.emails := mailbox.emails + [email];
    socket.WriteAll(d.queued);
    ghost var st := Session(mailFrom, rcpts, old(mailbox.emails));
    ended, text := None, d.startData + d.queued;
    happened := [LineRead(line, d.startData)] + [TextTaken(d, st, old(socket.incoming), raw.value, socket.incoming)];
    ReceivedIsServed(d, line, old(socket.incoming), st, raw.value, socket.incoming);
    ConcatAssociates(old(socket.outgoing), d.startData, d.queued);
  }

  /** One turn of the command loop; `ended` when it was the last. */
  method ServeCommand(d: Dialect, socket: Socket, mailbox: Mailbox, mailFrom: Option<string>, rcpts: seq<string>)
    returns (ended: Option<Ending>, mailFrom': Option<string>, rcpts': seq<string>,
             ghost text: string, ghost happened: seq<Event>)
    modifies socket, mailbox
    ensures socket.outgoing == old(socket.outgoing) + text
    ensures ended.None? ==> |socket.incoming| < |old(socket.incoming)|
    ensures Serve(d, false, old(socket.incoming), Session(mailFrom, rcpts, old(mailbox.emails)))
         == Onward(d, ended, socket.incoming, Session(mailFrom', rcpts', mailbox.emails)).Prefixed(text, happened)
  {
    ended, mailFrom', rcpts', text, happened := None, mailFrom, rcpts, "", [];
    if socket.incoming == "" {
      ended := Some(Finished);
      return;
    }
    var line := socket.ReadLine();
    if Utf8Len(line) > MAX_LINE_BYTES {
      ended := Some(Failed(MessageTooLarge));
      return;
    }
    var cmd := d.parse(TrimEol(line));
    if cmd.Crash? {
      ended := Some(Failed(Panicked));
    } else if cmd.DataCommand? && mailFrom.Some? && rcpts != [] {
      ended, text, happened := ReceiveMessage(d, socket, mailbox, mailFrom, rcpts, line);
      mailFrom', rcpts' := None, [];
    } else {
      match cmd {
        case Mail(sender) => mailFrom', rcpts' := sender, [];
        case Rcpt(Some(recipient)) => rcpts' := rcpts + [recipient];
        case Rset => mailFrom', rcpts' := None, [];
        case _ =>
      }
      socket.WriteAll(d.respond(cmd));
      text, happened := d.respond(cmd), [LineRead(line, d.respond(cmd))];
      if cmd.Quit? {
        ended := Some(Finished);
      }
    }
  }

  method ServeSession(d: Dialect, socket: Socket, mailbox: Mailbox) returns (ending: Ending, ghost events: seq<Event>)
    modifies socket, mailbox
    ensures var served := Serve(d, false, old(socket.incoming), Session(None, [], old(mailbox.emails)));
      && socket.outgoing == old(socket.outgoing) + served.output
      && mailbox.emails == served.mailbox
      && events == served.events
      && ending == served.ending
  {
    ghost var full := Serve(d, false, socket.incoming, Session(None, [], mailbox.emails));
    PrefixedByNothing(full);
    ghost var written := "";
    var mailFrom: Option<string>, rcpts: seq<string> := None, [];
    events := [];
    while true
      invariant socket.outgoing == old(socket.outgoing) + written
      invariant full
             == Serve(d, false, socket.incoming, Session(mailFrom, rcpts, mailbox.emails)).Prefixed(written, events)
      decreases |socket.incoming|
    {
      ghost var text, happened;
      var ended;
      ended, mailFrom, rcpts, text, happened := ServeCommand(d, socket, mailbox, mailFrom, rcpts);
      ghost var rest := Onward(d, ended, socket.incoming, Session(mailFrom, rcpts, mailbox.emails));
      PrefixedTwice(rest, text, happened, written, events);
      ConcatAssociates(old(socket.outgoing), written, text);
      written, events := written + text, events + happened;
      if ended.Some? {
        PrefixOfNothing(mailbox.emails, ended.value, written, events);
        return ended.value, events;
      }
    }
  }

  method HandleConnection(socket: Socket, hostname: string, mailbox: Mailbox)
    returns (ending: Ending, ghost events: seq<Event>)
    modifies socket, mailbox
    ensures var served := Connection(hostname, old(socket.incoming), old(mailbox.emails));
      && socket.outgoing == old(socket.outgoing) + served.output
      && mailbox.emails == served.mailbox
      && events == served.events
      && ending == served.ending
  {
    var greeting, catcher := Greeting(hostname), Catcher(hostname);
    ghost var served := Serve(catcher, false, socket.incoming, Session(None, [], mailbox.emails));
    GreetingFirst(socket.outgoing, greeting, served);
    socket.WriteAll(greeting);
    ending, events := ServeSession(catcher, socket, mailbox);
  }

  lemma GreetingFirst(before: string, greeting: string, served: Served)
    ensures before + served.Prefixed(greeting, []).output == before + greeting + served.output
    ensures served.Prefixed(greeting, []).events == served.events
  {
    assert before + (greeting + served.output) == before + greeting + served.output;
    assert [] + served.events == served.events;
  }
}
