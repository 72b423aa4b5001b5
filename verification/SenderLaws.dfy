/** What the sender does when things are not as it expects, and what it writes into a
    message besides the body. */
module SenderLaws {
  import opened Prelude
  import opened Text
  import opened Wire
  import opened SmtpParsing
  import opened SmtpDialogue
  import opened SmtpExchange
  import opened Trimming
  import opened MessageParsing
  import opened MailLaws
  import C = SmtpClient

  // Going wrong.

  /** Credentials are never put on the wire without TLS, nor is anything else. */
  lemma CredentialsNeedTls(s: C.Sender, m: C.Message, replies: string)
    ensures s.hasCredentials && s.tlsMode == C.NoTls ==>
      C.Send(s, m, replies) == C.Sending("", C.Failed(AuthRequiresTls))
  {
  }

  function TextsOf(steps: seq<C.Step>): string {
    if steps == [] then "" else steps[0].text + TextsOf(steps[1..])
  }

  /** A reply that is read as `code`, whatever follows it. */
  ghost predicate ReadAs(reply: string, code: nat) {
    exists lines :: AlwaysUnderstood(reply, code, lines)
  }

  ghost predicate AlwaysUnderstood(reply: string, code: nat, lines: seq<string>) {
    forall later :: Understood(reply, later, code, lines)
  }

  function Concat(replies: seq<string>): string {
    if replies == [] then "" else replies[0] + Concat(replies[1..])
  }

  lemma FirstExpected(steps: seq<C.Step>, reply: string, rest: string, lines: seq<string>, ls: seq<string>)
    requires steps != [] && Understood(reply, rest, steps[0].expected, ls)
    ensures C.Play(steps, reply + rest, lines) == C.Play(steps[1..], rest, ls).After(steps[0].text)
  {
  }

  lemma FirstUnexpected(
      steps: seq<C.Step>, reply: string, code: nat, rest: string, lines: seq<string>, ls: seq<string>)
    requires steps != [] && Understood(reply, rest, code, ls) && code != steps[0].expected
    ensures var p := C.Play(steps, reply + rest, lines);
      p.output == TextsOf(steps[..1]) && p.result == Err(Rejected(code, steps[0].phase))
  {
    OneText(steps);
  }

  /** After replies that are as expected to the first steps, the sender stops at the
      first that is not: what it has written is the texts of the steps up to there. */
  lemma {:induction false} UnexpectedCodeStops(
      steps: seq<C.Step>, replies: seq<string>, last: string, code: nat, later: string, lines: seq<string>)
    requires |replies| < |steps| && forall i :: 0 <= i < |replies| ==> ReadAs(replies[i], steps[i].expected)
    requires ReadAs(last, code) && code != steps[|replies|].expected
    ensures var p := C.Play(steps, Concat(replies) + (last + later), lines);
      && p.output == TextsOf(steps[..|replies| + 1])
      && p.result == Err(Rejected(code, steps[|replies|].phase))
  {
    if replies == [] {
      var ls :| AlwaysUnderstood(last, code, ls);
      assert Understood(last, later, code, ls);
      assert Concat(replies) + (last + later) == last + later;
      FirstUnexpected(steps, last, code, later, lines, ls);
    } else {
      var ls :| AlwaysUnderstood(replies[0], steps[0].expected, ls);
      var rest := Concat(replies[1..]) + (last + later);
      ConcatAssociates(replies[0], Concat(replies[1..]), last + later);
      assert Understood(replies[0], rest, steps[0].expected, ls);
      FirstExpected(steps, replies[0], rest, lines, ls);
      UnexpectedCodeStops(steps[1..], replies[1..], last, code, later, ls);
      MoreTexts(steps, |replies|);
    }
  }

  /** And where the replies break off, with an end of stream. */
  lemma {:induction false} SilenceStops(steps: seq<C.Step>, replies: seq<string>, lines: seq<string>)
    requires |replies| < |steps| && forall i :: 0 <= i < |replies| ==> ReadAs(replies[i], steps[i].expected)
    ensures var p := C.Play(steps, Concat(replies), lines);
      p.output == TextsOf(steps[..|replies| + 1]) && p.result == Err(UnexpectedEof)
  {
    if replies == [] {
      OneText(steps);
    } else {
      var ls :| AlwaysUnderstood(replies[0], steps[0].expected, ls);
      assert Understood(replies[0], Concat(replies[1..]), steps[0].expected, ls);
      SilenceStops(steps[1..], replies[1..], ls);
      MoreTexts(steps, |replies|);
    }
  }

  lemma OneText(steps: seq<C.Step>)
    requires steps != []
    ensures TextsOf(steps[..1]) == steps[0].text
  {
    assert steps[..1][1..] == [];
    assert steps[0].text + "" == steps[0].text;
  }

  lemma MoreTexts(steps: seq<C.Step>, k: nat)
    requires 0 < k < |steps|
    ensures TextsOf(steps[..k + 1]) == steps[0].text + TextsOf(steps[1..][..k])
  {
    assert steps[..k + 1][1..] == steps[1..][..k];
  }

  /** A dialogue that went wrong is not followed by QUIT, and one that went well is. */
  lemma QuitOnlyAfterSuccess(p: C.Sent)
    ensures C.ThenQuit(p).output == if p.result.Ok? then p.output + "QUIT" + CRLF else p.output
    ensures C.ThenQuit(p).outcome == if p.result.Ok? then C.Delivered else C.Failed(p.result.error)
  {
    ConcatAssociates(p.output, "QUIT", CRLF);
  }

  /** A line that is no reply: shorter than its code, or with a code that is none. */
  lemma BadReplies(line: string, stream: string, lines: seq<string>)
    requires EolFree(line)
    ensures Utf8Len(line) < 3 ==> C.ReadReplyFrom(line + CRLF + stream, lines) == C.ReplyError(InvalidResponse)
    ensures |line| >= 3 && Ascii(line[..3]) && ParseUnsigned(line[..3], 0xFFFF).None? ==>
      C.ReadReplyFrom(line + CRLF + stream, lines) == C.ReplyError(InvalidResponse)
    ensures C.ReadReplyFrom("", lines) == C.ReplyError(UnexpectedEof)
  {
    ReadWrittenLine(line, stream);
    assert line + CRLF + stream != "";
    if |line| >= 3 && Ascii(line[..3]) {
      AsciiBytes(line[..3], line[3..]);
      assert line[..3] + line[3..] == line;
    }
  }

  /** A code and nothing after it ends a reply as well. */
  lemma BareCodeEndsReply(digits: string, code: nat, stream: string, lines: seq<string>)
    requires ReplyCode(digits, code) && EolFree(digits)
    ensures C.ReadReplyFrom(digits + CRLF + stream, lines) == C.Reply(code, lines + [digits], stream)
  {
    ReadWrittenLine(digits, stream);
    AsciiBytes(digits, "");
    assert digits + "" == digits && digits + CRLF + stream != "";
  }

  /** What each step expects, and what it is called if it fails. */
  lemma StepsExpect(s: C.Sender, to: string, message: string)
    ensures var steps := C.Opening(s) + C.Transaction(s, to, message);
      && |steps| == 6
      && steps[0].expected == 220 && steps[0].phase == "greeting"
      && steps[1].expected == 250 && steps[1].phase == "EHLO"
      && steps[2].expected == 250 && steps[2].phase == "MAIL FROM"
      && steps[3].expected == 250 && steps[3].phase == "RCPT TO"
      && steps[4].expected == 354 && steps[4].phase == "DATA"
      && steps[5].expected == 250 && steps[5].phase == "message"
  {
  }

  // What is written.

  /** Of a header value only the line ends are left out. */
  lemma {:induction false} HeaderSafeKeeps(value: string)
    requires EolFree(value)
    ensures C.HeaderSafe(value) == value
  {
    if value == "" {
    } else {
      HeaderSafeKeeps(value[..|value| - 1]);
    }
  }

  lemma HeaderSafeDrops(before: string, eol: char, after: string)
    requires IsEol(eol)
    ensures C.HeaderSafe(before + [eol] + after) == C.HeaderSafe(before + after)
  {
    var keep := (c: char) => c != '\r' && c != '\n';
    FilterSnoc(before, eol, keep);
    FilterAppend(before + [eol], after, keep);
    FilterAppend(before, after, keep);
    SafeIsFilter(before + [eol] + after, keep);
    SafeIsFilter(before + after, keep);
  }

  lemma SafeIsFilter(value: string, keep: char -> bool)
    requires forall c :: keep(c) == (c != '\r' && c != '\n')
    ensures C.HeaderSafe(value) == Filter(value, keep)
  {
    FilterSame(value, (c: char) => c != '\r' && c != '\n', keep);
  }

  lemma HeaderOf(name: string, value: string)
    requires PlainName(name)
    ensures Header(name + ": " + value, name, Trim(value))
  {
    var line, after := name + ": " + value, " " + value;
    assert line[..|name|] == name && line[|name|] == ':' && line[|name| + 1..] == after;
    assert name == "" + (name + "");
    assert Around(name, "", name, "");
    var lead, tail := SpaceAround(value);
    assert after == (" " + lead) + (Trim(value) + tail);
    assert Around(after, " " + lead, Trim(value), tail);
    assert HeaderAt(line, name, Trim(value), |name|, name);
  }

  lemma SpaceAround(value: string) returns (lead: string, tail: string)
    ensures Around(value, lead, Trim(value), tail)
  {
    TrimIsAround(value);
    lead, tail :| Around(value, lead, Trim(value), tail);
  }

  lemma OtherNames()
    ensures PlainName("Date") && PlainName("Message-ID")
  {
  }

  lemma LineIsHeader(line: string, prefix: string, name: string, value: string)
    requires PlainName(name) && prefix == name + ": " && line == prefix + value
    ensures Header(line, name, Trim(value))
  {
    HeaderOf(name, value);
  }

  /** The seven headers of a message: whom it is from and to and what it is about ... */
  lemma AddressHeadersWritten(from: string, to: string, subject: string, date: string, uuid: string)
    ensures var h := C.HeaderLines(from, to, subject, date, uuid);
      && |h| == 7 && Header(h[0], "From", Trim(C.HeaderSafe(from))) && Header(h[1], "To", Trim(C.HeaderSafe(to)))
      && Header(h[2], "Subject", Trim(C.HeaderSafe(subject)))
  {
    StandardNames();
    LineIsHeader("From: " + C.HeaderSafe(from), "From: ", "From", C.HeaderSafe(from));
    LineIsHeader("To: " + C.HeaderSafe(to), "To: ", "To", C.HeaderSafe(to));
    LineIsHeader("Subject: " + C.HeaderSafe(subject), "Subject: ", "Subject", C.HeaderSafe(subject));
  }

  /** ... its date and number, and its type. */
  lemma OtherHeadersWritten(from: string, to: string, subject: string, date: string, uuid: string)
    ensures var h, id := C.HeaderLines(from, to, subject, date, uuid), "<" + uuid + "@" + C.Domain(from) + ">";
      && |h| == 7 && Header(h[3], "Date", Trim(date)) && Header(h[4], "Message-ID", Trim(id))
      && h[5] == "MIME-Version: 1.0" && h[6] == "Content-Type: text/plain; charset=utf-8"
  {
    OtherNames();
    LineIsHeader("Date: " + date, "Date: ", "Date", date);
    var id := "<" + uuid + "@" + C.Domain(from) + ">";
    IdLine(uuid, C.Domain(from));
    LineIsHeader("Message-ID" + ": " + id, "Message-ID" + ": ", "Message-ID", id);
  }

  lemma IdLine(uuid: string, domain: string)
    ensures "Message-ID: <" + uuid + "@" + domain + ">" == "Message-ID" + ": " + ("<" + uuid + "@" + domain + ">")
  {
    var tail := uuid + "@" + domain + ">";
    assert "Message-ID: <" + uuid + "@" + domain + ">" == "Message-ID: <" + tail;
    assert "<" + uuid + "@" + domain + ">" == "<" + tail;
  }

  /** The domain of the Message-ID: what follows the last `@`, if there is anything. */
  lemma {:induction false} DomainExactly(local: string, domain: string)
    requires forall i :: 0 <= i < |domain| ==> domain[i] != '@'
    ensures C.Domain(local + "@" + domain) == if domain != "" then domain else "localhost"
    ensures C.Domain(domain) == "localhost"
  {
    NoAt(domain);
    LastAt(local, domain);
  }

  lemma {:induction false} NoAt(s: string)
    requires forall i :: 0 <= i < |s| ==> s[i] != '@'
    ensures C.AfterLastAt(s) == None
  {
    if s == "" {
    } else {
      NoAt(s[1..]);
    }
  }

  lemma {:induction false} LastAt(local: string, domain: string)
    requires forall i :: 0 <= i < |domain| ==> domain[i] != '@'
    ensures C.AfterLastAt(local + "@" + domain) == Some(domain)
  {
    var s := local + "@" + domain;
    if local == "" {
      assert s[0] == '@' && s[1..] == domain;
      NoAt(domain);
    } else {
      assert s[0] == local[0] && s[1..] == local[1..] + "@" + domain;
      LastAt(local[1..], domain);
    }
  }
}
