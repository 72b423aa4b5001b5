/** How the sender's commands are understood and the catcher's replies are read. */
module SmtpDialogue {
  import opened Prelude
  import opened Text
  import opened Wire
  import opened SmtpParsing
  import C = SmtpClient

  predicate Ascii(s: string) {
    forall i :: 0 <= i < |s| ==> s[i] < '\U{80}'
  }

  lemma {:induction false} AsciiBytes(p: string, rest: string)
    requires Ascii(p)
    ensures Utf8Len(p) == |p|
    ensures BytePrefix(p + rest, |p|) == Some(p)
    ensures Utf8Len(p + rest) >= |p|
  {
    Utf8LenAppend(p, rest);
    if p == "" {
    } else {
      AsciiBytes(p[1..], rest);
      assert (p + rest)[1..] == p[1..] + rest && [p[0]] + p[1..] == p;
    }
  }

  // Commands.

  predicate SpaceFree(s: string) {
    forall i :: 0 <= i < |s| ==> !IsWhitespace(s[i])
  }

  lemma {:induction false} FirstSpaceAfter(word: string, rest: string)
    requires SpaceFree(word) && (rest == "" || IsWhitespace(rest[0]))
    ensures FirstSpace(word + rest) == |word|
  {
    var s := word + rest;
    if word == "" {
    } else {
      assert s[0] == word[0] && s[1..] == word[1..] + rest;
      FirstSpaceAfter(word[1..], rest);
    }
  }

  predicate UpperCase(s: string) {
    forall i :: 0 <= i < |s| ==> 'A' <= s[i] <= 'Z'
  }

  lemma UpperIsUpper(s: string)
    requires UpperCase(s)
    ensures Upper(s) == s
  {
  }

  lemma VerbWithArgument(verb: string, argument: string)
    requires verb != "" && UpperCase(verb) && (argument == "" || !IsWhitespace(argument[0]))
    ensures SplitVerb(verb + " " + argument) == Value((verb, argument))
  {
    var line := verb + " " + argument;
    assert line == verb + (" " + argument);
    FirstSpaceAfter(verb, " " + argument);
    assert line[0] == verb[0];
    assert line[..|verb|] == verb && line[|verb| + 1..] == argument;
    UpperIsUpper(verb);
  }

  lemma VerbAlone(verb: string)
    requires verb != "" && UpperCase(verb)
    ensures SplitVerb(verb) == Value((verb, ""))
  {
    FirstSpaceAfter(verb, "");
    assert verb + "" == verb;
    UpperIsUpper(verb);
  }

  /** An address in angle brackets after the keyword is always found. */
  lemma AddressIsFound(prefix: string, inside: string)
    requires prefix != "" && Ascii(prefix) && !IsWhitespace(prefix[0])
    ensures ParseAddr(prefix + "<" + inside + ">", prefix).Value?
    ensures ParseAddr(prefix + "<" + inside + ">", prefix).value.Some?
  {
    var rest := prefix + "<" + inside + ">";
    assert rest == prefix + ("<" + inside + ">");
    AsciiBytes(prefix, "<" + inside + ">");
    assert TrimStart(rest) == rest;
  }

  function MailLine(from: string): string {
    "MAIL FROM:<" + from + ">"
  }

  function RcptLine(to: string): string {
    "RCPT TO:<" + to + ">"
  }

  function EhloLine(name: string): string {
    "EHLO " + name
  }

  lemma MailIsUnderstood(from: string)
    ensures Interpret(MailLine(from)).Mail? && Interpret(MailLine(from)).sender.Some?
  {
    var argument := "FROM:" + "<" + from + ">";
    assert MailLine(from) == "MAIL" + " " + argument;
    assert argument[0] == 'F';
    VerbWithArgument("MAIL", argument);
    AddressIsFound("FROM:", from);
  }

  lemma RcptIsUnderstood(to: string)
    ensures Interpret(RcptLine(to)).Rcpt? && Interpret(RcptLine(to)).recipient.Some?
  {
    var argument := "TO:" + "<" + to + ">";
    assert RcptLine(to) == "RCPT" + " " + argument;
    assert argument[0] == 'T';
    VerbWithArgument("RCPT", argument);
    AddressIsFound("TO:", to);
  }

  lemma EhloIsUnderstood(name: string)
    ensures Interpret(EhloLine(name)) == Ehlo
  {
    var line := EhloLine(name);
    assert line == "EHLO" + (" " + name);
    FirstSpaceAfter("EHLO", " " + name);
    assert line[0] == 'E' && line[..4] == "EHLO" && line[4] == ' ';
    UpperIsUpper("EHLO");
  }

  lemma DataIsUnderstood()
    ensures Interpret("DATA") == DataCommand
  {
    VerbAlone("DATA");
  }

  lemma QuitIsUnderstood()
    ensures Interpret("QUIT") == Quit
  {
    VerbAlone("QUIT");
  }

  // Replies.

  predicate ReplyCode(digits: string, code: nat) {
    |digits| == 3 && Ascii(digits) && digits[0] != '+' && ParseUnsigned(digits, 0xFFFF) == Some(code)
  }

  lemma ReplyLine(digits: string, code: nat, mark: string, text: string, stream: string, lines: seq<string>)
    requires ReplyCode(digits, code) && |mark| == 1 && EolFree(digits + mark + text)
    ensures var line := digits + mark + text;
      C.ReadReplyFrom(line + CRLF + stream, lines)
      == if mark == " " then C.Reply(code, lines + [line], stream) else C.ReadReplyFrom(stream, lines + [line])
  {
    var line := digits + mark + text;
    assert line == digits + (mark + text);
    AsciiBytes(digits, mark + text);
    ReadWrittenLine(line, stream);
    assert line[3] == mark[0] && (mark == " " <==> mark[0] == ' ');
    assert line + CRLF + stream != "";
  }

  lemma KnownCodes()
    ensures ReplyCode("220", 220) && ReplyCode("250", 250) && ReplyCode("354", 354)
  {
    DigitsOf('2', '2', '0');
    DigitsOf('2', '5', '0');
    DigitsOf('3', '5', '4');
    assert "220" == ['2', '2', '0'] && "250" == ['2', '5', '0'] && "354" == ['3', '5', '4'];
  }

  lemma DigitsOf(a: char, b: char, c: char)
    requires IsDigit(a) && IsDigit(b) && IsDigit(c)
    ensures DigitsValue([a, b, c])
         == Some((a as int - '0' as int) * 100 + (b as int - '0' as int) * 10 + (c as int - '0' as int))
  {
    assert [a, b, c][..2] == [a, b] && [a, b][..1] == [a] && [a][..0] == [];
    assert DigitsValue([a]) == Some(a as int - '0' as int);
    assert DigitsValue([a, b]) == Some((a as int - '0' as int) * 10 + (b as int - '0' as int));
  }
}
