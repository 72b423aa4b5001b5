/** Command lines as the catcher takes them apart, in terms of their characters: which
    line is which command, with which address, and which lines make it panic. */
module CommandLines {
  import opened Prelude
  import opened Text
  import opened Trimming
  import opened Wire
  import opened SmtpParsing
  import opened SmtpServer
  import opened SmtpDialogue

  // Bytes and characters.

  /** Byte `n` of the string falls inside one of its characters. */
  ghost predicate InsideChar(s: string, n: nat) {
    exists i :: 0 <= i < |s| && Utf8Len(s[..i]) < n < Utf8Len(s[..i + 1])
  }

  lemma PrefixLen(s: string, i: nat)
    requires 1 <= i <= |s|
    ensures Utf8Len(s[..i]) == CharBytes(s[0]) + Utf8Len(s[1..][..i - 1])
  {
    assert s[..i][1..] == s[1..][..i - 1];
  }

  lemma InsideMeansLonger(s: string, n: nat)
    requires InsideChar(s, n)
    ensures Utf8Len(s) > n
  {
    var i :| 0 <= i < |s| && Utf8Len(s[..i]) < n < Utf8Len(s[..i + 1]);
    Utf8LenAppend(s[..i + 1], s[i + 1..]);
    assert s[..i + 1] + s[i + 1..] == s;
  }

  lemma InsideRest(s: string, n: nat)
    requires s != "" && CharBytes(s[0]) <= n
    ensures InsideChar(s, n) <==> InsideChar(s[1..], n - CharBytes(s[0]))
  {
    var rest, m := s[1..], n - CharBytes(s[0]);
    assert Utf8Len(s[..1]) == CharBytes(s[0]) by {
      PrefixLen(s, 1);
    }
    if InsideChar(s, n) {
      var i :| 0 <= i < |s| && Utf8Len(s[..i]) < n < Utf8Len(s[..i + 1]);
      PrefixLen(s, i);
      PrefixLen(s, i + 1);
      assert Utf8Len(rest[..i - 1]) < m < Utf8Len(rest[..i - 1 + 1]);
    }
    if InsideChar(rest, m) {
      var i :| 0 <= i < |rest| && Utf8Len(rest[..i]) < m < Utf8Len(rest[..i + 1]);
      PrefixLen(s, i + 1);
      PrefixLen(s, i + 2);
      assert Utf8Len(s[..i + 1]) < n < Utf8Len(s[..i + 1 + 1]);
    }
  }

  /** Slicing off the first `n` bytes fails past the end or inside a character. */
  lemma {:induction false} BytePrefixFails(s: string, n: nat)
    ensures BytePrefix(s, n).None? <==> Utf8Len(s) < n || InsideChar(s, n)
  {
    if n > 0 && s != "" {
      if CharBytes(s[0]) > n {
        PrefixLen(s, 1);
        assert Utf8Len(s[..0]) < n < Utf8Len(s[..0 + 1]);
      } else {
        BytePrefixFails(s[1..], n - CharBytes(s[0]));
        InsideRest(s, n);
      }
    }
  }

  lemma AddressPanics(argument: string, prefix: string)
    requires argument == "" || !IsWhitespace(argument[0])
    requires Ascii(prefix)
    ensures ParseAddr(argument, prefix).Panic? <==> InsideChar(argument, |prefix|)
  {
    AsciiBytes(prefix, "");
    BytePrefixFails(argument, |prefix|);
    if InsideChar(argument, |prefix|) {
      InsideMeansLonger(argument, |prefix|);
    }
  }

  // A line is a word, and perhaps an argument.

  /** White space, a word, one white-space character, and an argument after any more. */
  ghost predicate Splits(line: string, lead: string, verb: string, sep: char, gap: string, argument: string) {
    && line == lead + (verb + ([sep] + (gap + argument)))
    && AllSpace(lead) && verb != "" && SpaceFree(verb) && IsWhitespace(sep) && AllSpace(gap)
    && (argument == "" || !IsWhitespace(argument[0]))
  }

  lemma {:induction false} WordBeforeSpace(s: string)
    ensures SpaceFree(s[..FirstSpace(s)])
  {
    if s != "" && !IsWhitespace(s[0]) {
      WordBeforeSpace(s[1..]);
      var n := FirstSpace(s);
      forall i | 0 <= i < n
        ensures !IsWhitespace(s[..n][i])
      {
        if i > 0 {
          assert s[..n][i] == s[1..][..n - 1][i - 1];
        }
      }
    }
  }

  lemma SplitLine(line: string, lead: string, verb: string, sep: char, gap: string, argument: string)
    requires Splits(line, lead, verb, sep, gap, argument)
    ensures SplitVerb(line) == if CharBytes(sep) > 1 then Panic else Value((Upper(verb), argument))
  {
    var rest := gap + argument;
    var text := verb + ([sep] + rest);
    assert text[0] == verb[0];
    TrimStartOf(lead, text);
    FirstSpaceAfter(verb, [sep] + rest);
    assert text[..|verb|] == verb && text[|verb|] == sep && text[|verb| + 1..] == rest;
    TrimStartOf(gap, argument);
  }

  lemma SplitExists(line: string) returns (lead: string, verb: string, sep: char, gap: string, argument: string)
    requires FirstSpace(TrimStart(line)) < |TrimStart(line)|
    ensures Splits(line, lead, verb, sep, gap, argument)
  {
    lead := TrimStartSplits(line);
    var text := TrimStart(line);
    var n := FirstSpace(text);
    WordBeforeSpace(text);
    verb, sep := text[..n], text[n];
    gap := TrimStartSplits(text[n + 1..]);
    argument := TrimStart(text[n + 1..]);
    assert text == verb + ([sep] + text[n + 1..]) by {
      SplitAt(text, n);
    }
  }

  lemma SplitAt(s: string, n: nat)
    requires n < |s|
    ensures s == s[..n] + ([s[n]] + s[n + 1..])
  {
  }

  /** A word and nothing after it, with no more than white space in front. */
  ghost predicate Alone(line: string, lead: string, verb: string) {
    line == lead + verb && AllSpace(lead) && verb != "" && SpaceFree(verb)
  }

  lemma AloneIsVerb(line: string, lead: string, verb: string)
    requires Alone(line, lead, verb)
    ensures SplitVerb(line) == Value((Upper(verb), ""))
  {
    TrimStartOf(lead, verb);
    FirstSpaceAfter(verb, "");
    assert verb + "" == verb;
  }

  /** The line reads as this word and this argument, a one-byte separator between them. */
  ghost predicate Reads(line: string, verb: string, argument: string) {
    || (argument == "" && exists lead :: Alone(line, lead, verb))
    || (exists lead, sep, gap :: Splits(line, lead, verb, sep, gap, argument) && CharBytes(sep) == 1)
  }

  /** The separator after the word takes more than one byte. */
  ghost predicate WideSeparator(line: string) {
    exists lead, verb, sep, gap, argument :: Splits(line, lead, verb, sep, gap, argument) && CharBytes(sep) > 1
  }

  lemma ReadsIsSplit(line: string, verb: string, argument: string)
    requires Reads(line, verb, argument)
    ensures SplitVerb(line) == Value((Upper(verb), argument)) && verb != ""
    ensures argument == "" || !IsWhitespace(argument[0])
  {
    if argument == "" && exists lead :: Alone(line, lead, verb) {
      var lead :| Alone(line, lead, verb);
      AloneIsVerb(line, lead, verb);
    } else {
      var lead, sep, gap :| Splits(line, lead, verb, sep, gap, argument) && CharBytes(sep) == 1;
      SplitLine(line, lead, verb, sep, gap, argument);
    }
  }

  lemma WideIsPanic(line: string)
    requires WideSeparator(line)
    ensures SplitVerb(line).Panic?
  {
    var lead, verb, sep, gap, argument :| Splits(line, lead, verb, sep, gap, argument) && CharBytes(sep) > 1;
    SplitLine(line, lead, verb, sep, gap, argument);
  }

  /** Every line is white space, or reads as a word and an argument, or has a wide separator. */
  lemma LineExactly(line: string)
    ensures AllSpace(line) || WideSeparator(line) || exists verb, argument :: Reads(line, verb, argument)
    ensures AllSpace(line) ==> SplitVerb(line) == Value(("", ""))
    ensures !AllSpace(line) && !WideSeparator(line) ==> SplitVerb(line).Value? && SplitVerb(line).value.0 != ""
  {
    var lead := TrimStartSplits(line);
    var text := TrimStart(line);
    if text == "" {
      assert lead + "" == lead;
    } else if FirstSpace(text) < |text| {
      var l, verb, sep, gap, argument := SplitExists(line);
      if CharBytes(sep) == 1 {
        assert Reads(line, verb, argument);
        ReadsIsSplit(line, verb, argument);
      } else {
        assert WideSeparator(line);
      }
      assert !AllSpace(line) by {
        assert line[|lead|] == text[0];
      }
    } else {
      WordBeforeSpace(text);
      assert text[..|text|] == text;
      assert Alone(line, lead, text);
      assert Reads(line, text, "");
      ReadsIsSplit(line, text, "");
      assert !AllSpace(line) by {
        assert line[|lead|] == text[0];
      }
    }
    if AllSpace(line) {
      assert line + "" == line;
      TrimStartOf(line, "");
      assert Upper("") == "";
    }
  }

  // Words, in any case.

  /** The upper-case letter itself, its lower case, or one of the two further
      characters whose upper case it is. */
  predicate SpellsLetter(c: char, letter: char) {
    || c == letter || ('A' <= letter <= 'Z' && c == 'a' + (letter - 'A'))
    || (letter == 'I' && c == '\U{131}') || (letter == 'S' && c == '\U{17F}')
  }

  predicate Spells(verb: string, word: string) {
    |verb| == |word| && forall i :: 0 <= i < |verb| ==> SpellsLetter(verb[i], word[i])
  }

  lemma UpperExactly(verb: string, word: string)
    requires UpperCase(word)
    ensures Upper(verb) == word <==> Spells(verb, word)
  {
    if Upper(verb) == word {
      forall i | 0 <= i < |verb|
        ensures SpellsLetter(verb[i], word[i])
      {
        assert Upper(verb)[i] == word[i];
      }
    }
    if Spells(verb, word) {
      forall i | 0 <= i < |verb|
        ensures Upper(verb)[i] == word[i]
      {
      }
    }
  }

  /** The line is the command of this name. */
  ghost predicate Says(line: string, word: string) {
    exists verb, argument :: Reads(line, verb, argument) && Spells(verb, word)
  }

  lemma SaysExactly(line: string, word: string)
    requires UpperCase(word) && word != ""
    ensures Says(line, word) <==> SplitVerb(line).Value? && SplitVerb(line).value.0 == word
  {
    forall verb, argument | Reads(line, verb, argument)
      ensures SplitVerb(line) == Value((Upper(verb), argument)) && (Upper(verb) == word <==> Spells(verb, word))
    {
      ReadsIsSplit(line, verb, argument);
      UpperExactly(verb, word);
    }
    LineExactly(line);
    if WideSeparator(line) {
      WideIsPanic(line);
    }
  }

  // Addresses.

  /** The argument starts with the keyword, in any case. */
  predicate Keyword(argument: string, prefix: string) {
    |argument| >= |prefix| && forall i :: 0 <= i < |prefix| ==> KeywordLetter(argument[i], prefix[i])
  }

  predicate KeywordLetter(c: char, letter: char) {
    c == letter || ('A' <= letter <= 'Z' && c == 'a' + (letter - 'A'))
  }

  predicate NoLowerCase(s: string) {
    forall i :: 0 <= i < |s| ==> !('a' <= s[i] <= 'z')
  }

  lemma KeywordExactly(argument: string, prefix: string)
    requires NoLowerCase(prefix) && |argument| >= |prefix|
    ensures EqIgnoreAsciiCase(argument[..|prefix|], prefix) <==> Keyword(argument, prefix)
  {
    var head := argument[..|prefix|];
    forall i | 0 <= i < |prefix|
      ensures AsciiLower(head[i]) == AsciiLower(prefix[i]) <==> KeywordLetter(argument[i], prefix[i])
    {
      assert head[i] == argument[i];
    }
  }

  /** Inside and up to the first closing bracket, or whatever there is. */
  ghost predicate Inside(text: string, inside: string, after: string) {
    text == inside + after && (after == "" || after[0] == '>')
    && forall i :: 0 <= i < |inside| ==> inside[i] != '>'
  }

  /** The address in a text: what the brackets hold if it starts with one, else all of
      it, without the white space around. */
  ghost predicate Address(text: string, address: string) {
    exists body :: CoreOf(text, body) && Holds(body, address)
  }

  ghost predicate Holds(body: string, address: string) {
    if body != "" && body[0] == '<' then
      exists inside, after :: Inside(body[1..], inside, after) && CoreOf(inside, address)
    else address == body
  }

  lemma {:induction false} UpToExactly(s: string)
    ensures exists after :: Inside(s, UpTo(s, '>'), after)
    ensures forall inside, after :: Inside(s, inside, after) ==> inside == UpTo(s, '>')
  {
    if s == "" || s[0] == '>' {
      assert "" + s == s;
      assert UpTo(s, '>') == "" && Inside(s, "", s);
      assert Inside(s, UpTo(s, '>'), s);
      forall inside, after | Inside(s, inside, after)
        ensures inside == ""
      {
      }
    } else {
      UpToExactly(s[1..]);
      var after :| Inside(s[1..], UpTo(s[1..], '>'), after);
      assert s == [s[0]] + s[1..];
      ConcatAssociates([s[0]], UpTo(s[1..], '>'), after);
      assert Inside(s, UpTo(s, '>'), after);
      forall inside, after' | Inside(s, inside, after')
        ensures inside == UpTo(s, '>')
      {
        InsideTail(s, inside, after');
      }
    }
  }

  lemma InsideTail(s: string, inside: string, after: string)
    requires s != "" && s[0] != '>' && Inside(s, inside, after)
    ensures inside != "" && inside[0] == s[0] && Inside(s[1..], inside[1..], after) && inside == [s[0]] + inside[1..]
  {
    assert inside != "" || inside + after == after;
    assert (inside + after)[1..] == inside[1..] + after;
  }

  /** What is taken for the address. */
  function AddressPart(text: string): string {
    var body := Trim(text);
    Trim(if body != "" && body[0] == '<' then UpTo(body[1..], '>') else body)
  }

  lemma HoldsExactly(body: string, address: string)
    requires Trim(body) == body
    ensures Holds(body, address)
       <==> Trim(if body != "" && body[0] == '<' then UpTo(body[1..], '>') else body) == address
  {
    if body != "" && body[0] == '<' {
      var inside := UpTo(body[1..], '>');
      UpToExactly(body[1..]);
      CoreExactly(inside, address);
      var after :| Inside(body[1..], inside, after);
    }
  }

  lemma AddressPartExactly(text: string, address: string)
    ensures Address(text, address) <==> AddressPart(text) == address
  {
    var body := Trim(text);
    forall b ensures CoreOf(text, b) <==> b == body {
      CoreExactly(text, b);
    }
    CoreIsItself(text);
    HoldsExactly(body, address);
  }

  lemma CoreIsItself(text: string)
    ensures Trim(Trim(text)) == Trim(text)
  {
    CoreExactly(text, Trim(text));
    var lead, tail :| Around(text, lead, Trim(text), tail);
    assert Trim(text) == "" + (Trim(text) + "");
    assert Around(Trim(text), "", Trim(text), "");
    CoreExactly(Trim(text), Trim(text));
  }

  lemma AddressFound(head: string, tail: string, prefix: string)
    requires Ascii(head) && Ascii(prefix) && |head| == |prefix| && EqIgnoreAsciiCase(head, prefix)
    requires head + tail == "" || !IsWhitespace((head + tail)[0])
    ensures ParseAddr(head + tail, prefix) == Value(Some(AddressPart(tail)))
  {
    AsciiBytes(prefix, "");
    AsciiBytes(head, tail);
    assert TrimStart(head + tail) == head + tail && (head + tail)[|head|..] == tail;
  }

  lemma AddressMissed(argument: string, prefix: string)
    requires (argument == "" || !IsWhitespace(argument[0])) && Ascii(prefix)
    requires |argument| >= |prefix| ==> !EqIgnoreAsciiCase(argument[..|prefix|], prefix)
    ensures ParseAddr(argument, prefix).Value? ==> ParseAddr(argument, prefix).value.None?
  {
    AsciiBytes(prefix, "");
    assert TrimStart(argument) == argument;
  }

  /** An address is found - be it empty, or not an address at all - exactly after the
      keyword, and this is the one. */
  lemma AddressExactly(argument: string, prefix: string)
    requires argument == "" || !IsWhitespace(argument[0])
    requires Ascii(prefix) && NoLowerCase(prefix)
    ensures var read := ParseAddr(argument, prefix);
      && (read.Value? && read.value.Some? <==> Keyword(argument, prefix))
      && (Keyword(argument, prefix) ==> read.value.value == AddressPart(argument[|prefix|..]))
  {
    if |argument| >= |prefix| {
      KeywordExactly(argument, prefix);
    }
    if Keyword(argument, prefix) {
      KeywordIsAscii(argument, prefix);
      assert argument[..|prefix|] + argument[|prefix|..] == argument;
      AddressFound(argument[..|prefix|], argument[|prefix|..], prefix);
    } else {
      AddressMissed(argument, prefix);
    }
  }

  lemma KeywordIsAscii(argument: string, prefix: string)
    requires Keyword(argument, prefix) && Ascii(prefix)
    ensures Ascii(argument[..|prefix|])
  {
  }

  // Which line is which command.

  lemma VerbDecides(line: string, word: string, argument: string)
    requires SplitVerb(line) == Value((word, argument)) && (argument == "" || !IsWhitespace(argument[0]))
    ensures var cmd := Interpret(line);
      && (cmd.Helo? <==> word == "HELO") && (cmd.Ehlo? <==> word == "EHLO") && (cmd.DataCommand? <==> word == "DATA")
      && (cmd.Rset? <==> word == "RSET") && (cmd.Noop? <==> word == "NOOP") && (cmd.Vrfy? <==> word == "VRFY")
      && (cmd.Quit? <==> word == "QUIT") && (cmd.Blank? <==> word == "")
      && (cmd.Mail? || cmd.Rcpt? || cmd.Crash? ==> word == "MAIL" || word == "RCPT")
  {
  }

  /** Exactly the lines taken for each of the commands without an address, and those
      taken for none. */
  lemma CommandExactly(line: string)
    ensures var cmd := Interpret(line);
      && (cmd.Helo? <==> Says(line, "HELO")) && (cmd.Ehlo? <==> Says(line, "EHLO"))
      && (cmd.DataCommand? <==> Says(line, "DATA")) && (cmd.Rset? <==> Says(line, "RSET"))
      && (cmd.Noop? <==> Says(line, "NOOP")) && (cmd.Vrfy? <==> Says(line, "VRFY"))
      && (cmd.Quit? <==> Says(line, "QUIT")) && (cmd.Blank? <==> AllSpace(line))
  {
    SaysExactly(line, "HELO");
    SaysExactly(line, "EHLO");
    SaysExactly(line, "DATA");
    SaysExactly(line, "RSET");
    SaysExactly(line, "NOOP");
    SaysExactly(line, "VRFY");
    SaysExactly(line, "QUIT");
    LineExactly(line);
    if SplitVerb(line).Value? {
      ArgumentStarts(line);
      VerbDecides(line, SplitVerb(line).value.0, SplitVerb(line).value.1);
    }
    if WideSeparator(line) {
      WideIsPanic(line);
    }
  }

  lemma ArgumentStarts(line: string)
    requires SplitVerb(line).Value?
    ensures var argument := SplitVerb(line).value.1; argument == "" || !IsWhitespace(argument[0])
  {
    LineExactly(line);
    if WideSeparator(line) {
      WideIsPanic(line);
    }
    if !AllSpace(line) {
      var verb, argument :| Reads(line, verb, argument);
      ReadsIsSplit(line, verb, argument);
    }
  }

  /** The line is the command of this name, and its argument is such. */
  ghost predicate Panics(verb: string, argument: string) {
    (Spells(verb, "MAIL") && InsideChar(argument, 5)) || (Spells(verb, "RCPT") && InsideChar(argument, 3))
  }

  /** The separator is wide, or the keyword expected after MAIL or RCPT would end inside
      a character of the argument. */
  ghost predicate MakesPanic(line: string) {
    WideSeparator(line) || exists verb, argument :: Reads(line, verb, argument) && Panics(verb, argument)
  }

  lemma AddressCommand(line: string, word: string, argument: string)
    requires SplitVerb(line) == Value((word, argument)) && (argument == "" || !IsWhitespace(argument[0]))
    ensures var cmd := Interpret(line);
      && (cmd.Crash? <==> (word == "MAIL" && InsideChar(argument, 5)) || (word == "RCPT" && InsideChar(argument, 3)))
      && (cmd.Mail? && cmd.sender.Some? <==> word == "MAIL" && Keyword(argument, "FROM:"))
      && (cmd.Mail? && cmd.sender.Some? ==> cmd.sender.value == AddressPart(argument[5..]))
      && (cmd.Rcpt? && cmd.recipient.Some? <==> word == "RCPT" && Keyword(argument, "TO:"))
      && (cmd.Rcpt? && cmd.recipient.Some? ==> cmd.recipient.value == AddressPart(argument[3..]))
      && (cmd.Mail? || (cmd.Crash? && word == "MAIL") <==> word == "MAIL")
      && (cmd.Rcpt? || (cmd.Crash? && word == "RCPT") <==> word == "RCPT")
  {
    AddressPanics(argument, "FROM:");
    AddressPanics(argument, "TO:");
    AddressExactly(argument, "FROM:");
    AddressExactly(argument, "TO:");
  }

  lemma ReadCommand(line: string, verb: string, argument: string)
    requires Reads(line, verb, argument)
    ensures Interpret(line).Crash? <==> Panics(verb, argument)
    ensures forall a :: Interpret(line) == Mail(Some(a)) <==>
      Spells(verb, "MAIL") && Keyword(argument, "FROM:") && Address(argument[5..], a)
    ensures forall a :: Interpret(line) == Rcpt(Some(a)) <==>
      Spells(verb, "RCPT") && Keyword(argument, "TO:") && Address(argument[3..], a)
    ensures Interpret(line) == Mail(None) <==>
      Spells(verb, "MAIL") && !Keyword(argument, "FROM:") && !InsideChar(argument, 5)
    ensures Interpret(line) == Rcpt(None) <==>
      Spells(verb, "RCPT") && !Keyword(argument, "TO:") && !InsideChar(argument, 3)
  {
    ReadsIsSplit(line, verb, argument);
    UpperExactly(verb, "MAIL");
    UpperExactly(verb, "RCPT");
    AddressCommand(line, Upper(verb), argument);
    if Keyword(argument, "FROM:") {
      forall a ensures Address(argument[5..], a) <==> AddressPart(argument[5..]) == a {
        AddressPartExactly(argument[5..], a);
      }
    }
    if Keyword(argument, "TO:") {
      forall a ensures Address(argument[3..], a) <==> AddressPart(argument[3..]) == a {
        AddressPartExactly(argument[3..], a);
      }
    }
  }

  lemma UnreadCommand(line: string)
    requires forall verb, argument :: !Reads(line, verb, argument)
    ensures if WideSeparator(line) then Interpret(line).Crash? else Interpret(line).Blank?
  {
    LineExactly(line);
    if WideSeparator(line) {
      WideIsPanic(line);
    }
  }

  lemma WideOrReads(line: string, verb: string, argument: string)
    requires Reads(line, verb, argument)
    ensures !WideSeparator(line)
  {
    ReadsIsSplit(line, verb, argument);
    if WideSeparator(line) {
      WideIsPanic(line);
    }
  }

  /** Exactly the lines that make the catcher panic. */
  lemma CrashExactly(line: string)
    ensures Interpret(line).Crash? <==> MakesPanic(line)
  {
    forall verb, argument | Reads(line, verb, argument)
      ensures Interpret(line).Crash? <==> Panics(verb, argument)
      ensures !WideSeparator(line)
    {
      ReadCommand(line, verb, argument);
      WideOrReads(line, verb, argument);
    }
    if forall verb, argument :: !Reads(line, verb, argument) {
      UnreadCommand(line);
    }
  }

  /** The line is a MAIL with this address after its keyword ... */
  ghost predicate GivesSender(line: string, address: string) {
    exists verb, argument :: Reads(line, verb, argument)
      && Spells(verb, "MAIL") && Keyword(argument, "FROM:") && Address(argument[5..], address)
  }

  /** ... or a RCPT with this one. */
  ghost predicate GivesRecipient(line: string, address: string) {
    exists verb, argument :: Reads(line, verb, argument)
      && Spells(verb, "RCPT") && Keyword(argument, "TO:") && Address(argument[3..], address)
  }

  /** MAIL without the keyword, and nothing that makes the catcher panic. */
  ghost predicate MailWithoutKeyword(line: string) {
    exists verb, argument :: Reads(line, verb, argument)
      && Spells(verb, "MAIL") && !Keyword(argument, "FROM:") && !InsideChar(argument, 5)
  }

  ghost predicate RcptWithoutKeyword(line: string) {
    exists verb, argument :: Reads(line, verb, argument)
      && Spells(verb, "RCPT") && !Keyword(argument, "TO:") && !InsideChar(argument, 3)
  }

  /** Exactly the lines taken for a MAIL, with and without an address, and which. */
  lemma SendersExactly(line: string)
    ensures forall a :: Interpret(line) == Mail(Some(a)) <==> GivesSender(line, a)
    ensures Interpret(line) == Mail(None) <==> MailWithoutKeyword(line)
  {
    forall verb, argument | Reads(line, verb, argument)
      ensures forall a :: Interpret(line) == Mail(Some(a)) <==>
        Spells(verb, "MAIL") && Keyword(argument, "FROM:") && Address(argument[5..], a)
      ensures Interpret(line) == Mail(None) <==>
        Spells(verb, "MAIL") && !Keyword(argument, "FROM:") && !InsideChar(argument, 5)
    {
      ReadCommand(line, verb, argument);
    }
    if forall verb, argument :: !Reads(line, verb, argument) {
      UnreadCommand(line);
    }
  }

  /** And those taken for a RCPT. */
  lemma RecipientsExactly(line: string)
    ensures forall a :: Interpret(line) == Rcpt(Some(a)) <==> GivesRecipient(line, a)
    ensures Interpret(line) == Rcpt(None) <==> RcptWithoutKeyword(line)
  {
    forall verb, argument | Reads(line, verb, argument)
      ensures forall a :: Interpret(line) == Rcpt(Some(a)) <==>
        Spells(verb, "RCPT") && Keyword(argument, "TO:") && Address(argument[3..], a)
      ensures Interpret(line) == Rcpt(None) <==>
        Spells(verb, "RCPT") && !Keyword(argument, "TO:") && !InsideChar(argument, 3)
    {
      ReadCommand(line, verb, argument);
    }
    if forall verb, argument :: !Reads(line, verb, argument) {
      UnreadCommand(line);
    }
  }

  /** And those taken for no command: not blank, no panic, and none of the nine names. */
  lemma UnknownExactly(line: string)
    ensures Interpret(line).Unknown?
       <==> !AllSpace(line) && !MakesPanic(line)
            && !Says(line, "HELO") && !Says(line, "EHLO") && !Says(line, "MAIL") && !Says(line, "RCPT")
            && !Says(line, "DATA") && !Says(line, "RSET") && !Says(line, "NOOP") && !Says(line, "VRFY")
            && !Says(line, "QUIT")
  {
    CommandExactly(line);
    CrashExactly(line);
    MailOrRcptExactly(line);
  }

  /** Short of a panic, MAIL and RCPT are told by their names. */
  lemma MailOrRcptExactly(line: string)
    ensures !MakesPanic(line) ==> (Interpret(line).Mail? <==> Says(line, "MAIL"))
    ensures !MakesPanic(line) ==> (Interpret(line).Rcpt? <==> Says(line, "RCPT"))
  {
    CrashExactly(line);
    SaysExactly(line, "MAIL");
    SaysExactly(line, "RCPT");
    if SplitVerb(line).Value? {
      ArgumentStarts(line);
      AddressCommand(line, SplitVerb(line).value.0, SplitVerb(line).value.1);
    }
  }
}
