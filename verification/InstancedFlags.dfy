/** Rendering of per-instance flags: different random parts give different flags. */
module InstancedFlags {
  import opened Text

  const RANDOM := "{{random}}"
  const UUID := "{{uuid}}"
  const CHALLENGE := "{{challenge}}"

  predicate StartsWith(s: string, pattern: string) {
    |pattern| <= |s| && s[..|pattern|] == pattern
  }

  predicate Contains(s: string, pattern: string) {
    exists i :: 0 <= i <= |s| && StartsWith(s[i..], pattern)
  }

  /** `str::replace`: every leftmost non-overlapping occurrence. */
  function Replace(s: string, pattern: string, value: string): string
    requires pattern != ""
    decreases |s|
  {
    if s == "" then ""
    else if StartsWith(s, pattern) then value + Replace(s[|pattern|..], pattern, value)
    else [s[0]] + Replace(s[1..], pattern, value)
  }

  /** The random part goes before the closing brace. The source indexes characters
      by a byte offset here, so a template with a multi-byte character never counts
      as ending in an empty pair of braces. */
  predicate EndsInEmptyBraces(template: string) {
    var at := Utf8Len(template) - 2;
    0 <= at < |template| && template[at] == '{'
  }

  function Filled(template: string, randomPart: string): string {
    if Contains(template, RANDOM) || Contains(template, UUID) then
      Replace(Replace(template, RANDOM, randomPart), UUID, randomPart)
    else if template != "" && template[|template| - 1] == '}' && Utf8Len(template) > 1 then
      var front := template[..|template| - 1];
      if EndsInEmptyBraces(template) then front + randomPart + "}" else front + "_" + randomPart + "}"
    else template + randomPart
  }

  function Render(template: string, challengeId: string, randomPart: string): string {
    Replace(Filled(template, randomPart), CHALLENGE, challengeId)
  }

  method RenderInstancedFlag(template: string, challengeId: string, randomPart: string) returns (rendered: string)
    ensures rendered == Render(template, challengeId, randomPart)
  {
    rendered := template;
    if Contains(rendered, RANDOM) || Contains(rendered, UUID) {
      rendered := Replace(rendered, RANDOM, randomPart);
      rendered := Replace(rendered, UUID, randomPart);
    } else if rendered != "" && rendered[|rendered| - 1] == '}' && Utf8Len(rendered) > 1 {
      var last := |rendered| - 1;
      assert rendered[last..] == "}";
      if EndsInEmptyBraces(rendered) {
        rendered := rendered[..last] + randomPart + rendered[last..];
      } else {
        rendered := rendered[..last] + "_" + randomPart + rendered[last..];
      }
    } else {
      rendered := rendered + randomPart;
    }
    rendered := Replace(rendered, CHALLENGE, challengeId);
  }

  predicate BraceFree(s: string) {
    forall i :: 0 <= i < |s| ==> s[i] != '{' && s[i] != '}'
  }

  // Templates with holes: the rendered flag as a function of the random part.

  datatype Token = Literal(c: char) | Hole

  function Literals(s: string): seq<Token> {
    seq(|s|, i requires 0 <= i < |s| => Literal(s[i]))
  }

  function Expand(tokens: seq<Token>, r: string): string {
    if tokens == [] then ""
    else (if tokens[0].Hole? then r else [tokens[0].c]) + Expand(tokens[1..], r)
  }

  predicate StartsWithLiterals(tokens: seq<Token>, pattern: string) {
    |pattern| <= |tokens| && forall i :: 0 <= i < |pattern| ==> tokens[i] == Literal(pattern[i])
  }

  function ReplaceTokens(tokens: seq<Token>, pattern: string, value: seq<Token>): seq<Token>
    requires pattern != ""
    decreases |tokens|
  {
    if tokens == [] then []
    else if StartsWithLiterals(tokens, pattern) then value + ReplaceTokens(tokens[|pattern|..], pattern, value)
    else [tokens[0]] + ReplaceTokens(tokens[1..], pattern, value)
  }

  lemma {:induction false} ExpandAppend(a: seq<Token>, b: seq<Token>, r: string)
    ensures Expand(a + b, r) == Expand(a, r) + Expand(b, r)
  {
    if a == [] {
      assert a + b == b;
    } else {
      ExpandAppend(a[1..], b, r);
      var tokens := a + b;
      assert tokens[0] == a[0] && tokens[1..] == a[1..] + b;
      ConcatAssociates(if a[0].Hole? then r else [a[0].c], Expand(a[1..], r), Expand(b, r));
    }
  }

  lemma {:induction false} ExpandLiterals(s: string, r: string)
    ensures Expand(Literals(s), r) == s
  {
    if s == "" {
    } else {
      ExpandLiterals(s[1..], r);
      assert Literals(s)[1..] == Literals(s[1..]);
      assert s == [s[0]] + s[1..];
    }
  }

  /** Two opening braces, a brace-free name, two closing braces. */
  predicate Placeholder(pattern: string) {
    && |pattern| >= 5
    && pattern[0] == '{' && pattern[1] == '{' && BraceFree(pattern[2..|pattern| - 2])
    && pattern[|pattern| - 2] == '}' && pattern[|pattern| - 1] == '}'
  }

  lemma PrefixChar(s: string, p: string, i: nat)
    requires i < |p| && i < |s|
    ensures StartsWith(s, p) ==> s[i] == p[i]
  {
    if |p| <= |s| {
      assert s[..|p|][i] == s[i];
    }
  }

  lemma BracesOutlastHole(r: string, rest: string, pattern: string, k: nat)
    requires Placeholder(pattern) && BraceFree(r) && |r| > |pattern| - 4 && k < |pattern|
    ensures !StartsWith(r + rest, pattern[k..])
  {
    var i := if k < 2 || k == |pattern| - 1 then 0 else |pattern| - 2 - k;
    assert (r + rest)[i] == r[i] && pattern[k..][i] == pattern[k + i];
    PrefixChar(r + rest, pattern[k..], i);
  }

  lemma LiteralsStart(s: string, p: string)
    ensures StartsWithLiterals(Literals(s), p) <==> StartsWith(s, p)
  {
    forall i | 0 <= i < |p| && |p| <= |s|
      ensures s[..|p|][i] == s[i]
    {
    }
    assert StartsWith(s, p) ==> forall i :: 0 <= i < |p| ==> s[..|p|][i] == p[i];
  }

  /** A random part longer than the name cannot be inside an occurrence of the
      placeholder, so occurrences consist of template characters only. */
  lemma {:induction false} OccurrencesAreLiteral(tokens: seq<Token>, r: string, pattern: string, k: nat)
    requires Placeholder(pattern) && BraceFree(r) && |r| > |pattern| - 4 && k <= |pattern|
    requires StartsWith(Expand(tokens, r), pattern[k..])
    ensures StartsWithLiterals(tokens, pattern[k..])
    decreases |pattern| - k
  {
    if k < |pattern| {
      var rest := Expand(tokens[1..], r);
      BracesOutlastHole(r, rest, pattern, k);
      if !tokens[0].Hole? {
        assert Expand(tokens, r) == [tokens[0].c] + rest;
        assert Expand(tokens, r)[0] == pattern[k..][0];
        assert rest[..|pattern| - k - 1] == Expand(tokens, r)[..|pattern| - k][1..];
        assert pattern[k..][1..] == pattern[k + 1..];
        OccurrencesAreLiteral(tokens[1..], r, pattern, k + 1);
      }
    }
  }

  lemma {:induction false} LiteralsExpand(tokens: seq<Token>, r: string, pattern: string)
    requires StartsWithLiterals(tokens, pattern)
    ensures Expand(tokens, r) == pattern + Expand(tokens[|pattern|..], r)
  {
    assert tokens == Literals(pattern) + tokens[|pattern|..];
    ExpandAppend(Literals(pattern), tokens[|pattern|..], r);
    ExpandLiterals(pattern, r);
  }

  /** Text without an opening brace is copied unchanged. */
  lemma {:induction false} ReplaceSkips(a: string, b: string, pattern: string, value: string)
    requires pattern != "" && forall i :: 0 <= i < |a| ==> a[i] != pattern[0]
    ensures Replace(a + b, pattern, value) == a + Replace(b, pattern, value)
  {
    if a == "" {
      assert a + b == b;
    } else {
      assert (a + b)[0] == a[0] && (a + b)[1..] == a[1..] + b;
      ReplaceSkips(a[1..], b, pattern, value);
    }
  }

  /** Replacing in the rendered text is replacing among the tokens. */
  lemma {:induction false} ReplaceExpanded(
      tokens: seq<Token>, r: string, pattern: string, value: seq<Token>)
    requires Placeholder(pattern) && BraceFree(r) && |r| > |pattern| - 4
    ensures Replace(Expand(tokens, r), pattern, Expand(value, r)) == Expand(ReplaceTokens(tokens, pattern, value), r)
    decreases |tokens|
  {
    if tokens == [] {
    } else if StartsWithLiterals(tokens, pattern) {
      var rest := tokens[|pattern|..];
      LiteralsExpand(tokens, r, pattern);
      assert (pattern + Expand(rest, r))[|pattern|..] == Expand(rest, r);
      ReplaceExpanded(rest, r, pattern, value);
      ExpandAppend(value, ReplaceTokens(rest, pattern, value), r);
    } else {
      var rest := tokens[1..];
      ReplaceExpanded(rest, r, pattern, value);
      ExpandAppend([tokens[0]], ReplaceTokens(rest, pattern, value), r);
      if tokens[0].Hole? {
        ReplaceSkips(r, Expand(rest, r), pattern, Expand(value, r));
        assert Expand([tokens[0]], r) == r + "" == r;
      } else {
        assert Expand([tokens[0]], r) == [tokens[0].c] + "" == [tokens[0].c];
        assert pattern[0..] == pattern;
        if StartsWith(Expand(tokens, r), pattern) {
          OccurrencesAreLiteral(tokens, r, pattern, 0);
        }
        assert Expand(tokens, r)[1..] == Expand(rest, r);
      }
    }
  }

  predicate HasHole(tokens: seq<Token>) {
    Hole in tokens
  }

  lemma {:induction false} HolesSurvive(tokens: seq<Token>, pattern: string, value: seq<Token>)
    requires pattern != "" && HasHole(tokens)
    ensures HasHole(ReplaceTokens(tokens, pattern, value))
    decreases |tokens|
  {
    if StartsWithLiterals(tokens, pattern) {
      assert Hole in tokens[|pattern|..];
      HolesSurvive(tokens[|pattern|..], pattern, value);
    } else if tokens[0] != Hole {
      HolesSurvive(tokens[1..], pattern, value);
    }
  }

  lemma {:induction false} OccurrenceBecomesHole(s: string, pattern: string, i: int)
    requires pattern != "" && 0 <= i <= |s| && StartsWith(s[i..], pattern)
    ensures HasHole(ReplaceTokens(Literals(s), pattern, [Hole]))
    decreases |s|
  {
    var tokens := Literals(s);
    LiteralsStart(s, pattern);
    assert s[0..] == s;
    if StartsWithLiterals(tokens, pattern) {
      assert Hole in [Hole];
    } else {
      assert tokens[1..] == Literals(s[1..]) && s[1..][i - 1..] == s[i..];
      OccurrenceBecomesHole(s[1..], pattern, i - 1);
    }
  }

  lemma {:induction false} NoOccurrenceNoChange(s: string, pattern: string, value: seq<Token>)
    requires pattern != "" && !Contains(s, pattern)
    ensures ReplaceTokens(Literals(s), pattern, value) == Literals(s)
    decreases |s|
  {
    if s == "" {
    } else {
      var tokens := Literals(s);
      LiteralsStart(s, pattern);
      assert s[0..] == s;
      forall i | 0 <= i <= |s[1..]|
        ensures !StartsWith(s[1..][i..], pattern)
      {
        assert s[1..][i..] == s[i + 1..];
      }
      assert tokens[1..] == Literals(s[1..]);
      NoOccurrenceNoChange(s[1..], pattern, value);
    }
  }

  /** What the template leaves open before the challenge id is filled in. */
  function Skeleton(template: string): seq<Token> {
    if Contains(template, RANDOM) || Contains(template, UUID) then
      ReplaceTokens(ReplaceTokens(Literals(template), RANDOM, [Hole]), UUID, [Hole])
    else if template != "" && template[|template| - 1] == '}' && Utf8Len(template) > 1 then
      var front := Literals(template[..|template| - 1]);
      if EndsInEmptyBraces(template) then front + [Hole] + [Literal('}')]
      else front + [Literal('_'), Hole] + [Literal('}')]
    else Literals(template) + [Hole]
  }

  lemma SkeletonHasHole(template: string)
    ensures HasHole(Skeleton(template))
  {
    if Contains(template, RANDOM) {
      var i :| 0 <= i <= |template| && StartsWith(template[i..], RANDOM);
      OccurrenceBecomesHole(template, RANDOM, i);
      HolesSurvive(ReplaceTokens(Literals(template), RANDOM, [Hole]), UUID, [Hole]);
    } else if Contains(template, UUID) {
      NoOccurrenceNoChange(template, RANDOM, [Hole]);
      var i :| 0 <= i <= |template| && StartsWith(template[i..], UUID);
      OccurrenceBecomesHole(template, UUID, i);
    } else {
      assert Hole in [Hole];
    }
  }

  lemma ExpandOne(t: Token, r: string)
    ensures Expand([t], r) == if t.Hole? then r else [t.c]
  {
    assert [t][1..] == [];
  }

  lemma KnownPlaceholders()
    ensures Placeholder(RANDOM) && |RANDOM| == 10
    ensures Placeholder(UUID) && |UUID| == 8
    ensures Placeholder(CHALLENGE) && |CHALLENGE| == 13
  {
  }

  lemma ReplaceBoth(s: string, r: string, first: string, second: string)
    requires Placeholder(first) && Placeholder(second) && BraceFree(r)
    requires |r| > |first| - 4 && |r| > |second| - 4
    ensures Replace(Replace(s, first, r), second, r)
         == Expand(ReplaceTokens(ReplaceTokens(Literals(s), first, [Hole]), second, [Hole]), r)
  {
    ExpandOne(Hole, r);
    ExpandLiterals(s, r);
    ReplaceExpanded(Literals(s), r, first, [Hole]);
    ReplaceExpanded(ReplaceTokens(Literals(s), first, [Hole]), r, second, [Hole]);
  }

  lemma InsertedBeforeBrace(front: string, middle: seq<Token>, r: string)
    ensures Expand(Literals(front) + middle + [Literal('}')], r) == front + Expand(middle, r) + "}"
  {
    ExpandLiterals(front, r);
    ExpandOne(Literal('}'), r);
    ExpandAppend(Literals(front), middle, r);
    ExpandAppend(Literals(front) + middle, [Literal('}')], r);
  }

  lemma UnderscoreHole(r: string)
    ensures Expand([Literal('_'), Hole], r) == "_" + r
  {
    ExpandOne(Literal('_'), r);
    ExpandOne(Hole, r);
    ExpandAppend([Literal('_')], [Hole], r);
    assert [Literal('_'), Hole] == [Literal('_')] + [Hole];
  }

  lemma InsertedInBraces(front: string, r: string)
    ensures Expand(Literals(front) + [Hole] + [Literal('}')], r) == front + r + "}"
    ensures Expand(Literals(front) + [Literal('_'), Hole] + [Literal('}')], r) == front + ("_" + r) + "}"
  {
    ExpandOne(Hole, r);
    InsertedBeforeBrace(front, [Hole], r);
    UnderscoreHole(r);
    InsertedBeforeBrace(front, [Literal('_'), Hole], r);
  }

  lemma BothReplaced(template: string, r: string)
    requires BraceFree(r) && |r| >= 10
    ensures Replace(Replace(template, RANDOM, r), UUID, r)
         == Expand(ReplaceTokens(ReplaceTokens(Literals(template), RANDOM, [Hole]), UUID, [Hole]), r)
  {
    KnownPlaceholders();
    ReplaceBoth(template, r, RANDOM, UUID);
  }

  lemma SkeletonExpands(template: string, r: string)
    requires BraceFree(r) && |r| >= 10
    ensures Expand(Skeleton(template), r) == Filled(template, r)
  {
    if Contains(template, RANDOM) || Contains(template, UUID) {
      BothReplaced(template, r);
    } else if template != "" && template[|template| - 1] == '}' && Utf8Len(template) > 1 {
      InsertedInBraces(template[..|template| - 1], r);
    } else {
      AppendedHole(template, r);
    }
  }

  lemma AppendedHole(template: string, r: string)
    ensures Expand(Literals(template) + [Hole], r) == template + r
  {
    ExpandOne(Hole, r);
    ExpandLiterals(template, r);
    ExpandAppend(Literals(template), [Hole], r);
  }

  lemma RenderedTokens(template: string, challengeId: string, r: string)
    requires BraceFree(r) && |r| >= 10
    ensures Render(template, challengeId, r)
         == Expand(ReplaceTokens(Skeleton(template), CHALLENGE, Literals(challengeId)), r)
  {
    KnownPlaceholders();
    SkeletonExpands(template, r);
    FinalReplace(Skeleton(template), Filled(template, r), challengeId, r, CHALLENGE);
  }

  lemma FinalReplace(tokens: seq<Token>, text: string, value: string, r: string, pattern: string)
    requires Placeholder(pattern) && BraceFree(r) && |r| > |pattern| - 4 && text == Expand(tokens, r)
    ensures Replace(text, pattern, value) == Expand(ReplaceTokens(tokens, pattern, Literals(value)), r)
  {
    ExpandLiterals(value, r);
    ReplaceExpanded(tokens, r, pattern, Literals(value));
  }

  lemma {:induction false} ExpandIsInjective(tokens: seq<Token>, a: string, b: string)
    requires HasHole(tokens) && |a| == |b| && Expand(tokens, a) == Expand(tokens, b)
    ensures a == b
  {
    if tokens[0].Hole? {
      assert a == Expand(tokens, a)[..|a|];
      assert b == Expand(tokens, b)[..|a|];
    } else {
      assert Expand(tokens[1..], a) == Expand(tokens, a)[1..];
      assert Expand(tokens[1..], b) == Expand(tokens, b)[1..];
      ExpandIsInjective(tokens[1..], a, b);
    }
  }

  /** For every template and challenge id, through all three branches and the final
      substitution: two random parts of one length, at least ten characters long and
      without braces, never render the same flag unless they are the same. */
  lemma RenderIsInjective(template: string, challengeId: string, a: string, b: string)
    requires BraceFree(a) && BraceFree(b) && |a| == |b| >= 10
    requires Render(template, challengeId, a) == Render(template, challengeId, b)
    ensures a == b
  {
    RenderedTokens(template, challengeId, a);
    RenderedTokens(template, challengeId, b);
    SkeletonHasHole(template);
    var tokens := ReplaceTokens(Skeleton(template), CHALLENGE, Literals(challengeId));
    HolesSurvive(Skeleton(template), CHALLENGE, Literals(challengeId));
    ExpandIsInjective(tokens, a, b);
  }

  // Shorter random parts can complete a placeholder together with the template.

  const NAME := "challenge"

  predicate OpensNothing(s: string) {
    forall i :: 0 <= i < |s| ==> s[i] != '{'
  }

  lemma KeptAfterBraces(rest: string, pattern: string, value: string)
    requires Placeholder(pattern) && rest != "" && OpensNothing(rest) && rest[0] != pattern[2]
    ensures Replace("{{" + rest, pattern, value) == "{{" + rest
  {
    var s := "{{" + rest;
    assert s[2] == rest[0];
    PrefixChar(s, pattern, 2);
    assert s[1..] == "{" + rest;
    assert s[1..][1] == rest[0];
    PrefixChar(s[1..], pattern, 1);
    assert s[1..][1..] == rest;
    ReplaceSkips(rest, "", pattern, value);
    assert rest + "" == rest;
  }

  lemma ReplaceAtFront(suffix: string, value: string, pattern: string)
    requires Placeholder(pattern) && OpensNothing(suffix)
    ensures Replace(pattern + suffix, pattern, value) == value + suffix
  {
    var s := pattern + suffix;
    assert s[..|pattern|] == pattern && s[|pattern|..] == suffix;
    ReplaceSkips(suffix, "", pattern, value);
    assert suffix + "" == suffix;
  }

  lemma ReplaceInBraces(suffix: string, value: string, pattern: string)
    requires Placeholder(pattern) && OpensNothing(suffix) && pattern[2] != '{'
    ensures Replace("{{" + (pattern + suffix), pattern, value) == "{{" + (value + suffix)
  {
    var s := "{{" + (pattern + suffix);
    assert s[2] == '{' && s[3] == '{';
    PrefixChar(s, pattern, 2);
    var t := s[1..];
    assert t == "{" + (pattern + suffix) && t[2] == '{';
    PrefixChar(t, pattern, 2);
    assert t[1..] == pattern + suffix;
    ReplaceAtFront(suffix, value, pattern);
    assert Replace(t, pattern, value) == "{" + (value + suffix);
    assert Replace(s, pattern, value) == "{" + ("{" + (value + suffix));
  }

  lemma FilledInBraces(r: string, suffix: string)
    requires r != "" && BraceFree(r) && r[0] != 'u' && OpensNothing(suffix)
    ensures Filled("{{" + (RANDOM + suffix), r) == "{{" + (r + suffix)
  {
    KnownPlaceholders();
    var template := "{{" + (RANDOM + suffix);
    assert template[2..] == RANDOM + suffix;
    assert template[2..][..|RANDOM|] == RANDOM;
    assert Contains(template, RANDOM);
    ReplaceInBraces(suffix, r, RANDOM);
    KeptAfterBraces(r + suffix, UUID, r);
  }

  lemma CollideInBraces(a: string, b: string, suffix: string)
    requires a != "" && b != "" && BraceFree(a) && BraceFree(b) && OpensNothing(suffix)
    requires a[0] != 'u' && b[0] != 'u' && b[0] != 'c' && "{{" + (a + suffix) == CHALLENGE
    ensures var challengeId := "{{" + (b + suffix);
      Render("{{" + (RANDOM + suffix), challengeId, a) == Render("{{" + (RANDOM + suffix), challengeId, b)
  {
    var challengeId := "{{" + (b + suffix);
    KnownPlaceholders();
    FilledInBraces(a, suffix);
    FilledInBraces(b, suffix);
    ReplaceAtFront("", challengeId, CHALLENGE);
    assert CHALLENGE + "" == CHALLENGE && challengeId + "" == challengeId;
    KeptAfterBraces(b + suffix, CHALLENGE, challengeId);
  }

  lemma SplitName(name: string, n: nat)
    requires n <= |name|
    ensures name[..n] + (name[n..] + "}}") == name + "}}"
  {
    ConcatAssociates(name[..n], name[n..], "}}");
    assert name[..n] + name[n..] == name;
  }

  /** A concrete collision for every length from one to nine. */
  lemma ShortPartsCollide(n: nat) returns (template: string, challengeId: string, a: string, b: string)
    requires 1 <= n <= 9
    ensures BraceFree(a) && BraceFree(b) && |a| == |b| == n && a != b
    ensures Render(template, challengeId, a) == Render(template, challengeId, b)
  {
    a, b := NAME[..n], "x" + NAME[1..n];
    var suffix := NAME[n..] + "}}";
    template, challengeId := "{{" + (RANDOM + suffix), "{{" + (b + suffix);
    assert a[0] == 'c' && b[0] == 'x';
    SplitName(NAME, n);
    assert CHALLENGE == "{{" + (NAME + "}}");
    CollideInBraces(a, b, suffix);
  }

  /** No two different brace-free random parts of this length ever collide. */
  ghost predicate UniqueAtLength(n: nat) {
    forall template, challengeId, a, b :: BraceFree(a) && BraceFree(b) && |a| == |b| == n ==>
      Render(template, challengeId, a) == Render(template, challengeId, b) ==> a == b
  }

  /** Uniqueness holds for every template and challenge id exactly when the random
      part is at least ten characters long (or empty, when there is only one). */
  lemma UniqueExactlyWhenLong(n: nat)
    ensures UniqueAtLength(n) <==> n == 0 || n >= 10
  {
    if 1 <= n <= 9 {
      var template, challengeId, a, b := ShortPartsCollide(n);
    } else {
      forall template, challengeId, a, b | BraceFree(a) && BraceFree(b) && |a| == |b| == n
        && Render(template, challengeId, a) == Render(template, challengeId, b)
        ensures a == b
      {
        if n >= 10 {
          RenderIsInjective(template, challengeId, a, b);
        }
      }
    }
  }

  // Where the random part goes.

  predicate AsciiOnly(s: string) {
    forall i :: 0 <= i < |s| ==> s[i] < '\U{80}'
  }

  lemma {:induction false} BytesOfChars(s: string)
    ensures Utf8Len(s) >= |s|
    ensures Utf8Len(s) == |s| <==> AsciiOnly(s)
  {
    if s == "" {
    } else {
      BytesOfChars(s[1..]);
      assert s == [s[0]] + s[1..];
    }
  }

  /** The template ends in a closing brace, and before it an opening one. */
  predicate EndsEmpty(template: string) {
    |template| >= 2 && template[|template| - 1] == '}' && template[|template| - 2] == '{'
  }

  /** Between empty braces at the end of an ASCII template; before any other closing
      brace at the end, after an underscore; and after a template that ends otherwise
      or is no more than that brace. */
  lemma RandomPartPlaced(template: string, r: string)
    requires !Contains(template, RANDOM) && !Contains(template, UUID)
    ensures var n := |template| - 1;
      if template == "" || template[n] != '}' || n == 0 then Filled(template, r) == template + r
      else if EndsEmpty(template) && AsciiOnly(template) then Filled(template, r) == template[..n] + r + "}"
      else Filled(template, r) == template[..n] + "_" + r + "}"
  {
    BytesOfChars(template);
    if |template| == 1 {
      assert template[1..] == "";
    }
  }

  predicate OccursAt(s: string, pattern: string, i: nat) {
    i <= |s| && StartsWith(s[i..], pattern)
  }

  /** Replacing leaves what comes before the first occurrence, puts the value in its
      place, and goes on after it. */
  lemma {:induction false} ReplaceExactly(before: string, pattern: string, after: string, value: string)
    requires pattern != "" && forall i :: 0 <= i < |before| ==> !OccursAt(before + pattern + after, pattern, i)
    ensures Replace(before + pattern + after, pattern, value) == before + value + Replace(after, pattern, value)
    decreases |before|
  {
    var s := before + pattern + after;
    if before == "" {
      assert s[..|pattern|] == pattern && s[|pattern|..] == after;
    } else {
      assert s[0..] == s && !OccursAt(s, pattern, 0);
      assert s[1..] == before[1..] + pattern + after;
      forall i | 0 <= i < |before[1..]|
        ensures !OccursAt(s[1..], pattern, i)
      {
        assert !OccursAt(s, pattern, i + 1) && s[1..][i..] == s[i + 1..];
      }
      ReplaceExactly(before[1..], pattern, after, value);
      assert before == [before[0]] + before[1..];
    }
  }

  /** And without an occurrence it changes nothing. */
  lemma {:induction false} ReplaceNothing(s: string, pattern: string, value: string)
    requires pattern != "" && !Contains(s, pattern)
    ensures Replace(s, pattern, value) == s
  {
    if s == "" {
    } else {
      assert s[0..] == s;
      forall i | 0 <= i <= |s[1..]|
        ensures !StartsWith(s[1..][i..], pattern)
      {
        assert s[1..][i..] == s[i + 1..];
      }
      ReplaceNothing(s[1..], pattern, value);
      assert s == [s[0]] + s[1..];
    }
  }

  // Templates with placeholders, as the pieces they are made of.

  function Joined(pieces: seq<string>): string {
    if pieces == [] then "" else pieces[0] + Joined(pieces[1..])
  }

  predicate PieceOfTemplate(piece: string) {
    BraceFree(piece) || piece == RANDOM || piece == UUID || piece == CHALLENGE
  }

  function Substituted(pieces: seq<string>, pattern: string, value: string): seq<string> {
    seq(|pieces|, i requires 0 <= i < |pieces| => if pieces[i] == pattern then value else pieces[i])
  }

  predicate DiffersAfter(piece: string, i: nat, pattern: string, k: int) {
    0 <= k < |pattern| && i + k < |piece| && piece[i + k] != pattern[k]
  }

  ghost predicate Differs(piece: string, i: nat, pattern: string) {
    exists k :: DiffersAfter(piece, i, pattern, k)
  }

  /** At no position does the piece read like the pattern, not even up to the end of the piece. */
  ghost predicate Skipped(piece: string, pattern: string) {
    forall i :: 0 <= i < |piece| ==> Differs(piece, i, pattern)
  }

  lemma {:induction false} SkipPiece(piece: string, rest: string, pattern: string, value: string)
    requires pattern != "" && Skipped(piece, pattern)
    ensures Replace(piece + rest, pattern, value) == piece + Replace(rest, pattern, value)
    decreases |piece|
  {
    if piece == "" {
      assert piece + rest == rest;
    } else {
      var s := piece + rest;
      assert Differs(piece, 0, pattern);
      var k :| DiffersAfter(piece, 0, pattern, k);
      PrefixChar(s, pattern, k);
      forall i | 0 <= i < |piece[1..]|
        ensures Differs(piece[1..], i, pattern)
      {
        assert Differs(piece, i + 1, pattern);
        var j :| DiffersAfter(piece, i + 1, pattern, j);
        assert DiffersAfter(piece[1..], i, pattern, j);
      }
      SkipPiece(piece[1..], rest, pattern, value);
      assert s[1..] == piece[1..] + rest;
      assert piece == [piece[0]] + piece[1..];
    }
  }

  lemma {:induction false} ReplaceInPieces(pieces: seq<string>, pattern: string, value: string)
    requires pattern != "" && forall t :: t in pieces ==> t == pattern || Skipped(t, pattern)
    ensures Replace(Joined(pieces), pattern, value) == Joined(Substituted(pieces, pattern, value))
  {
    if pieces == [] {
    } else {
      var rest := Joined(pieces[1..]);
      ReplaceInPieces(pieces[1..], pattern, value);
      assert Substituted(pieces, pattern, value)[1..] == Substituted(pieces[1..], pattern, value);
      if pieces[0] == pattern {
        ReplaceExactly("", pattern, rest, value);
        assert "" + pattern + rest == pattern + rest && "" + value == value;
      } else {
        SkipPiece(pieces[0], rest, pattern, value);
      }
    }
  }

  lemma PieceSkipped(piece: string, pattern: string)
    requires pattern == RANDOM || pattern == UUID || pattern == CHALLENGE
    requires PieceOfTemplate(piece) && piece != pattern
    ensures Skipped(piece, pattern)
  {
    forall i | 0 <= i < |piece|
      ensures Differs(piece, i, pattern)
    {
      assert DiffersAfter(piece, i, pattern, if BraceFree(piece) || i >= 2 then 0 else 2 - i);
    }
  }

  lemma {:induction false} PieceContained(pieces: seq<string>, i: nat)
    requires i < |pieces|
    ensures Contains(Joined(pieces), pieces[i])
  {
    var s := Joined(pieces);
    if i == 0 {
      assert s[0..] == s && StartsWith(s[0..], pieces[0]);
    } else {
      var rest := Joined(pieces[1..]);
      PieceContained(pieces[1..], i - 1);
      var at :| 0 <= at <= |rest| && StartsWith(rest[at..], pieces[i]);
      assert s[|pieces[0]| + at..] == rest[at..];
    }
  }

  function Rendered(piece: string, challengeId: string, r: string): string {
    if piece == RANDOM || piece == UUID then r else if piece == CHALLENGE then challengeId else piece
  }

  /** A template with a place for the random part is rendered piece by piece: that part
      stands wherever either of its placeholders did, and the challenge where its did. */
  lemma PlaceholdersFilled(pieces: seq<string>, challengeId: string, r: string)
    requires BraceFree(r) && (RANDOM in pieces || UUID in pieces)
    requires forall t :: t in pieces ==> PieceOfTemplate(t)
    ensures Render(Joined(pieces), challengeId, r)
         == Joined(seq(|pieces|, i requires 0 <= i < |pieces| => Rendered(pieces[i], challengeId, r)))
  {
    var i :| 0 <= i < |pieces| && (pieces[i] == RANDOM || pieces[i] == UUID);
    PieceContained(pieces, i);
    var once := Substituted(pieces, RANDOM, r);
    var twice := Substituted(once, UUID, r);
    StageFilled(pieces, RANDOM, r);
    StageFilled(once, UUID, r);
    StageFilled(twice, CHALLENGE, challengeId);
    assert Substituted(twice, CHALLENGE, challengeId)
        == seq(|pieces|, i requires 0 <= i < |pieces| => Rendered(pieces[i], challengeId, r));
  }

  lemma StageFilled(pieces: seq<string>, pattern: string, value: string)
    requires pattern == RANDOM || pattern == UUID || pattern == CHALLENGE
    requires forall t :: t in pieces ==> PieceOfTemplate(t)
    ensures Replace(Joined(pieces), pattern, value) == Joined(Substituted(pieces, pattern, value))
    ensures BraceFree(value) ==> forall t :: t in Substituted(pieces, pattern, value) ==> PieceOfTemplate(t)
  {
    forall t | t in pieces
      ensures t == pattern || Skipped(t, pattern)
    {
      if t != pattern {
        PieceSkipped(t, pattern);
      }
    }
    ReplaceInPieces(pieces, pattern, value);
  }
}
