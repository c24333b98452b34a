/**
 How keys are spelled. The words of a key are the same however it is written, with underscores, dashes or dots between the
 words or in camel case with or without acronyms, and in the singular or the plural.
 */
module KeySpelling {
  import opened Strings
  import opened Redaction

  datatype Style = Small | Capital | AllCaps

  /** A word of lower-case letters and digits, how it is written, and what stands before it. */
  datatype Piece = Piece(before: string, word: string, style: Style)

  predicate IsSmallLetter(c: char) { 'a' <= c <= 'z' }

  function Upper(c: char): char
    requires IsSmallLetter(c)
  {
    c - 'a' + 'A'
  }

  predicate IsWord(w: string) { w != [] && forall c | c in w :: IsSmallLetter(c) || '0' <= c <= '9' }

  predicate AllLetters(w: string) { forall c | c in w :: IsSmallLetter(c) }

  /** A word can be written so. */
  predicate Writable(p: Piece) {
    && IsWord(p.word)
    && (p.style == Capital ==> IsSmallLetter(p.word[0]))
    && (p.style == AllCaps ==> AllLetters(p.word))
  }

  function Shout(w: string): string
    requires AllLetters(w)
  {
    if w == [] then [] else assert w[0] in w; [Upper(w[0])] + Shout(w[1..])
  }

  function Written(p: Piece): string
    requires Writable(p)
  {
    match p.style
    case Small => p.word
    case Capital => [Upper(p.word[0])] + p.word[1..]
    case AllCaps => Shout(p.word)
  }

  /** The word ends in a lower-case letter or a digit as written. */
  predicate EndsSmall(p: Piece) { p.style == Small || (p.style == Capital && |p.word| > 1) }

  predicate IsSeparator(s: string) { |s| == 1 && !IsLetterOrDigit(s[0]) }

  /** A word is set off from the one before by one separator, or by a capital after a small letter. */
  predicate SetOff(p: Piece, afterSmall: bool) {
    Writable(p) && (IsSeparator(p.before) || (p.before == [] && p.style != Small && afterSmall))
  }

  predicate SpelledAfter(ps: seq<Piece>, afterSmall: bool) {
    ps == [] || (SetOff(ps[0], afterSmall) && SpelledAfter(ps[1..], EndsSmall(ps[0])))
  }

  predicate Spelled(ps: seq<Piece>) {
    ps != [] && Writable(ps[0]) && ps[0].before == [] && SpelledAfter(ps[1..], EndsSmall(ps[0]))
  }

  function Texts(ps: seq<Piece>, afterSmall: bool): string
    requires SpelledAfter(ps, afterSmall)
  {
    if ps == [] then [] else ps[0].before + (Written(ps[0]) + Texts(ps[1..], EndsSmall(ps[0])))
  }

  /** The key as written. */
  function Spelling(ps: seq<Piece>): string
    requires Spelled(ps)
  {
    Written(ps[0]) + Texts(ps[1..], EndsSmall(ps[0]))
  }

  function Words(ps: seq<Piece>): seq<string> {
    seq(|ps|, i requires 0 <= i < |ps| => ps[i].word)
  }

  // ---- Snake case of a spelling ----

  /** Text after its first character. */
  lemma SnakeHead(c: char, rest: string, prevLower: bool)
    ensures Snake([c] + rest, prevLower) == SnakeChar(c, prevLower) + Snake(rest, IsLower(c))
  {
    assert ([c] + rest)[1..] == rest;
  }

  lemma WordTail(w: string)
    requires w != []
    ensures IsWord(w) && |w| > 1 ==> IsWord(w[1..])
    ensures AllLetters(w) ==> AllLetters(w[1..])
  {
    assert forall d | d in w[1..] :: d in w;
  }

  lemma SmallSnakes(c: char, prevLower: bool)
    requires IsSmallLetter(c) || '0' <= c <= '9'
    ensures SnakeChar(c, prevLower) == [c] && IsLower(c)
  {
  }

  lemma UpperSnakes(c: char, prevLower: bool)
    requires IsSmallLetter(c)
    ensures SnakeChar(Upper(c), prevLower) == Break(prevLower) + [c] && !IsLower(Upper(c))
  {
  }

  /** The underscore before a capital right after a small letter. */
  function Break(afterSmall: bool): string { if afterSmall then "_" else "" }

  lemma {:induction false} SnakeSmall(w: string, rest: string, prevLower: bool)
    requires IsWord(w)
    ensures Snake(w + rest, prevLower) == w + Snake(rest, true)
  {
    var c, tail := w[0], w[1..];
    assert c in w;
    SmallSnakes(c, prevLower);
    SnakeHead(c, tail + rest, prevLower);
    assert w + rest == [c] + (tail + rest);
    if tail == [] {
      assert tail + rest == rest && w == [c];
    } else {
      WordTail(w);
      SnakeSmall(tail, rest, true);
      assert [c] + (tail + Snake(rest, true)) == w + Snake(rest, true);
    }
  }

  /** A capital, given what its tail comes to. */
  lemma CapitalThen(c: char, text: string, tail: string, end: string, prevLower: bool)
    requires IsSmallLetter(c) && Snake(text, false) == tail + end
    ensures Snake([Upper(c)] + text, prevLower) == Break(prevLower) + ([c] + tail) + end
  {
    UpperSnakes(c, prevLower);
    SnakeHead(Upper(c), text, prevLower);
  }

  lemma ShoutParts(w: string, rest: string)
    requires w != [] && AllLetters(w)
    ensures IsSmallLetter(w[0]) && AllLetters(w[1..]) && [w[0]] + w[1..] == w
    ensures Shout(w) + rest == [Upper(w[0])] + (Shout(w[1..]) + rest)
  {
    WordTail(w);
    assert w[0] in w;
  }

  lemma {:induction false} SnakeShout(w: string, rest: string)
    requires AllLetters(w)
    ensures Snake(Shout(w) + rest, false) == w + Snake(rest, false)
  {
    if w == [] {
      assert Shout(w) + rest == rest;
    } else {
      ShoutParts(w, rest);
      SnakeShout(w[1..], rest);
      CapitalThen(w[0], Shout(w[1..]) + rest, w[1..], Snake(rest, false), false);
      NothingBefore(w, Snake(rest, false));
    }
  }

  lemma SnakeAllCaps(w: string, rest: string, prevLower: bool)
    requires w != [] && AllLetters(w)
    ensures Snake(Shout(w) + rest, prevLower) == Break(prevLower) + w + Snake(rest, false)
  {
    ShoutParts(w, rest);
    SnakeShout(w[1..], rest);
    CapitalThen(w[0], Shout(w[1..]) + rest, w[1..], Snake(rest, false), prevLower);
  }

  lemma SnakeCapital(w: string, rest: string, prevLower: bool)
    requires IsWord(w) && IsSmallLetter(w[0])
    ensures Snake([Upper(w[0])] + w[1..] + rest, prevLower) == Break(prevLower) + w + Snake(rest, |w| > 1)
  {
    var c, tail := w[0], w[1..];
    if tail == [] {
      assert tail + rest == rest;
    } else {
      WordTail(w);
      SnakeSmall(tail, rest, false);
    }
    CapitalThen(c, tail + rest, tail, Snake(rest, |w| > 1), prevLower);
    assert [Upper(c)] + tail + rest == [Upper(c)] + (tail + rest) && w == [c] + tail;
  }

  /** A written word snakes to itself, after an underscore if it is a capital right after a small letter. */
  lemma SnakeWritten(p: Piece, rest: string, prevLower: bool)
    requires Writable(p)
    ensures Snake(Written(p) + rest, prevLower) ==
      Break(prevLower && p.style != Small) + p.word + Snake(rest, EndsSmall(p))
  {
    match p.style
    case Small => SnakeSmall(p.word, rest, prevLower);
    case Capital => SnakeCapital(p.word, rest, prevLower);
    case AllCaps => SnakeAllCaps(p.word, rest, prevLower);
  }

  /** However it is set off, a word comes out after one underscore. */
  lemma SnakeSetOff(p: Piece, rest: string, afterSmall: bool)
    requires SetOff(p, afterSmall)
    ensures Snake(p.before + (Written(p) + rest), afterSmall) == "_" + p.word + Snake(rest, EndsSmall(p))
  {
    if IsSeparator(p.before) {
      var c := p.before[0];
      assert p.before == [c];
      SnakeHead(c, Written(p) + rest, afterSmall);
      SnakeWritten(p, rest, false);
    } else {
      assert p.before + (Written(p) + rest) == Written(p) + rest;
      SnakeWritten(p, rest, afterSmall);
    }
  }

  /** Every word with an underscore before it. */
  function Underscored(ws: seq<string>): string {
    if ws == [] then [] else "_" + ws[0] + Underscored(ws[1..])
  }

  lemma {:induction false} JoinUnderscored(ws: seq<string>)
    requires ws != []
    ensures Join(ws, '_') == ws[0] + Underscored(ws[1..])
  {
    if |ws| > 1 {
      JoinUnderscored(ws[1..]);
      assert ws[0] + ['_'] + (ws[1] + Underscored(ws[1..][1..])) == ws[0] + ("_" + ws[1] + Underscored(ws[1..][1..]));
    } else {
      assert ws[0] + Underscored(ws[1..]) == ws[0];
    }
  }

  lemma {:induction false} SnakeTexts(ps: seq<Piece>, afterSmall: bool)
    requires SpelledAfter(ps, afterSmall)
    ensures Snake(Texts(ps, afterSmall), afterSmall) == Underscored(Words(ps))
  {
    if ps != [] {
      SnakeTexts(ps[1..], EndsSmall(ps[0]));
      SnakeSetOff(ps[0], Texts(ps[1..], EndsSmall(ps[0])), afterSmall);
      assert Words(ps)[1..] == Words(ps[1..]);
    }
  }

  lemma SnakeSpelling(ps: seq<Piece>)
    requires Spelled(ps)
    ensures Snake(Spelling(ps), false) == Join(Words(ps), '_')
  {
    var more := Words(ps[1..]);
    SnakeTexts(ps[1..], EndsSmall(ps[0]));
    SnakeWritten(ps[0], Texts(ps[1..], EndsSmall(ps[0])), false);
    assert Words(ps) == [ps[0].word] + more;
    JoinUnderscored([ps[0].word] + more);
    assert ([ps[0].word] + more)[1..] == more;
    NothingBefore(ps[0].word, Underscored(more));
  }

  lemma NothingBefore(w: string, rest: string)
    ensures Break(false) + w + rest == w + rest
  {
  }

  /** No underscore at either end. */
  predicate Trimmed(s: string) { s != [] && s[0] != '_' && s[|s| - 1] != '_' }

  predicate AllWords(ws: seq<string>) { forall w | w in ws :: IsWord(w) }

  lemma {:induction false} JoinTrimmed(ws: seq<string>)
    requires ws != [] && AllWords(ws)
    ensures Trimmed(Join(ws, '_'))
  {
    var w := ws[0];
    assert w in ws && w[0] in w && w[|w| - 1] in w;
    if |ws| > 1 {
      assert forall x | x in ws[1..] :: x in ws;
      JoinTrimmed(ws[1..]);
    }
  }

  lemma {:induction false} SpelledWords(ps: seq<Piece>, afterSmall: bool)
    requires SpelledAfter(ps, afterSmall)
    ensures AllWords(Words(ps))
  {
    if ps != [] {
      SpelledWords(ps[1..], EndsSmall(ps[0]));
      assert Words(ps) == [ps[0].word] + Words(ps[1..]);
    }
  }

  lemma PlainWords(ws: seq<string>)
    requires AllWords(ws)
    ensures Plain(ws)
  {
  }

  /** A key's segments are its words in the singular, however it is spelled. */
  lemma SegmentsAreWords(ps: seq<Piece>)
    requires Spelled(ps)
    ensures Segments(Spelling(ps)) == Singulars(Words(ps))
  {
    var ws := Words(ps);
    SpelledWords(ps[1..], EndsSmall(ps[0]));
    assert ws == [ps[0].word] + Words(ps[1..]);
    SnakeSpelling(ps);
    JoinTrimmed(ws);
    PlainWords(ws);
    SplitOfJoin(ws);
  }

  // ---- Plurals ----

  /** Exactly which plurals are folded: a word of two letters or more that does not end in "s" and its plural are the same. */
  lemma PluralFolds(w: string)
    ensures Singular(w + "s") == (if |w| >= 2 && w[|w| - 1] != 's' then w else w + "s")
    ensures w != [] && w[|w| - 1] != 's' ==> Singular(w) == w
  {
    var p := w + "s";
    assert p[..|w|] == w;
  }

  /**
   What a key hides, from the words alone: a name matches a key exactly when its words in the singular are consecutive words
   of the key in the singular, however either is spelled.
   */
  lemma SensitiveByWords(key: seq<Piece>, name: seq<Piece>)
    requires Spelled(key) && Spelled(name)
    ensures Sensitive(Spelling(key), NormalizedKeys([Spelling(name)])) <==> HasRun(Singulars(Words(name)), Singulars(Words(key)))
  {
    SegmentsAreWords(key);
    SegmentsAreWords(name);
    SensitiveIsARun(Spelling(key), [Spelling(name)]);
  }

  // ---- The documented keys ----

  /** Two small words, the second set off by a separator or, with a capital, by nothing. */
  function Two(first: string, sep: string, second: string): seq<Piece> {
    [Piece("", first, Small), Piece(sep, second, if sep == [] then Capital else Small)]
  }

  lemma TwoSpelled(first: string, sep: string, second: string)
    requires IsWord(first) && IsWord(second) && IsSmallLetter(second[0]) && (sep == [] || IsSeparator(sep))
    ensures Spelled(Two(first, sep, second)) && Words(Two(first, sep, second)) == [first, second]
    ensures Spelling(Two(first, sep, second)) ==
      if sep == [] then first + ([Upper(second[0])] + second[1..]) else first + (sep + second)
  {
    var ps := Two(first, sep, second);
    assert ps[1..] == [ps[1]] && ps[1..][1..] == [];
    assert SpelledAfter(ps[1..][1..], EndsSmall(ps[1]));
    assert SpelledAfter(ps[1..], EndsSmall(ps[0]));
    assert Texts(ps[1..], EndsSmall(ps[0])) == ps[1].before + (Written(ps[1]) + []);
  }

  lemma OneSpelled(word: string)
    requires IsWord(word)
    ensures Spelled([Piece("", word, Small)]) && Words([Piece("", word, Small)]) == [word]
    ensures Spelling([Piece("", word, Small)]) == word
  {
    var ps := [Piece("", word, Small)];
    assert ps[1..] == [];
  }

  predicate Folds(w: string) { IsWord(w) && IsSmallLetter(w[0]) && |w| >= 2 && w[|w| - 1] != 's' }

  lemma FoldsPlural(w: string)
    requires Folds(w)
    ensures IsWord(w + "s") && (w + "s")[0] == w[0] && Singular(w + "s") == w && Singular(w) == w
  {
    PluralFolds(w);
  }

  /** A name hides its plural at the end of a key of two words, and two words hide their plural in any spelling. */
  lemma PluralMatches(first: string, sep: string, sep': string, w: string)
    requires IsWord(first) && Folds(w) && (sep == [] || IsSeparator(sep)) && (sep' == [] || IsSeparator(sep'))
    ensures IsWord(w + "s") && Spelled(Two(first, sep, w + "s")) && Spelled(Two(first, sep', w))
    ensures Sensitive(Spelling(Two(first, sep, w + "s")), NormalizedKeys([w]))
    ensures Sensitive(Spelling(Two(first, sep, w + "s")), NormalizedKeys([Spelling(Two(first, sep', w))]))
  {
    FoldsPlural(w);
    TwoSpelled(first, sep, w + "s");
    TwoSpelled(first, sep', w);
    OneSpelled(w);
    SensitiveByWords(Two(first, sep, w + "s"), [Piece("", w, Small)]);
    SensitiveByWords(Two(first, sep, w + "s"), Two(first, sep', w));
    var key := Singulars([first, w + "s"]);
    assert key == [Singular(first), w] && Singulars([w]) == [w] && Singulars([first, w]) == key;
    assert RunAt([w], key, 1) && RunAt(key, key, 0);
  }

  /** A word hides itself and its plural, and no other word. */
  lemma OneWordMatches(w: string, key: string)
    requires Folds(w) && IsWord(key)
    ensures Sensitive(key, NormalizedKeys([w])) <==> key == w || key == w + "s"
  {
    FoldsPlural(w);
    OneSpelled(w);
    OneSpelled(key);
    SensitiveByWords([Piece("", key, Small)], [Piece("", w, Small)]);
    assert Singulars([key]) == [Singular(key)] && Singulars([w]) == [w];
    if Singular(key) == w {
      assert RunAt([w], [w], 0);
      assert key != w ==> key == w + "s";
    } else {
      assert forall i: nat :: !RunAt([w], [Singular(key)], i);
    }
  }

  lemma CamelPlural(first: string, w: string, key: string, name: string)
    requires IsWord(first) && Folds(w) && key == first + ([Upper(w[0])] + (w + "s")[1..]) && name == first + ("_" + w)
    ensures Sensitive(key, NormalizedKeys([w])) && Sensitive(key, NormalizedKeys([name]))
  {
    FoldsPlural(w);
    TwoSpelled(first, "", w + "s");
    TwoSpelled(first, "_", w);
    PluralMatches(first, "", "_", w);
  }

  /** The keys the code's own documentation names: "token" matches "sessionTokens", and not "tokenizer". */
  lemma DocumentedToken(name: string, camel: string, longer: string)
    requires name == "token" && camel == "sessionTokens" && longer == "tokenizer"
    ensures Sensitive(camel, NormalizedKeys([name])) && !Sensitive(longer, NormalizedKeys([name]))
  {
    var first := "session";
    CamelPlural(first, name, camel, first + ("_" + name));
    OneWordMatches(name, longer);
  }

  /** And "api_key" matches "apiKeys". */
  lemma DocumentedApiKey(name: string, camel: string)
    requires name == "api_key" && camel == "apiKeys"
    ensures Sensitive(camel, NormalizedKeys([name]))
  {
    var first, second := "api", "key";
    CamelPlural(first, second, camel, name);
  }
}
