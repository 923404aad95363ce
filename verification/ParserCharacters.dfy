/** The command language in terms of characters and numbers alone: what separates words,
    what the operators do, and how much is kept. */
module ParserCharacters {
  import opened Messages
  import opened ParserModel
  import opened ParserLanguage
  import opened ParserRoundTrip
  import opened ParserCompact

  /** A non-empty text of ordinary characters. */
  predicate Plain(w: string) {
    w != "" && forall i :: 0 <= i < |w| ==>
      w[i] !in [' ', '\t', '\n', '\U{000B}', '\U{000C}', '\r', '<', '>', '|', '\0']
  }

  lemma PlainIsToken(w: string)
    requires Plain(w)
    ensures IsToken(w)
  {
    forall i | 0 <= i < |w| ensures IsTokenChar(w[i]) { SpaceIs(w[i]); }
  }

  /** The items scanned in s make its stage. */
  lemma StageOf(s: string, items: seq<Item>)
    requires Scan(s, 0) == Some(items)
    ensures ParseStage(s) == Some(Fill(items))
  {
  }

  lemma FillTwo(x: Item, y: Item)
    ensures Fill([x]) == Put(NoStage, x) && Fill([x, y]) == Put(Put(NoStage, x), y)
  {
    FillNext([], x);
    FillNext([x], y);
    assert [] + [x] == [x] && [x] + [y] == [x, y];
  }

  lemma FirstWord(a: string)
    ensures Put(NoStage, Word(a)) == Stage([a], None, None, None)
  {
    assert [] + [a] == [a];
  }

  lemma SecondWord(a: string, b: string)
    ensures Put(Put(NoStage, Word(a)), Word(b)) == Stage([a, b], None, None, None)
  {
    FirstWord(a);
    assert [a] + [b] == [a, b];
  }

  // -------- words --------

  lemma OneWord(w: string)
    requires Plain(w)
    ensures ParseStage(w) == Some(Stage([w], None, None, None))
  {
    PlainIsToken(w);
    assert CompactText(None, [Word(w)]) == w;
    assert w[0..] == w;
    ScanCompact(w, 0, None, [Word(w)]);
    StageOf(w, [Word(w)]);
    FillTwo(Word(w), Word(w));
    FirstWord(w);
  }

  lemma TwoChunks(s: string, c: nat, x: Item, y: Item)
    requires 0 < c < |s| && ChunkAt(s, 0) == Piece(x, c) && ChunkAt(s, c) == Piece(y, |s|)
    ensures Scan(s, 0) == Some([x, y])
  {
    hide ChunkAt;
    ScanNext(s, 0, x, c);
    ScanNext(s, c, y, |s|);
    ScanNothing(s);
    hide Scan;
    assert [y] + [] == [y] && [x] + [y] == [x, y];
  }

  /** Each of the six white-space characters separates two words. */
  lemma SpaceSeparates(a: string, c: char, b: string)
    requires Plain(a) && Plain(b) && c in [' ', '\t', '\n', '\U{000B}', '\U{000C}', '\r']
    ensures ParseStage(a + [c] + b) == Some(Stage([a, b], None, None, None))
  {
    var s, n := a + [c] + b, |a|;
    PlainIsToken(a);
    PlainIsToken(b);
    SpaceIs(c);
    assert StandsAt(s, 0, a) && StandsAt(s, n + 1, b);
    assert s[n] == c && s[n + 1] == b[0] && s[0] == a[0];
    assert SkipSpaces(s, n) == SkipSpaces(s, n + 1) == n + 1;
    ChunkOfWord(s, 0, 0, a);
    ChunkOfWord(s, n, n + 1, b);
    TwoChunks(s, n, Word(a), Word(b));
    StageOf(s, [Word(a), Word(b)]);
    FillTwo(Word(a), Word(b));
    SecondWord(a, b);
  }

  /** No other character does, operators and bars apart. */
  lemma OthersDoNotSeparate(a: string, c: char, b: string)
    requires Plain(a) && Plain([c]) && Plain(b)
    ensures ParseStage(a + [c] + b) == Some(Stage([a + [c] + b], None, None, None))
  {
    var w := a + [c] + b;
    forall i | 0 <= i < |w|
      ensures w[i] !in [' ', '\t', '\n', '\U{000B}', '\U{000C}', '\r', '<', '>', '|', '\0']
    {
      assert w[i] == if i < |a| then a[i] else if i == |a| then [c][0] else b[i - |a| - 1];
    }
    OneWord(w);
  }

  // -------- operators --------

  lemma NoGapFirst(x: Item)
    ensures Gap(None, x) == ""
  {
  }

  lemma CompactTwo(x: Item, y: Item)
    requires IsToken(x.text) && IsToken(y.text)
    ensures ParseStage(ItemText(x) + Gap(Some(x), y) + ItemText(y)) == Some(Put(Put(NoStage, x), y))
  {
    hide ItemText, Gap, ParseStage, Scan;
    var s := ItemText(x) + Gap(Some(x), y) + ItemText(y);
    NoGapFirst(x);
    assert CompactText(Some(y), []) == "";
    assert [x, y][1..] == [y] && [y][1..] == [];
    assert CompactText(Some(x), [y]) == Gap(Some(x), y) + ItemText(y) + "";
    assert CompactText(None, [x, y]) == "" + ItemText(x) + CompactText(Some(x), [y]) == s;
    assert s[0..] == s;
    ScanCompact(s, 0, None, [x, y]);
    StageOf(s, [x, y]);
    FillTwo(x, y);
  }

  lemma WordThenInput(a: string, f: string)
    requires Plain(a) && Plain(f)
    ensures ParseStage(a + "<" + f) == Some(Stage([a], Some(f), None, None))
  {
    hide ParseStage;
    PlainIsToken(a);
    PlainIsToken(f);
    CompactTwo(Word(a), Redirect(In, f));
    FirstWord(a);
    assert a + "" + ("<" + f) == a + "<" + f;
  }

  lemma WordThenOutput(a: string, f: string)
    requires Plain(a) && Plain(f)
    ensures a != "2" ==> ParseStage(a + ">" + f) == Some(Stage([a], None, Some(f), None))
    ensures ParseStage("2 >" + f) == Some(Stage(["2"], None, Some(f), None))
  {
    hide ParseStage;
    PlainIsToken(a);
    PlainIsToken(f);
    CompactTwo(Word(a), Redirect(Out, f));
    CompactTwo(Word("2"), Redirect(Out, f));
    FirstWord(a);
    FirstWord("2");
    assert a + "" + (">" + f) == a + ">" + f;
    assert "2" + " " + (">" + f) == "2 >" + f;
  }

  lemma WordThenError(a: string, f: string)
    requires Plain(a) && Plain(f)
    ensures ParseStage(a + " 2>" + f) == Some(Stage([a], None, None, Some(f)))
  {
    hide ParseStage;
    PlainIsToken(a);
    PlainIsToken(f);
    CompactTwo(Word(a), Redirect(Err, f));
    FirstWord(a);
    assert a + " " + ("2>" + f) == a + " 2>" + f;
  }

  /** Operators need no white space, except that 2> must not follow a word directly and the
      word 2 not be directly before >. */
  lemma OperatorsRedirect(a: string, f: string)
    requires Plain(a) && Plain(f)
    ensures ParseStage(a + "<" + f) == Some(Stage([a], Some(f), None, None))
    ensures a != "2" ==> ParseStage(a + ">" + f) == Some(Stage([a], None, Some(f), None))
    ensures ParseStage("2 >" + f) == Some(Stage(["2"], None, Some(f), None))
    ensures ParseStage(a + " 2>" + f) == Some(Stage([a], None, None, Some(f)))
    ensures ParseStage("2>" + f) == Some(Stage([], None, None, Some(f)))
  {
    hide ParseStage;
    PlainIsToken(f);
    WordThenInput(a, f);
    WordThenOutput(a, f);
    WordThenError(a, f);
    OneError(f);
  }

  lemma OneError(f: string)
    requires IsToken(f)
    ensures ParseStage("2>" + f) == Some(Stage([], None, None, Some(f)))
  {
    var s, x := "2>" + f, Redirect(Err, f);
    assert CompactText(None, [x]) == s;
    assert s[0..] == s;
    ScanCompact(s, 0, None, [x]);
    StageOf(s, [x]);
    FillTwo(x, x);
  }

  /** Of two redirections of one kind the later one counts. */
  lemma LaterRedirectionWins(f: string, g: string)
    requires Plain(f) && Plain(g)
    ensures ParseStage("<" + f + "<" + g) == Some(Stage([], Some(g), None, None))
    ensures ParseStage(">" + f + ">" + g) == Some(Stage([], None, Some(g), None))
    ensures ParseStage("2>" + f + " 2>" + g) == Some(Stage([], None, None, Some(g)))
  {
    hide ParseStage;
    PlainIsToken(f);
    PlainIsToken(g);
    CompactTwo(Redirect(In, f), Redirect(In, g));
    CompactTwo(Redirect(Out, f), Redirect(Out, g));
    CompactTwo(Redirect(Err, f), Redirect(Err, g));
    assert "<" + f + "" + ("<" + g) == "<" + f + "<" + g;
    assert ">" + f + "" + (">" + g) == ">" + f + ">" + g;
    assert "2>" + f + " " + ("2>" + g) == "2>" + f + " 2>" + g;
  }

  /** An operator at the end is rejected, and so are two in a row: there is no >>. */
  lemma MissingTarget(a: string, rest: string, c: char, d: char)
    requires c in ['<', '>'] && d in ['<', '>']
    ensures ParseStage(a + [c]) == None
    ensures ParseStage(a + [c, d] + rest) == None
  {
    var s, t := a + [c], a + [c, d] + rest;
    assert s[|a|] == c && t[|a|] == c && t[|a| + 1] == d;
    DanglingIs(s, |a|);
    DanglingIs(t, |a|);
    assert Dangling(s, |a|) && Dangling(t, |a|);
    StageLanguage(s);
    StageLanguage(t);
  }

  /** Nothing is a command of no stages, and white space one stage of no words. */
  lemma NoCommand()
    ensures Parse("") == Some([]) && ParseStage(" ") == Some(Stage([], None, None, None))
  {
    SplitNoBar("");
    NoText();
    ScanBlank(" ", 0);
  }

  // -------- how much is kept --------

  /** Of any number of words in a stage, the first 31 are kept. */
  lemma ThirtyOneArguments(ws: seq<string>)
    requires forall i :: 0 <= i < |ws| ==> Plain(ws[i])
    ensures ParseStage(PrintItems(WordItems(ws)))
         == Some(Stage(if |ws| <= 31 then ws else ws[..31], None, None, None))
  {
    var items := WordItems(ws);
    var s := PrintItems(items);
    forall i | 0 <= i < |items| ensures IsToken(items[i].text) { PlainIsToken(ws[i]); }
    assert s[0..] == s;
    ScanPrinted(s, 0, items);
    StageOf(s, items);
    FirstWords(ws);
  }

  lemma {:induction false} FirstWords(ws: seq<string>)
    ensures Fill(WordItems(ws)) == Stage(if |ws| <= 31 then ws else ws[..31], None, None, None)
  {
    if ws != [] {
      var n := |ws| - 1;
      FirstWords(ws[..n]);
      FillNext(WordItems(ws[..n]), Word(ws[n]));
      assert WordItems(ws) == WordItems(ws[..n]) + [Word(ws[n])];
      assert ws == ws[..n] + [ws[n]];
      hide Fill;
      if n > 31 { assert ws[..n][..31] == ws[..31]; }
    }
  }

  function OneWordStages(ws: seq<string>): seq<Stage> {
    seq(|ws|, i requires 0 <= i < |ws| => Stage([ws[i]], None, None, None))
  }

  lemma WordsOfJoin(ws: seq<string>)
    requires forall i :: 0 <= i < |ws| ==> Plain(ws[i])
    ensures forall i :: 0 <= i < |ws| ==>
              Clean(ws[i]) && ws[i] != "" && ParseStage(ws[i]) == Some(Stage([ws[i]], None, None, None))
  {
    forall i | 0 <= i < |ws|
      ensures Clean(ws[i]) && ws[i] != "" && ParseStage(ws[i]) == Some(Stage([ws[i]], None, None, None))
    {
      PlainIsToken(ws[i]);
      OneWord(ws[i]);
    }
  }

  /** Of any number of stages in a command, the first 16 are kept. */
  lemma SixteenStages(ws: seq<string>)
    requires (forall i :: 0 <= i < |ws| ==> Plain(ws[i])) && |Join(ws)| <= 1023
    ensures Parse(Join(ws)) == Some(OneWordStages(if |ws| <= 16 then ws else ws[..16]))
  {
    hide ParseStage, SplitPipes, Text, ParseAll, Join;
    WordsOfJoin(ws);
    PiecesOfJoin(ws);
    TextOfClean(Join(ws));
    var kept := if |ws| <= 16 then ws else ws[..16];
    assert Truncated(Join(ws)) == Join(ws);
    assert Prefix(ws, MAX_STAGES) == kept;
    ParseEach(kept, OneWordStages(kept));
  }

  /** Of a command, the first 1023 characters are kept. */
  lemma ManyCharacters(w: string)
    requires Plain(w)
    ensures Parse(w) == Some([Stage([if |w| <= 1023 then w else w[..1023]], None, None, None)])
  {
    hide ParseStage, SplitPipes, Text, ParseAll;
    PlainIsToken(w);
    TextOfClean(w);
    var kept := if |w| <= 1023 then w else w[..1023];
    assert Truncated(w) == kept;
    assert Plain(kept);
    OneWord(kept);
    SplitNoBar(kept);
    ParseEach([kept], [Stage([kept], None, None, None)]);
  }

  /** Nothing is read behind a NUL. */
  lemma NothingBehindNul(a: string, b: string)
    requires '\0' !in a
    ensures Parse(a + "\0" + b) == Parse(a)
  {
    TextAfter(a, "\0" + b);
    TextAfter(a, "");
    NoText();
    assert a + "\0" + b == a + ("\0" + b) && a + "" == a;
    assert Text("\0" + b) == "";
  }
}
