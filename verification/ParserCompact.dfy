/** The shortest way to write a command. It is never longer than the text that was parsed,
    so every result of the parser can be printed and parsed again. */
module ParserCompact {
  import opened Messages
  import opened ParserModel
  import opened ParserLanguage
  import opened ParserRoundTrip

  // -------- the white space that items need --------

  /** White space needed before y when prev stands before it: words and 2> need some, and
      so does > behind the word 2. */
  function Gap(prev: Option<Item>, y: Item): string {
    if prev == None then ""
    else if y.Word? || y.target == Err || (prev == Some(Word("2")) && y.target == Out) then " "
    else ""
  }

  function CompactText(prev: Option<Item>, items: seq<Item>): string
    decreases |items|
  {
    if items == [] then ""
    else Gap(prev, items[0]) + ItemText(items[0]) + CompactText(Some(items[0]), items[1..])
  }

  function Cost(prev: Option<Item>, items: seq<Item>): nat {
    |CompactText(prev, items)|
  }

  // -------- the scan of a compact text --------

  lemma CompactFollows(prev: Item, items: seq<Item>)
    requires TokenItems(items)
    ensures MayFollow(prev, CompactText(Some(prev), items))
  {
    if items != [] { assert IsToken(items[0].text); }
  }

  lemma GapIsSpace(prev: Option<Item>, y: Item)
    ensures Gap(prev, y) == "" || Gap(prev, y) == " "
  {
  }

  lemma ScanNothing(s: string)
    ensures Scan(s, |s|) == Some([])
  {
  }

  lemma {:induction false} ScanCompact(s: string, c: nat, prev: Option<Item>, items: seq<Item>)
    requires c <= |s| && s[c..] == CompactText(prev, items) && TokenItems(items)
    ensures Scan(s, c) == Some(items)
    decreases |items|
  {
    hide ChunkAt, Scan, Gap, ItemText;
    if items == [] {
      ScanNothing(s);
    } else {
      var item, rest := items[0], items[1..];
      CompactFollows(item, rest);
      GapIsSpace(prev, item);
      ItemAfterGap(s, c, Gap(prev, item), item, CompactText(Some(item), rest));
      var e := c + |Gap(prev, item)| + |ItemText(item)|;
      ScanNext(s, c, item, e);
      ScanCompact(s, e, Some(item), rest);
      assert items == [item] + rest;
    }
  }

  // -------- no text of the same items is shorter --------

  /** The cursor stands behind prev. */
  predicate Behind(s: string, c: nat, prev: Option<Item>) {
    c <= |s| && (prev.Some? && c < |s| ==> !IsTokenChar(s[c]) && (prev == Some(Word("2")) ==> s[c] != '>'))
  }

  lemma WordCost(s: string, c: nat, prev: Option<Item>)
    requires Behind(s, c, prev) && SkipSpaces(s, c) < |s| && OperatorAt(s, SkipSpaces(s, c)) == None
    ensures var p := SkipSpaces(s, c);
            var e := TokenEnd(s, p);
            p < e && e >= c + |Gap(prev, Word(s[p..e]))| + (e - p) && Behind(s, e, Some(Word(s[p..e])))
  {
    var p := SkipSpaces(s, c);
    var e := TokenEnd(s, p);
    assert e == p + 1 ==> s[p..e] == [s[p]];
    if s[p..e] == "2" { assert s[p..e][0] == s[p]; }
  }

  lemma RedirectCost(s: string, c: nat, prev: Option<Item>, target: Target, n: nat, t: nat, e: nat)
    requires Behind(s, c, prev) && SkipSpaces(s, c) < |s| && OperatorAt(s, SkipSpaces(s, c)) == Some((target, n))
    requires SkipSpaces(s, c) + n <= |s| && TokenAt(s, SkipSpaces(s, c) + n) == Some((t, e))
    ensures var item := Redirect(target, s[t..e]);
            e >= c + |Gap(prev, item)| + |ItemText(item)| && Behind(s, e, Some(item))
  {
    assert n == |Symbol(target)|;
    if SkipSpaces(s, c) == c { assert Gap(prev, Redirect(target, s[t..e])) == ""; }
  }

  /** One item costs at least its text and the white space it needs. */
  lemma ChunkCost(s: string, c: nat, prev: Option<Item>)
    requires Behind(s, c, prev) && ChunkAt(s, c).Piece?
    ensures var chunk := ChunkAt(s, c);
            && chunk.next >= c + |Gap(prev, chunk.item)| + |ItemText(chunk.item)|
            && Behind(s, chunk.next, Some(chunk.item))
  {
    hide Gap, ItemText, Behind, SkipSpaces, TokenEnd;
    var p := SkipSpaces(s, c);
    match OperatorAt(s, p)
    case Some(op) =>
      var t := TokenAt(s, p + op.1).value;
      RedirectCost(s, c, prev, op.0, op.1, t.0, t.1);
    case None =>
      WordCost(s, c, prev);
      WordText(Word(s[p..TokenEnd(s, p)]));
  }

  lemma WordText(item: Item)
    requires item.Word?
    ensures ItemText(item) == item.text
  {
  }

  /** The compact text is the shortest text of its items. */
  lemma {:induction false} CompactIsShortest(s: string, c: nat, prev: Option<Item>)
    requires Behind(s, c, prev) && Scan(s, c).Some?
    ensures |s| - c >= Cost(prev, Scan(s, c).value)
    decreases |s| - c
  {
    var chunk := ChunkAt(s, c);
    if chunk.Piece? {
      ChunkCost(s, c, prev);
      hide ChunkAt, Gap, ItemText, Behind;
      var rest := Scan(s, chunk.next).value;
      CompactIsShortest(s, chunk.next, Some(chunk.item));
      assert Scan(s, c).value == [chunk.item] + rest;
      CompactHead(prev, chunk.item, rest);
    }
  }

  lemma CompactHead(prev: Option<Item>, x: Item, rest: seq<Item>)
    ensures Cost(prev, [x] + rest) == |Gap(prev, x)| + |ItemText(x)| + Cost(Some(x), rest)
  {
    assert ([x] + rest)[1..] == rest;
  }

  // -------- the compact form of a stage --------

  /** Redirections stand behind the first word that is not 2, so that > needs no space; with
      no such word, at the end. */
  function Lead(argv: seq<string>): (k: nat)
    ensures k <= |argv| && (k == 0 <==> argv == [])
    ensures forall i :: 0 <= i < k - 1 ==> argv[i] == "2"
    ensures k > 0 && argv[k - 1] == "2" ==> k == |argv|
  {
    if argv == [] then 0 else if argv[0] != "2" then 1 else 1 + Lead(argv[1..])
  }

  function Redirects(st: Stage): seq<Item> {
    RedirectItem(Err, st.error) + RedirectItem(In, st.input) + RedirectItem(Out, st.output)
  }

  function Arranged(st: Stage): seq<Item> {
    WordItems(st.argv[..Lead(st.argv)]) + Redirects(st) + WordItems(st.argv[Lead(st.argv)..])
  }

  function CompactStage(st: Stage): string {
    if Arranged(st) == [] then " " else CompactText(None, Arranged(st))
  }

  lemma FillArranged(st: Stage)
    requires |st.argv| <= MAX_ARGS - 1
    ensures Fill(Arranged(st)) == st
  {
    hide Fill;
    var k := Lead(st.argv);
    var w := WordItems(st.argv[..k]);
    var e, i, o := RedirectItem(Err, st.error), RedirectItem(In, st.input), RedirectItem(Out, st.output);
    FillWords(st.argv[..k]);
    FillRedirect(w, Err, st.error);
    FillRedirect(w + e, In, st.input);
    FillRedirect(w + e + i, Out, st.output);
    assert w + e + i + o == w + Redirects(st);
    FillMoreWords(w + Redirects(st), st.argv[k..]);
    assert st.argv[..k] + st.argv[k..] == st.argv;
  }

  lemma ArrangedTokens(st: Stage)
    requires WellFormedStage(st)
    ensures TokenItems(Arranged(st))
  {
    var k := Lead(st.argv);
    assert TokenItems(WordItems(st.argv[..k])) && TokenItems(WordItems(st.argv[k..]));
    assert TokenItems(Redirects(st));
  }

  lemma {:induction false} CleanCompact(prev: Option<Item>, items: seq<Item>)
    requires TokenItems(items)
    ensures Clean(CompactText(prev, items)) && (items != [] ==> CompactText(prev, items) != "")
    decreases |items|
  {
    hide ItemText;
    if items != [] {
      CleanItem(items[0]);
      ItemStarts(items[0]);
      CleanCompact(Some(items[0]), items[1..]);
    }
  }

  lemma CompactStageRoundTrip(st: Stage)
    requires WellFormedStage(st)
    ensures ParseStage(CompactStage(st)) == Some(st)
    ensures Clean(CompactStage(st)) && CompactStage(st) != ""
  {
    hide Arranged, CompactText, Scan, Fill;
    var s := CompactStage(st);
    assert s[0..] == s;
    FillArranged(st);
    if Arranged(st) == [] {
      ScanBlank(s, 0);
    } else {
      ArrangedTokens(st);
      CleanCompact(None, Arranged(st));
      ScanCompact(s, 0, None, Arranged(st));
    }
  }

  // -------- what a list of items costs --------

  /** Items with white space in front, except at the start. */
  predicate Spaced(x: Item) { x.Word? || x.target == Err }

  function Weight(items: seq<Item>): nat {
    if items == [] then 0 else
      var x := items[|items| - 1];
      Weight(items[..|items| - 1]) + |ItemText(x)| + if Spaced(x) then 1 else 0
  }

  /** The word 2 with > directly after it. */
  predicate Pair(items: seq<Item>, i: int) {
    1 <= i < |items| && items[i - 1] == Word("2") && items[i].Redirect? && items[i].target == Out
  }

  function Penalties(items: seq<Item>): nat {
    if items == [] then 0 else
      Penalties(items[..|items| - 1]) + if Pair(items, |items| - 1) then 1 else 0
  }

  function Discount(items: seq<Item>): nat {
    if items != [] && Spaced(items[0]) then 1 else 0
  }

  function LastOf(prev: Option<Item>, items: seq<Item>): Option<Item> {
    if items == [] then prev else Some(items[|items| - 1])
  }

  lemma {:induction false} CostNext(prev: Option<Item>, items: seq<Item>, x: Item)
    ensures Cost(prev, items + [x]) == Cost(prev, items) + |Gap(LastOf(prev, items), x)| + |ItemText(x)|
    decreases |items|
  {
    hide Gap, ItemText;
    if items == [] {
      assert items + [x] == [x] + [];
      CompactHead(prev, x, []);
    } else {
      var y, rest := items[0], items[1..];
      CostNext(Some(y), rest, x);
      CompactHead(prev, y, rest);
      CompactHead(prev, y, rest + [x]);
      assert items == [y] + rest && items + [x] == [y] + (rest + [x]);
    }
  }

  lemma {:induction false} CostIs(items: seq<Item>)
    ensures Cost(None, items) + Discount(items) == Weight(items) + Penalties(items)
  {
    hide ItemText, CompactText;
    if items == [] {
      NothingCosts();
    } else {
      var most, x := items[..|items| - 1], items[|items| - 1];
      CostIs(most);
      CostNext(None, most, x);
      assert items == most + [x];
    }
  }

  lemma NothingCosts()
    ensures Cost(None, []) == 0
  {
  }

  // -------- a stage costs no more than the items it was filled from --------

  function WordsWeight(argv: seq<string>): nat {
    if argv == [] then 0 else WordsWeight(argv[..|argv| - 1]) + |argv[|argv| - 1]| + 1
  }

  function FileWeight(f: Option<string>, n: nat): nat {
    if f.Some? then |f.value| + n else 0
  }

  function StageWeight(st: Stage): nat {
    WordsWeight(st.argv) + FileWeight(st.error, 3) + FileWeight(st.input, 1) + FileWeight(st.output, 1)
  }

  lemma PutWeight(st: Stage, x: Item)
    ensures var w := |ItemText(x)| + if Spaced(x) then 1 else 0;
            && StageWeight(Put(st, x)) <= StageWeight(st) + w
            && (Put(st, x) == st && x.Word? ==> w >= 1)
  {
    if x.Word? {
      assert (st.argv + [x.text])[..|st.argv|] == st.argv;
    }
  }

  /** Overwritten redirections and words past the limit only make the list heavier. */
  lemma {:induction false} FillWeight(items: seq<Item>)
    ensures Weight(items) >= StageWeight(Fill(items)) + if Fill(items).argv != Words(items) then 1 else 0
  {
    hide ItemText, StageWeight;
    if items == [] {
      NothingWeighs();
    } else {
      var most, x := items[..|items| - 1], items[|items| - 1];
      FillWeight(most);
      FillMeans(most);
      PutWeight(Fill(most), x);
    }
  }

  lemma NothingWeighs()
    ensures StageWeight(NoStage) == 0
  {
  }

  lemma {:induction false} WeightConcat(a: seq<Item>, b: seq<Item>)
    ensures Weight(a + b) == Weight(a) + Weight(b)
    decreases |b|
  {
    hide ItemText, Spaced;
    if b == [] {
      assert a + b == a;
    } else {
      var n := |b| - 1;
      assert (a + b)[..|a + b| - 1] == a + b[..n];
      WeightConcat(a, b[..n]);
    }
  }

  lemma {:induction false} WeightOfWords(argv: seq<string>)
    ensures Weight(WordItems(argv)) == WordsWeight(argv)
  {
    if argv != [] {
      var n := |argv| - 1;
      WeightOfWords(argv[..n]);
      assert WordItems(argv)[..n] == WordItems(argv[..n]);
    }
  }

  lemma WeightOfRedirect(target: Target, f: Option<string>)
    ensures Weight(RedirectItem(target, f)) == FileWeight(f, if target == Err then 3 else 1)
  {
    if f.Some? { assert RedirectItem(target, f)[..0] == []; }
  }

  lemma ArrangedWeight(st: Stage)
    ensures Weight(Arranged(st)) == StageWeight(st)
  {
    hide Weight, RedirectItem;
    var k := Lead(st.argv);
    var e, i, o := RedirectItem(Err, st.error), RedirectItem(In, st.input), RedirectItem(Out, st.output);
    var a, b := WordItems(st.argv[..k]), WordItems(st.argv[k..]);
    WeightConcat(a + Redirects(st), b);
    WeightConcat(a, e + i + o);
    WeightConcat(e + i, o);
    WeightConcat(e, i);
    WeightOfRedirect(Err, st.error);
    WeightOfRedirect(In, st.input);
    WeightOfRedirect(Out, st.output);
    WeightOfWords(st.argv);
    WeightOfWords(st.argv[..k]);
    WeightOfWords(st.argv[k..]);
    WeightConcat(a, b);
    assert WordItems(st.argv) == a + b;
  }

  /** Only words 2 and an output. */
  predicate Stuck(st: Stage) {
    && st.argv != [] && (forall i :: 0 <= i < |st.argv| ==> st.argv[i] == "2")
    && st.error == None && st.input == None && st.output.Some?
  }

  lemma ArrangedPairs(st: Stage, i: int)
    requires Pair(Arranged(st), i)
    ensures i == Lead(st.argv) && Stuck(st)
  {
  }

  lemma {:induction false} PenaltiesAt(items: seq<Item>, j: int)
    requires forall i :: Pair(items, i) ==> i == j
    ensures Penalties(items) == if Pair(items, j) then 1 else 0
  {
    if items != [] {
      var most := items[..|items| - 1];
      assert forall i :: Pair(most, i) ==> Pair(items, i);
      assert Pair(items, j) && j < |most| ==> Pair(most, j);
      PenaltiesAt(most, j);
    }
  }

  lemma ArrangedPenalties(st: Stage)
    ensures Penalties(Arranged(st)) <= if Stuck(st) then 1 else 0
  {
    hide Arranged, Stuck, Penalties;
    forall i | Pair(Arranged(st), i) ensures i == Lead(st.argv) && Stuck(st) { ArrangedPairs(st, i); }
    PenaltiesAt(Arranged(st), Lead(st.argv));
  }

  lemma ArrangedDiscount(st: Stage)
    ensures Discount(Arranged(st)) == if st.argv != [] || st.error.Some? then 1 else 0
  {
    var k := Lead(st.argv);
    if st.argv != [] { assert Arranged(st)[0] == Word(st.argv[0]); }
  }

  lemma {:induction false} WordIn(items: seq<Item>, i: nat)
    requires i < |items| && items[i].Word?
    ensures items[i].text in Words(items)
  {
    if i < |items| - 1 { WordIn(items[..|items| - 1], i); }
  }

  /** If a list of words 2 and outputs starts with a word, its first output costs a space. */
  lemma {:induction false} StuckPays(items: seq<Item>, j: nat)
    requires j < |items| && items[j].Redirect? && items[0].Word?
    requires forall i :: 0 <= i < |items| ==> items[i] == Word("2") || (items[i].Redirect? && items[i].target == Out)
    ensures Penalties(items) >= 1
    decreases |items|
  {
    var n := |items| - 1;
    if j < n {
      StuckPays(items[..n], j);
    } else if items[n - 1].Redirect? {
      StuckPays(items[..n], n - 1);
    }
  }

  lemma StuckItems(items: seq<Item>)
    requires Stuck(Fill(items)) && Fill(items).argv == Words(items) && Discount(items) == 1
    ensures Penalties(items) >= 1
  {
    FillMeans(items);
    hide Fill, Words, Penalties;
    forall i | 0 <= i < |items|
      ensures items[i] == Word("2") || (items[i].Redirect? && items[i].target == Out)
    {
      if items[i].Word? {
        WordIn(items, i);
      } else {
        assert items[i] == Redirect(items[i].target, items[i].text) && items[i] in items;
      }
    }
    var f := Fill(items).output.value;
    var j :| 0 <= j < |items| && items[j] == Redirect(Out, f);
    StuckPays(items, j);
  }

  lemma DiscountKept(items: seq<Item>)
    requires Discount(items) == 1
    ensures Fill(items).argv != [] || Fill(items).error.Some?
  {
    FillMeans(items);
    hide Fill, Words;
    if items[0].Word? {
      WordIn(items, 0);
    } else {
      assert items[0] == Redirect(Err, items[0].text) && items[0] in items;
    }
  }

  lemma ArrangedIsCheaper(items: seq<Item>)
    ensures Cost(None, Arranged(Fill(items))) <= Cost(None, items)
  {
    hide Cost, Arranged, Fill, Weight, Penalties, Discount, Stuck, Words, StageWeight;
    var st := Fill(items);
    CostIs(items);
    CostIs(Arranged(st));
    ArrangedWeight(st);
    ArrangedPenalties(st);
    ArrangedDiscount(st);
    FillWeight(items);
    DiscountIsOne(items);
    if Discount(items) == 1 {
      DiscountKept(items);
      if Stuck(st) && st.argv == Words(items) { StuckItems(items); }
    } else if Stuck(st) {
      StuckHasWords(st);
    }
  }

  lemma DiscountIsOne(items: seq<Item>)
    ensures Discount(items) <= 1
  {
  }

  lemma StuckHasWords(st: Stage)
    requires Stuck(st)
    ensures st.argv != []
  {
  }

  lemma CompactStageFits(piece: string)
    requires piece != "" && ParseStage(piece).Some?
    ensures |CompactStage(ParseStage(piece).value)| <= |piece|
  {
    hide Scan, Arranged, Fill;
    CompactIsShortest(piece, 0, None);
    ArrangedIsCheaper(Scan(piece, 0).value);
  }

  // -------- whole commands --------

  function PrintCompact(stages: seq<Stage>): string {
    Join(seq(|stages|, i requires 0 <= i < |stages| => CompactStage(stages[i])))
  }

  lemma {:induction false} JoinIsShorter(a: seq<string>, b: seq<string>)
    requires |a| <= |b| && forall i :: 0 <= i < |a| ==> |a[i]| <= |b[i]|
    ensures |Join(a)| <= |Join(b)|
    decreases |a|
  {
    if a != [] { JoinIsShorter(a[1..], b[1..]); }
  }

  lemma {:induction false} JoinOfSplit(s: string)
    ensures |Join(SplitPipes(s))| <= |s|
    ensures forall i :: 0 <= i < |SplitPipes(s)| ==> SplitPipes(s)[i] != ""
    decreases |s|
  {
    hide SplitPipes, BarAt;
    assert s[0..] == s;
    if s == "" {
      SplitNoBar(s);
    } else if s[0] == '|' {
      SkipBar(s, 0);
      JoinOfSplit(s[1..]);
    } else {
      var n := BarAt(s);
      SplitAtBar(s, n);
      if n < |s| {
        JoinOfSplit(s[n + 1..]);
        JoinHead(s[..n], SplitPipes(s[n + 1..]));
      } else {
        SplitNoBar([]);
        JoinHead(s[..n], []);
      }
    }
  }

  lemma JoinHead(a: string, rest: seq<string>)
    ensures |Join([a] + rest)| <= |a| + 1 + |Join(rest)|
    ensures |Join([a])| == |a|
  {
    assert ([a] + rest)[1..] == rest;
  }

  lemma ParsedPieces(pieces: seq<string>, i: nat)
    requires ParseAll(pieces).Some? && i < |pieces|
    ensures ParseStage(pieces[i]) == Some(ParseAll(pieces).value[i])
    decreases |pieces|
  {
    if i < |pieces| - 1 { ParsedPieces(pieces[..|pieces| - 1], i); }
  }

  /** The compact form of a result is at most as long as the text that was parsed. */
  lemma CompactFits(input: string)
    requires Parse(input).Some?
    ensures |PrintCompact(Parse(input).value)| <= |Truncated(input)|
  {
    hide Text, SplitPipes, ParseAll, ParseStage, CompactStage, Join;
    var t := Truncated(input);
    var all, stages := SplitPipes(t), Parse(input).value;
    var pieces := Prefix(all, MAX_STAGES);
    var texts := seq(|stages|, i requires 0 <= i < |stages| => CompactStage(stages[i]));
    JoinOfSplit(t);
    forall i | 0 <= i < |texts| ensures |texts[i]| <= |all[i]| {
      ParsedPieces(pieces, i);
      CompactStageFits(pieces[i]);
    }
    JoinIsShorter(texts, all);
  }

  /** The parser is the left inverse of the compact printer. */
  lemma CompactRoundTrip(stages: seq<Stage>)
    requires WellFormed(stages) && |PrintCompact(stages)| <= INPUT_BUFFER - 1
    ensures Parse(PrintCompact(stages)) == Some(stages)
  {
    hide CompactStage, ParseStage, WellFormedStage, Parse, Join;
    var texts := seq(|stages|, i requires 0 <= i < |stages| => CompactStage(stages[i]));
    forall i | 0 <= i < |texts|
      ensures Clean(texts[i]) && texts[i] != "" && ParseStage(texts[i]) == Some(stages[i])
    {
      CompactStageRoundTrip(stages[i]);
    }
    JoinRoundTrip(texts, stages);
  }

  /** Print, then parse, is the identity on every successful parse. */
  lemma ReparseCompact(input: string)
    requires Parse(input).Some?
    ensures Parse(PrintCompact(Parse(input).value)) == Parse(input)
  {
    hide Parse, PrintCompact, WellFormed;
    ParseIsWellFormed(input);
    CompactFits(input);
    CompactRoundTrip(Parse(input).value);
  }
}
