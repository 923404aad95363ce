/** Printing a pipeline and parsing it again. */
module ParserRoundTrip {
  import opened Messages
  import opened ParserModel
  import opened ParserLanguage

  // -------- printing --------

  function Symbol(target: Target): string {
    match target
    case In => "<"
    case Out => ">"
    case Err => "2>"
  }

  function ItemText(item: Item): string {
    match item
    case Word(w) => w
    case Redirect(target, f) => Symbol(target) + f
  }

  function PrintItems(items: seq<Item>): string {
    if items == [] then " " else " " + ItemText(items[0]) + PrintItems(items[1..])
  }

  function WordItems(argv: seq<string>): seq<Item> {
    seq(|argv|, i requires 0 <= i < |argv| => Word(argv[i]))
  }

  function RedirectItem(target: Target, f: Option<string>): seq<Item> {
    if f.Some? then [Redirect(target, f.value)] else []
  }

  function ItemsOf(st: Stage): seq<Item> {
    WordItems(st.argv) + (RedirectItem(In, st.input) + RedirectItem(Out, st.output) + RedirectItem(Err, st.error))
  }

  /** White space before every word and operator and at the end. */
  function PrintStage(st: Stage): string { PrintItems(ItemsOf(st)) }

  function Join(texts: seq<string>): string {
    if texts == [] then ""
    else if |texts| == 1 then texts[0]
    else texts[0] + "|" + Join(texts[1..])
  }

  function Print(stages: seq<Stage>): string {
    Join(seq(|stages|, i requires 0 <= i < |stages| => PrintStage(stages[i])))
  }

  // -------- pipelines that can be written --------

  predicate IsToken(w: string) {
    w != "" && forall i :: 0 <= i < |w| ==> IsTokenChar(w[i]) && w[i] != '|' && w[i] != NUL
  }

  predicate IsTokenIfAny(f: Option<string>) { f.Some? ==> IsToken(f.value) }

  predicate WellFormedStage(st: Stage) {
    && |st.argv| <= MAX_ARGS - 1 && (forall i :: 0 <= i < |st.argv| ==> IsToken(st.argv[i]))
    && IsTokenIfAny(st.input) && IsTokenIfAny(st.output) && IsTokenIfAny(st.error)
  }

  predicate WellFormed(stages: seq<Stage>) {
    |stages| <= MAX_STAGES && forall i :: 0 <= i < |stages| ==> WellFormedStage(stages[i])
  }

  predicate TokenItems(items: seq<Item>) {
    forall i :: 0 <= i < |items| ==> IsToken(items[i].text)
  }

  // -------- scanning a printed item --------

  lemma TokenEndIs(s: string, t: nat, e: nat)
    requires t <= e <= |s| && (e < |s| ==> !IsTokenChar(s[e]))
    requires forall k :: t <= k < e ==> IsTokenChar(s[k])
    ensures TokenEnd(s, t) == e
  {
  }

  /** Where the text w stands in s. */
  predicate StandsAt(s: string, t: nat, w: string) {
    t + |w| <= |s| && s[t..t + |w|] == w
  }

  lemma StandsAtChar(s: string, t: nat, w: string, k: nat)
    requires StandsAt(s, t, w) && k < |w|
    ensures s[t + k] == w[k]
  {
    assert s[t..t + |w|][k] == w[k];
  }

  lemma StandsAtParts(s: string, t: nat, a: string, b: string)
    requires StandsAt(s, t, a + b)
    ensures StandsAt(s, t, a) && StandsAt(s, t + |a|, b)
  {
    assert s[t..t + |a|] == s[t..t + |a + b|][..|a|];
    assert s[t + |a|..t + |a + b|] == s[t..t + |a + b|][|a|..];
  }

  /** No token goes on at e. */
  predicate NoTokenAt(s: string, e: nat) { e < |s| ==> !IsTokenChar(s[e]) }

  /** An item that ends at e does not go on there. */
  predicate ItemEndsAt(s: string, e: nat, item: Item) {
    NoTokenAt(s, e) && (item == Word("2") && e < |s| ==> s[e] != '>')
  }

  lemma TokenStands(s: string, t: nat, w: string)
    requires IsToken(w) && StandsAt(s, t, w) && NoTokenAt(s, t + |w|)
    ensures TokenEnd(s, t) == t + |w| && IsTokenChar(s[t]) && SkipSpaces(s, t) == t
  {
    forall k | t <= k < t + |w| ensures IsTokenChar(s[k]) { StandsAtChar(s, t, w, k - t); }
    TokenEndIs(s, t, t + |w|);
  }

  lemma ChunkOfWord(s: string, c: nat, p: nat, w: string)
    requires c <= p < |s| && SkipSpaces(s, c) == p
    requires IsToken(w) && StandsAt(s, p, w) && NoTokenAt(s, p + |w|)
    requires w == "2" && p + 1 < |s| ==> s[p + 1] != '>'
    ensures ChunkAt(s, c) == Piece(Word(w), p + |w|)
  {
    TokenStands(s, p, w);
    StandsAtChar(s, p, w, 0);
    if |w| > 1 { StandsAtChar(s, p, w, 1); }
    assert OperatorAt(s, p) == None;
  }

  lemma OperatorStands(s: string, p: nat, target: Target)
    requires StandsAt(s, p, Symbol(target))
    ensures p < |s| && OperatorAt(s, p) == Some((target, |Symbol(target)|))
  {
    StandsAtChar(s, p, Symbol(target), 0);
    if target == Err { StandsAtChar(s, p, Symbol(target), 1); }
  }

  lemma ChunkOfRedirect(s: string, c: nat, p: nat, target: Target, f: string)
    requires c <= p < |s| && SkipSpaces(s, c) == p
    requires StandsAt(s, p, Symbol(target)) && StandsAt(s, p + |Symbol(target)|, f)
    requires IsToken(f) && NoTokenAt(s, p + |Symbol(target)| + |f|)
    ensures ChunkAt(s, c) == Piece(Redirect(target, f), p + |Symbol(target)| + |f|)
  {
    OperatorStands(s, p, target);
    TokenStands(s, p + |Symbol(target)|, f);
  }

  /** The cursor finds the item that stands after white space, if nothing goes on directly
      behind it. */
  lemma ChunkOfItem(s: string, c: nat, p: nat, item: Item)
    requires c <= p < |s| && SkipSpaces(s, c) == p
    requires IsToken(item.text) && StandsAt(s, p, ItemText(item)) && ItemEndsAt(s, p + |ItemText(item)|, item)
    ensures ChunkAt(s, c) == Piece(item, p + |ItemText(item)|)
  {
    match item
    case Word(w) => ChunkOfWord(s, c, p, w);
    case Redirect(target, f) =>
      StandsAtParts(s, p, Symbol(target), f);
      ChunkOfRedirect(s, c, p, target, f);
  }

  /** A text in front of the rest of s. */
  lemma Front(s: string, c: nat, w: string, rest: string)
    requires c <= |s| && s[c..] == w + rest
    ensures StandsAt(s, c, w) && s[c + |w|..] == rest
    ensures rest != "" ==> s[c + |w|] == rest[0]
  {
    assert s[c..c + |w|] == s[c..][..|w|];
    assert s[c + |w|..] == s[c..][|w|..];
    if rest != "" { assert s[c + |w|] == s[c + |w|..][0]; }
  }

  /** Items do not start with white space. */
  lemma ItemStarts(item: Item)
    requires IsToken(item.text)
    ensures ItemText(item) != "" && !IsSpace(ItemText(item)[0])
  {
    assert IsTokenChar(item.text[0]);
  }

  lemma SkipGap(s: string, c: nat, gap: string)
    requires (gap == "" || gap == " ") && StandsAt(s, c, gap)
    requires c + |gap| < |s| && !IsSpace(s[c + |gap|])
    ensures SkipSpaces(s, c) == c + |gap|
  {
    if gap == " " {
      StandsAtChar(s, c, gap, 0);
      assert SkipSpaces(s, c) == SkipSpaces(s, c + 1);
    }
  }

  lemma Fronts(s: string, c: nat, gap: string, text: string, rest: string)
    requires c <= |s| && s[c..] == gap + text + rest
    ensures StandsAt(s, c, gap) && StandsAt(s, c + |gap|, text)
    ensures var e := c + |gap| + |text|; e <= |s| && s[e..] == rest && (rest != "" ==> s[e] == rest[0])
  {
    assert gap + text + rest == gap + (text + rest);
    Front(s, c, gap, text + rest);
    Front(s, c + |gap|, text, rest);
  }

  /** What may stand directly behind an item. */
  predicate MayFollow(item: Item, rest: string) {
    rest != "" ==> !IsTokenChar(rest[0]) && (item == Word("2") ==> rest[0] != '>')
  }

  lemma TextAfterGap(s: string, c: nat, gap: string, text: string, rest: string)
    requires c <= |s| && s[c..] == gap + text + rest && (gap == "" || gap == " ")
    requires text != "" && !IsSpace(text[0])
    ensures var p, e := c + |gap|, c + |gap| + |text|;
            c <= p < e <= |s| && SkipSpaces(s, c) == p && StandsAt(s, p, text) && s[e..] == rest
  {
    hide IsSpace, SkipSpaces;
    Fronts(s, c, gap, text, rest);
    StandsAtChar(s, c + |gap|, text, 0);
    SkipGap(s, c, gap);
  }

  lemma FollowAt(s: string, e: nat, item: Item, rest: string)
    requires e <= |s| && s[e..] == rest && MayFollow(item, rest)
    ensures ItemEndsAt(s, e, item)
  {
    if rest != "" { assert s[e] == s[e..][0]; }
  }

  lemma ItemAfterGap(s: string, c: nat, gap: string, item: Item, rest: string)
    requires c <= |s| && s[c..] == gap + ItemText(item) + rest && (gap == "" || gap == " ")
    requires IsToken(item.text) && MayFollow(item, rest)
    ensures var e := c + |gap| + |ItemText(item)|;
            ChunkAt(s, c) == Piece(item, e) && c < e <= |s| && s[e..] == rest
  {
    ItemStarts(item);
    hide ItemText, ChunkAt, SkipSpaces, StandsAt, IsSpace, IsToken, MayFollow, ItemEndsAt;
    TextAfterGap(s, c, gap, ItemText(item), rest);
    FollowAt(s, c + |gap| + |ItemText(item)|, item, rest);
    ChunkOfItem(s, c, c + |gap|, item);
  }

  lemma PrintedStartsWithSpace(items: seq<Item>)
    ensures PrintItems(items) != "" && PrintItems(items)[0] == ' '
  {
  }

  lemma ScanBlank(s: string, c: nat)
    requires c <= |s| && s[c..] == " "
    ensures Scan(s, c) == Some([])
  {
    assert s[c] == s[c..][0];
  }

  lemma ScanNext(s: string, c: nat, item: Item, next: nat)
    requires c < next <= |s| && ChunkAt(s, c) == Piece(item, next)
    ensures Scan(s, c) == Prepended([item], Scan(s, next))
  {
    hide ChunkAt;
  }

  lemma {:induction false} ScanPrinted(s: string, c: nat, items: seq<Item>)
    requires c <= |s| && s[c..] == PrintItems(items) && TokenItems(items)
    ensures Scan(s, c) == Some(items)
    decreases |items|
  {
    hide ChunkAt, Scan;
    if items == [] {
      ScanBlank(s, c);
    } else {
      var item, rest := items[0], items[1..];
      PrintedStartsWithSpace(rest);
      ItemAfterGap(s, c, " ", item, PrintItems(rest));
      ScanNext(s, c, item, c + 1 + |ItemText(item)|);
      ScanPrinted(s, c + 1 + |ItemText(item)|, rest);
      assert items == [item] + rest;
    }
  }

  // -------- the items of a stage fill the stage --------

  lemma FillNext(items: seq<Item>, x: Item)
    ensures Fill(items + [x]) == Put(Fill(items), x)
  {
    assert (items + [x])[..|items|] == items;
  }

  lemma {:induction false} FillMoreWords(items: seq<Item>, ws: seq<string>)
    requires |Fill(items).argv| + |ws| <= MAX_ARGS - 1
    ensures Fill(items + WordItems(ws)) == Fill(items).(argv := Fill(items).argv + ws)
  {
    hide Fill;
    if ws == [] {
      assert items + WordItems(ws) == items;
    } else {
      var n := |ws| - 1;
      FillMoreWords(items, ws[..n]);
      FillNext(items + WordItems(ws[..n]), Word(ws[n]));
      assert items + WordItems(ws) == (items + WordItems(ws[..n])) + [Word(ws[n])];
      assert ws == ws[..n] + [ws[n]];
    }
  }

  lemma FillWords(argv: seq<string>)
    requires |argv| <= MAX_ARGS - 1
    ensures Fill(WordItems(argv)) == NoStage.(argv := argv)
  {
    FillMoreWords([], argv);
    assert [] + WordItems(argv) == WordItems(argv);
  }

  lemma FillRedirect(items: seq<Item>, target: Target, f: Option<string>)
    ensures Fill(items + RedirectItem(target, f))
         == if f.Some? then Put(Fill(items), Redirect(target, f.value)) else Fill(items)
  {
    if f.Some? { FillNext(items, Redirect(target, f.value)); } else { assert items + [] == items; }
  }

  lemma FillItemsOf(st: Stage)
    requires |st.argv| <= MAX_ARGS - 1
    ensures Fill(ItemsOf(st)) == st
  {
    var w := WordItems(st.argv);
    var i, o, e := RedirectItem(In, st.input), RedirectItem(Out, st.output), RedirectItem(Err, st.error);
    FillWords(st.argv);
    FillRedirect(w, In, st.input);
    FillRedirect(w + i, Out, st.output);
    FillRedirect(w + i + o, Err, st.error);
    assert ItemsOf(st) == w + i + o + e;
  }

  lemma StageItems(st: Stage)
    requires WellFormedStage(st)
    ensures TokenItems(ItemsOf(st))
  {
    var items, n := ItemsOf(st), |st.argv|;
    forall k | 0 <= k < |items| ensures IsToken(items[k].text) {
      if k < n {
        assert items[k] == Word(st.argv[k]);
      } else {
        var r := RedirectItem(In, st.input) + RedirectItem(Out, st.output) + RedirectItem(Err, st.error);
        assert items[k] == r[k - n];
      }
    }
  }

  /** One stage, printed and parsed. */
  lemma StageRoundTrip(st: Stage)
    requires WellFormedStage(st)
    ensures ParseStage(PrintStage(st)) == Some(st)
  {
    var s := PrintStage(st);
    StageItems(st);
    assert s[0..] == s;
    ScanPrinted(s, 0, ItemsOf(st));
    FillItemsOf(st);
  }

  // -------- splitting a printed pipeline --------

  predicate Clean(s: string) { '|' !in s && NUL !in s }

  lemma CleanItem(item: Item)
    requires IsToken(item.text)
    ensures Clean(ItemText(item))
  {
    assert Clean(item.text);
    assert Clean("<") && Clean(">") && Clean("2>");
  }

  lemma {:induction false} CleanItems(items: seq<Item>)
    requires TokenItems(items)
    ensures Clean(PrintItems(items)) && PrintItems(items) != ""
  {
    if items != [] {
      CleanItem(items[0]);
      CleanItems(items[1..]);
    }
  }

  lemma CleanStage(st: Stage)
    requires WellFormedStage(st)
    ensures Clean(PrintStage(st)) && PrintStage(st) != ""
  {
    StageItems(st);
    CleanItems(ItemsOf(st));
  }

  lemma {:induction false} PiecesOfJoin(texts: seq<string>)
    requires forall i :: 0 <= i < |texts| ==> Clean(texts[i]) && texts[i] != ""
    ensures NUL !in Join(texts) && SplitPipes(Join(texts)) == texts
  {
    hide SplitPipes;
    if texts == [] {
      SplitNoBar([]);
    } else {
      SplitNoBar(texts[0]);
      if |texts| == 1 {
        assert texts == [texts[0]];
      } else {
        PiecesOfJoin(texts[1..]);
        SplitConcat(texts[0], Join(texts[1..]));
        assert texts == [texts[0]] + texts[1..];
      }
    }
  }

  lemma {:induction false} ParseEach(pieces: seq<string>, stages: seq<Stage>)
    requires |pieces| == |stages|
    requires forall i :: 0 <= i < |stages| ==> ParseStage(pieces[i]) == Some(stages[i])
    ensures ParseAll(pieces) == Some(stages)
  {
    if pieces != [] {
      var n := |pieces| - 1;
      ParseEach(pieces[..n], stages[..n]);
      assert stages == stages[..n] + [stages[n]];
    }
  }

  lemma TextOfClean(s: string)
    requires NUL !in s
    ensures Text(s) == s
  {
    assert forall i :: 0 <= i < |s| ==> s[i] in s;
  }

  /** Texts that parse to stages, joined, parse to the pipeline. */
  lemma JoinRoundTrip(texts: seq<string>, stages: seq<Stage>)
    requires |texts| == |stages| <= MAX_STAGES && |Join(texts)| <= INPUT_BUFFER - 1
    requires forall i :: 0 <= i < |texts| ==>
               Clean(texts[i]) && texts[i] != "" && ParseStage(texts[i]) == Some(stages[i])
    ensures Parse(Join(texts)) == Some(stages)
  {
    hide Text, SplitPipes, ParseAll, ParseStage;
    PiecesOfJoin(texts);
    TextOfClean(Join(texts));
    assert Truncated(Join(texts)) == Join(texts);
    ParseEach(texts, stages);
    assert Prefix(texts, MAX_STAGES) == texts;
  }

  /** Printing any pipeline within the limits and parsing it gives the pipeline back. */
  lemma RoundTrip(stages: seq<Stage>)
    requires WellFormed(stages) && |Print(stages)| <= INPUT_BUFFER - 1
    ensures Parse(Print(stages)) == Some(stages)
  {
    hide PrintStage, ParseStage, WellFormedStage, Parse, Join;
    var texts := seq(|stages|, i requires 0 <= i < |stages| => PrintStage(stages[i]));
    forall i | 0 <= i < |texts|
      ensures Clean(texts[i]) && texts[i] != "" && ParseStage(texts[i]) == Some(stages[i])
    {
      CleanStage(stages[i]);
      StageRoundTrip(stages[i]);
    }
    JoinRoundTrip(texts, stages);
  }

  // -------- every result of the parser can be written --------

  /** A text between two characters of a clean stage that are not token characters. */
  lemma TokenOfClean(s: string, t: nat)
    requires Clean(s) && t < |s| && IsTokenChar(s[t])
    ensures IsToken(s[t..TokenEnd(s, t)])
  {
    var e := TokenEnd(s, t);
    forall i | 0 <= i < e - t
      ensures IsTokenChar(s[t..e][i]) && s[t..e][i] != '|' && s[t..e][i] != NUL
    {
      assert s[t..e][i] == s[t + i];
      assert s[t + i] in s;
    }
  }

  lemma {:induction false} ItemsAreTokens(s: string, c: nat)
    requires c <= |s| && Clean(s)
    ensures TokenItems(ItemsFrom(s, c))
    decreases |s| - c
  {
    if c < |s| {
      ItemsAreTokens(s, c + 1);
      if IsTokenChar(s[c]) { TokenOfClean(s, c); }
    }
  }

  lemma {:induction false} FilledWell(items: seq<Item>)
    requires TokenItems(items)
    ensures WellFormedStage(Fill(items))
  {
    if items != [] {
      FilledWell(items[..|items| - 1]);
    }
  }

  lemma StageWell(s: string)
    requires Clean(s) && ParseStage(s).Some?
    ensures WellFormedStage(ParseStage(s).value)
  {
    StageLanguage(s);
    ItemsAreTokens(s, 0);
    FilledWell(ItemsFrom(s, 0));
  }

  lemma {:induction false} SplitClean(s: string)
    requires NUL !in s
    ensures forall i :: 0 <= i < |SplitPipes(s)| ==> Clean(SplitPipes(s)[i])
    decreases |s|
  {
    if s == [] {
    } else if s[0] == '|' {
      SplitClean(s[1..]);
    } else {
      SplitClean(s[BarAt(s)..]);
    }
  }

  lemma {:induction false} AllWell(pieces: seq<string>)
    requires ParseAll(pieces).Some? && forall i :: 0 <= i < |pieces| ==> Clean(pieces[i])
    ensures forall i :: 0 <= i < |pieces| ==> WellFormedStage(ParseAll(pieces).value[i])
  {
    if pieces != [] {
      AllWell(pieces[..|pieces| - 1]);
      StageWell(pieces[|pieces| - 1]);
    }
  }

  lemma ParseIsWellFormed(input: string)
    requires Parse(input).Some?
    ensures WellFormed(Parse(input).value)
  {
    var s := Truncated(input);
    SplitClean(s);
    AllWell(Prefix(SplitPipes(s), MAX_STAGES));
  }

  /** Every successful parse whose printed form fits the buffer can be printed and parsed. */
  lemma Reparse(input: string)
    requires Parse(input).Some? && |Print(Parse(input).value)| <= INPUT_BUFFER - 1
    ensures Parse(Print(Parse(input).value)) == Parse(input)
  {
    ParseIsWellFormed(input);
    RoundTrip(Parse(input).value);
  }
}
