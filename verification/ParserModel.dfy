/** The command language of the runner as a cursor scan on strings. */
module ParserModel {
  import opened Messages

  /** One pipeline stage. */
  datatype Stage = Stage(argv: seq<string>, input: Option<string>, output: Option<string>, error: Option<string>)

  const NoStage := Stage([], None, None, None)

  const MAX_STAGES := 16
  const MAX_ARGS := 32
  const INPUT_BUFFER := 1024
  const NUL: char := '\0'

  /** The white space of the C locale. */
  predicate IsSpace(c: char) {
    c == ' ' || ('\t' <= c <= '\r')
  }

  lemma SpaceIs(c: char)
    ensures IsSpace(c) <==> c in [' ', '\t', '\n', '\U{000B}', '\U{000C}', '\r']
  {
  }

  predicate IsOperator(c: char) { c == '<' || c == '>' }

  predicate IsTokenChar(c: char) { !IsSpace(c) && !IsOperator(c) }

  datatype Target = In | Out | Err

  datatype Item = Word(text: string) | Redirect(target: Target, text: string)

  // -------- the cursor scan --------

  function SkipSpaces(s: string, c: nat): (r: nat)
    requires c <= |s|
    ensures c <= r <= |s|
    ensures forall k :: c <= k < r ==> IsSpace(s[k])
    ensures r < |s| ==> !IsSpace(s[r])
    decreases |s| - c
  {
    if c < |s| && IsSpace(s[c]) then SkipSpaces(s, c + 1) else c
  }

  function TokenEnd(s: string, c: nat): (r: nat)
    requires c <= |s|
    ensures c <= r <= |s|
    ensures forall k :: c <= k < r ==> IsTokenChar(s[k])
    ensures r < |s| ==> !IsTokenChar(s[r])
    ensures c < |s| && IsTokenChar(s[c]) ==> c < r
    decreases |s| - c
  {
    if c < |s| && IsTokenChar(s[c]) then TokenEnd(s, c + 1) else c
  }

  /** The redirection operator at c, with its length. */
  function OperatorAt(s: string, c: nat): (r: Option<(Target, nat)>)
    requires c < |s|
    ensures r.Some? ==> c < c + r.value.1 <= |s|
  {
    if s[c] == '2' && c + 1 < |s| && s[c + 1] == '>' then Some((Err, 2))
    else if s[c] == '<' then Some((In, 1))
    else if s[c] == '>' then Some((Out, 1))
    else None
  }

  /** The token that starts after c and white space, as a start and an end. */
  function TokenAt(s: string, c: nat): (r: Option<(nat, nat)>)
    requires c <= |s|
    ensures r.Some? ==> c <= r.value.0 < r.value.1 <= |s|
  {
    var t := SkipSpaces(s, c);
    if t == |s| || IsOperator(s[t]) then None else Some((t, TokenEnd(s, t)))
  }

  /** What stands between c and the next cursor position. */
  datatype Chunk = End | Bad | Piece(item: Item, next: nat)

  function Redirection(s: string, target: Target, c: nat): (r: Chunk)
    requires c <= |s|
    ensures r.Piece? ==> c < r.next <= |s|
  {
    match TokenAt(s, c)
    case Some(t) => Piece(Redirect(target, s[t.0..t.1]), t.1)
    case None => Bad
  }

  function ChunkAt(s: string, c: nat): (r: Chunk)
    requires c <= |s|
    ensures r.Piece? ==> c < r.next <= |s|
  {
    var p := SkipSpaces(s, c);
    if p == |s| then End else
    match OperatorAt(s, p)
    case Some(op) => Redirection(s, op.0, p + op.1)
    case None => Piece(Word(s[p..TokenEnd(s, p)]), TokenEnd(s, p))
  }

  function Prepended(done: seq<Item>, rest: Option<seq<Item>>): Option<seq<Item>> {
    match rest
    case Some(items) => Some(done + items)
    case None => None
  }

  function Scan(s: string, c: nat): Option<seq<Item>>
    requires c <= |s|
    decreases |s| - c
  {
    match ChunkAt(s, c)
    case End => Some([])
    case Bad => None
    case Piece(item, next) => Prepended([item], Scan(s, next))
  }

  // -------- what the items mean --------

  function Put(st: Stage, item: Item): Stage {
    match item
    case Word(w) => if |st.argv| < MAX_ARGS - 1 then st.(argv := st.argv + [w]) else st
    case Redirect(In, f) => st.(input := Some(f))
    case Redirect(Out, f) => st.(output := Some(f))
    case Redirect(Err, f) => st.(error := Some(f))
  }

  function Fill(items: seq<Item>): Stage {
    if items == [] then NoStage else Put(Fill(items[..|items| - 1]), items[|items| - 1])
  }

  function Words(items: seq<Item>): seq<string> {
    if items == [] then [] else
      var rest := Words(items[..|items| - 1]);
      match items[|items| - 1]
      case Word(w) => rest + [w]
      case _ => rest
  }

  /** The last redirection of one kind. */
  ghost predicate IsLast(items: seq<Item>, target: Target, r: Option<string>) {
    match r
    case None => forall f :: Redirect(target, f) !in items
    case Some(f) =>
      exists i :: 0 <= i < |items| && items[i] == Redirect(target, f)
                  && forall k :: i < k < |items| ==> !(items[k].Redirect? && items[k].target == target)
  }

  function Prefix<T>(s: seq<T>, n: nat): (r: seq<T>)
    ensures |r| == if |s| < n then |s| else n
    ensures r <= s
  {
    if |s| < n then s else s[..n]
  }

  lemma LastOfAppend(items: seq<Item>, x: Item, target: Target, r: Option<string>)
    requires IsLast(items, target, r)
    ensures IsLast(items + [x], target, if x.Redirect? && x.target == target then Some(x.text) else r)
  {
    var all := items + [x];
    assert all[|items|] == x;
    if x.Redirect? && x.target == target {
      assert all[|items|] == Redirect(target, x.text);
    } else if r.Some? {
      var i :| 0 <= i < |items| && items[i] == Redirect(target, r.value)
               && forall k :: i < k < |items| ==> !(items[k].Redirect? && items[k].target == target);
      assert all[i] == Redirect(target, r.value);
    }
  }

  /** argv is the first 31 words in order and the last redirection of each kind wins. */
  lemma {:induction false} FillMeans(items: seq<Item>)
    ensures Fill(items).argv == Prefix(Words(items), MAX_ARGS - 1)
    ensures IsLast(items, In, Fill(items).input)
    ensures IsLast(items, Out, Fill(items).output)
    ensures IsLast(items, Err, Fill(items).error)
  {
    if items != [] {
      var most, x := items[..|items| - 1], items[|items| - 1];
      FillMeans(most);
      assert items == most + [x];
      LastOfAppend(most, x, In, Fill(most).input);
      LastOfAppend(most, x, Out, Fill(most).output);
      LastOfAppend(most, x, Err, Fill(most).error);
    }
  }

  // -------- whole commands --------

  /** The text before the first NUL. */
  function Text(s: seq<char>): (r: string)
    ensures r <= s && NUL !in r
    ensures |r| < |s| ==> s[|r|] == NUL
  {
    if s == [] || s[0] == NUL then [] else [s[0]] + Text(s[1..])
  }

  function Truncated(input: string): string { Prefix(Text(input), INPUT_BUFFER - 1) }

  /** Length of the part before the first bar. */
  function BarAt(s: string): (r: nat)
    ensures r <= |s| && '|' !in s[..r]
    ensures r < |s| ==> s[r] == '|'
  {
    if s == [] || s[0] == '|' then 0 else
      var r := 1 + BarAt(s[1..]);
      assert s[..r] == [s[0]] + s[1..][..r - 1];
      r
  }

  /** The non-empty parts between bars. */
  function SplitPipes(s: string): seq<string>
    decreases |s|
  {
    if s == [] then []
    else if s[0] == '|' then SplitPipes(s[1..])
    else [s[..BarAt(s)]] + SplitPipes(s[BarAt(s)..])
  }

  function ParseStage(s: string): Option<Stage> {
    match Scan(s, 0)
    case Some(items) => Some(Fill(items))
    case None => None
  }

  /** All of the pieces as stages, if every piece is a stage. */
  function ParseAll(pieces: seq<string>): (r: Option<seq<Stage>>)
    ensures r.Some? ==> |r.value| == |pieces|
  {
    if pieces == [] then Some([]) else
      var n := |pieces| - 1;
      var most, last := ParseAll(pieces[..n]), ParseStage(pieces[n]);
      if most.Some? && last.Some? then Some(most.value + [last.value]) else None
  }

  /** A command: stages after the sixteenth are not read at all. */
  function Parse(input: string): Option<seq<Stage>> {
    ParseAll(Prefix(SplitPipes(Truncated(input)), MAX_STAGES))
  }
}
