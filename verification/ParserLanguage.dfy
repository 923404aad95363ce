/** The language that the cursor scan accepts, described for every string by looking
    around each position. */
module ParserLanguage {
  import opened Messages
  import opened ParserModel

  /** The last position before t that is not white space, or -1. */
  function LookBack(s: string, t: nat): (r: int)
    requires t <= |s|
    ensures -1 <= r < t
    ensures r >= 0 ==> !IsSpace(s[r])
    ensures forall k :: r < k < t ==> IsSpace(s[k])
  {
    if t == 0 then -1 else if IsSpace(s[t - 1]) then LookBack(s, t - 1) else t - 1
  }

  predicate FollowsOperator(s: string, t: nat)
    requires t <= |s|
  {
    LookBack(s, t) >= 0 && IsOperator(s[LookBack(s, t)])
  }

  /** A 2 directly before > that starts the stage or follows white space and is not itself
      the target of a redirection. */
  predicate IsMarker(s: string, k: int) {
    && 0 <= k < |s| - 1 && s[k] == '2' && s[k + 1] == '>'
    && (k == 0 || IsSpace(s[k - 1]))
    && !FollowsOperator(s, k)
  }

  predicate IsTokenStart(s: string, t: nat) {
    t < |s| && IsTokenChar(s[t]) && (t == 0 || !IsTokenChar(s[t - 1]))
  }

  function OperatorKind(s: string, b: nat): Target
    requires b < |s| && IsOperator(s[b])
  {
    if s[b] == '<' then In else if IsMarker(s, b - 1) then Err else Out
  }

  /** The item whose text starts at t. */
  function ItemAt(s: string, t: nat): Option<Item>
    requires t <= |s|
  {
    if !IsTokenStart(s, t) then None
    else if FollowsOperator(s, t) then Some(Redirect(OperatorKind(s, LookBack(s, t)), s[t..TokenEnd(s, t)]))
    else if IsMarker(s, t) then None
    else Some(Word(s[t..TokenEnd(s, t)]))
  }

  /** The items that start at or after c, in order of position. */
  function ItemsFrom(s: string, c: nat): seq<Item>
    requires c <= |s|
    decreases |s| - c
  {
    if c == |s| then [] else
      match ItemAt(s, c)
      case Some(item) => [item] + ItemsFrom(s, c + 1)
      case None => ItemsFrom(s, c + 1)
  }

  /** An operator without a target: white space, then the end or another operator. */
  ghost predicate Dangling(s: string, i: nat) {
    && i < |s| && IsOperator(s[i])
    && exists j :: i < j <= |s| && (forall k :: i < k < j ==> IsSpace(s[k])) && (j == |s| || IsOperator(s[j]))
  }

  ghost predicate Malformed(s: string, c: nat) {
    exists i :: i >= c && Dangling(s, i)
  }

  // -------- the scan finds exactly these items --------

  /** A cursor position between two items. */
  predicate AtBoundary(s: string, c: nat) {
    && c <= |s|
    && (c > 0 ==> IsTokenChar(s[c - 1]))
    && (0 < c < |s| ==> !IsTokenChar(s[c]))
    && !IsMarker(s, c - 1)
  }

  lemma {:induction false} NoItems(s: string, a: nat, b: nat)
    requires a <= b <= |s|
    requires forall k :: a <= k < b ==> ItemAt(s, k) == None
    ensures ItemsFrom(s, a) == ItemsFrom(s, b)
    decreases b - a
  {
    if a < b { NoItems(s, a + 1, b); }
  }

  /** No token starts among white space, operators, or inside a token. */
  lemma OneItem(s: string, a: nat, t: nat, e: nat)
    requires a <= t < e <= |s|
    requires forall k :: a <= k < t ==> ItemAt(s, k) == None
    requires ItemAt(s, t).Some?
    requires forall k :: t <= k < e ==> IsTokenChar(s[k])
    ensures ItemsFrom(s, a) == [ItemAt(s, t).value] + ItemsFrom(s, e)
  {
    NoItems(s, a, t);
    NoItems(s, t + 1, e);
  }

  lemma LookBackIs(s: string, b: int, t: nat)
    requires -1 <= b < t <= |s|
    requires b >= 0 ==> !IsSpace(s[b])
    requires forall k :: b < k < t ==> IsSpace(s[k])
    ensures LookBack(s, t) == b
  {
  }

  lemma DanglingIs(s: string, i: nat)
    requires i < |s| && IsOperator(s[i])
    ensures Dangling(s, i) <==> TokenAt(s, i + 1) == None
  {
    var t := SkipSpaces(s, i + 1);
    if Dangling(s, i) {
      var j :| i < j <= |s| && (forall k :: i < k < j ==> IsSpace(s[k])) && (j == |s| || IsOperator(s[j]));
      assert j == t;
    }
  }

  /** The operators between two boundaries do not matter if they have targets. */
  lemma MalformedLater(s: string, c: nat, e: nat)
    requires c <= e
    requires forall k :: c <= k < e ==> !Dangling(s, k)
    ensures Malformed(s, c) <==> Malformed(s, e)
  {
    if Malformed(s, c) {
      var i :| i >= c && Dangling(s, i);
      assert i >= e;
    }
  }

  /** An operator at b with the target from t to e, reached from c over white space and
      perhaps a marker. */
  lemma OperatorChunk(s: string, c: nat, b: nat, t: nat, e: nat)
    requires c <= b < |s| && IsOperator(s[b])
    requires forall k :: c <= k < b ==> ItemAt(s, k) == None && !IsOperator(s[k])
    requires TokenAt(s, b + 1) == Some((t, e))
    ensures AtBoundary(s, e)
    ensures ItemsFrom(s, c) == [Redirect(OperatorKind(s, b), s[t..e])] + ItemsFrom(s, e)
    ensures Malformed(s, c) <==> Malformed(s, e)
  {
    LookBackIs(s, b, t);
    OneItem(s, c, t, e);
    TargetIsNoMarker(s, t, e);
    DanglingIs(s, b);
    MalformedLater(s, c, e);
  }

  lemma TargetIsNoMarker(s: string, t: nat, e: nat)
    requires t < e <= |s| && FollowsOperator(s, t)
    requires forall k :: t <= k < e ==> IsTokenChar(s[k])
    ensures !IsMarker(s, e - 1)
  {
  }

  lemma WordChunk(s: string, c: nat, p: nat)
    requires AtBoundary(s, c) && c <= p < |s| && IsTokenChar(s[p])
    requires forall k :: c <= k < p ==> IsSpace(s[k])
    requires !(s[p] == '2' && p + 1 < |s| && s[p + 1] == '>')
    ensures var e := TokenEnd(s, p);
            && AtBoundary(s, e)
            && ItemsFrom(s, c) == [Word(s[p..e])] + ItemsFrom(s, e)
            && (Malformed(s, c) <==> Malformed(s, e))
  {
    var e := TokenEnd(s, p);
    LookBackIs(s, c - 1, p);
    OneItem(s, c, p, e);
    MalformedLater(s, c, e);
  }

  /** A 2 directly before > at a boundary is a marker. */
  lemma MarkerFound(s: string, c: nat, p: nat)
    requires AtBoundary(s, c) && c <= p < |s| - 1
    requires forall k :: c <= k < p ==> IsSpace(s[k])
    requires s[p] == '2' && s[p + 1] == '>'
    ensures IsMarker(s, p) && ItemAt(s, p) == None
  {
    LookBackIs(s, c - 1, p);
  }

  /** The operator that the cursor finds at p. */
  lemma OperatorFound(s: string, c: nat, p: nat)
    requires AtBoundary(s, c) && c <= p < |s|
    requires forall k :: c <= k < p ==> IsSpace(s[k])
    requires OperatorAt(s, p).Some?
    ensures var op := OperatorAt(s, p).value;
            var b := p + op.1 - 1;
            && IsOperator(s[b]) && OperatorKind(s, b) == op.0
            && (forall k :: c <= k < b ==> ItemAt(s, k) == None && !IsOperator(s[k]))
  {
    if OperatorAt(s, p).value.0 == Err { MarkerFound(s, c, p); }
  }

  /** One turn of the scan agrees with the positions up to the next boundary. */
  ghost predicate Agrees(s: string, c: nat, chunk: Chunk)
    requires c <= |s|
  {
    match chunk
    case End => !Malformed(s, c) && ItemsFrom(s, c) == []
    case Bad => Malformed(s, c)
    case Piece(item, e) =>
      && c < e && AtBoundary(s, e)
      && ItemsFrom(s, c) == [item] + ItemsFrom(s, e)
      && (Malformed(s, c) <==> Malformed(s, e))
  }

  lemma OperatorTurn(s: string, c: nat, b: nat)
    requires c <= b < |s| && IsOperator(s[b])
    requires forall k :: c <= k < b ==> ItemAt(s, k) == None && !IsOperator(s[k])
    ensures Agrees(s, c, Redirection(s, OperatorKind(s, b), b + 1))
  {
    match TokenAt(s, b + 1)
    case Some(t) => OperatorChunk(s, c, b, t.0, t.1);
    case None => DanglingIs(s, b);
  }

  lemma RedirectTurn(s: string, c: nat, p: nat)
    requires AtBoundary(s, c) && p == SkipSpaces(s, c) < |s| && OperatorAt(s, p).Some?
    ensures Agrees(s, c, ChunkAt(s, c))
  {
    hide ItemAt, ItemsFrom, Malformed, AtBoundary, TokenAt;
    var op := OperatorAt(s, p).value;
    OperatorFound(s, c, p);
    OperatorTurn(s, c, p + op.1 - 1);
  }

  lemma WordTurn(s: string, c: nat, p: nat)
    requires AtBoundary(s, c) && p == SkipSpaces(s, c) < |s| && OperatorAt(s, p) == None
    ensures Agrees(s, c, ChunkAt(s, c))
  {
    WordChunk(s, c, p);
  }

  lemma Turn(s: string, c: nat)
    requires AtBoundary(s, c)
    ensures Agrees(s, c, ChunkAt(s, c))
  {
    var p := SkipSpaces(s, c);
    if p == |s| {
      NoItems(s, c, p);
    } else if OperatorAt(s, p).Some? {
      RedirectTurn(s, c, p);
    } else {
      WordTurn(s, c, p);
    }
  }

  /** From every boundary, the scan fails exactly on a dangling operator and otherwise
      finds the items by position. */
  lemma {:induction false} ScanFromBoundary(s: string, c: nat)
    requires AtBoundary(s, c)
    ensures Scan(s, c) == if Malformed(s, c) then None else Some(ItemsFrom(s, c))
    decreases |s| - c
  {
    Turn(s, c);
    var chunk := ChunkAt(s, c);
    if chunk.Piece? { ScanFromBoundary(s, chunk.next); }
  }

  /** A stage is rejected exactly when one of its operators dangles; every other stage
      has the arguments and redirections that its positions say. */
  lemma StageLanguage(s: string)
    ensures ParseStage(s) == if Malformed(s, 0) then None else Some(Fill(ItemsFrom(s, 0)))
  {
    ScanFromBoundary(s, 0);
  }

  // -------- splitting at bars --------

  lemma {:induction false} BarIs(s: string, n: nat)
    requires n <= |s| && '|' !in s[..n] && (n < |s| ==> s[n] == '|')
    ensures BarAt(s) == n
  {
    if n > 0 {
      assert s[0] in s[..n];
      assert s[1..][..n - 1] == s[..n][1..];
      BarIs(s[1..], n - 1);
    }
  }

  lemma SplitAtBar(s: string, n: nat)
    requires 0 < n <= |s| && '|' !in s[..n] && (n < |s| ==> s[n] == '|')
    ensures SplitPipes(s) == [s[..n]] + SplitPipes(if n < |s| then s[n + 1..] else [])
  {
    BarIs(s, n);
    assert s[0] in s[..n];
    if n < |s| { assert s[n..][1..] == s[n + 1..]; }
  }

  lemma SkipBar(s: string, k: nat)
    requires k < |s| && s[k] == '|'
    ensures SplitPipes(s[k..]) == SplitPipes(s[k + 1..])
  {
    assert s[k..][1..] == s[k + 1..];
  }

  /** A text without bars is one piece, unless it is empty. */
  lemma SplitNoBar(s: string)
    requires '|' !in s
    ensures SplitPipes(s) == if s == "" then [] else [s]
  {
    if s != "" {
      assert s[..|s|] == s;
      SplitAtBar(s, |s|);
    }
  }

  /** A bar separates: the pieces are those on its left, then those on its right. */
  lemma {:induction false} SplitConcat(a: string, b: string)
    ensures SplitPipes(a + "|" + b) == SplitPipes(a) + SplitPipes(b)
    decreases |a|
  {
    hide SplitPipes, BarAt;
    var s := a + "|" + b;
    assert s[0..] == s && a[0..] == a;
    if a == "" {
      SplitNoBar(a);
      SkipBar(s, 0);
      assert s[1..] == b;
    } else if a[0] == '|' {
      SkipBar(a, 0);
      SkipBar(s, 0);
      assert s[1..] == a[1..] + "|" + b;
      SplitConcat(a[1..], b);
    } else {
      var n := BarAt(a);
      SplitHead(a, b, n);
      if n < |a| {
        SplitConcat(a[n + 1..], b);
      }
    }
  }

  lemma SplitHead(a: string, b: string, n: nat)
    requires 0 < n <= |a| && '|' !in a[..n] && (n < |a| ==> a[n] == '|')
    ensures SplitPipes(a) == [a[..n]] + if n < |a| then SplitPipes(a[n + 1..]) else []
    ensures SplitPipes(a + "|" + b) == [a[..n]] + SplitPipes(if n < |a| then a[n + 1..] + "|" + b else b)
  {
    hide SplitPipes;
    var s := a + "|" + b;
    assert s[..n] == a[..n];
    SplitAtBar(a, n);
    SplitAtBar(s, n);
    SplitNoBar([]);
    assert s[n + 1..] == if n < |a| then a[n + 1..] + "|" + b else b;
  }

  // -------- whole commands --------

  ghost predicate OneIsMalformed(pieces: seq<string>) {
    exists i :: 0 <= i < |pieces| && Malformed(pieces[i], 0)
  }

  lemma {:induction false} AllStages(pieces: seq<string>)
    ensures ParseAll(pieces) == None <==> OneIsMalformed(pieces)
    ensures ParseAll(pieces).Some? ==>
              forall i :: 0 <= i < |pieces| ==> ParseAll(pieces).value[i] == Fill(ItemsFrom(pieces[i], 0))
  {
    hide ParseStage, ItemsFrom, Malformed, Fill;
    if pieces != [] {
      var n := |pieces| - 1;
      AllStages(pieces[..n]);
      StageLanguage(pieces[n]);
      if OneIsMalformed(pieces) {
        var i :| 0 <= i < |pieces| && Malformed(pieces[i], 0);
        assert i < n ==> pieces[..n][i] == pieces[i];
      }
    }
  }

  /** A command is rejected exactly when one of its first sixteen pieces is malformed. */
  lemma CommandLanguage(input: string)
    ensures var pieces := Prefix(SplitPipes(Truncated(input)), MAX_STAGES);
            && (Parse(input) == None <==> OneIsMalformed(pieces))
            && (Parse(input).Some? ==>
                  && |Parse(input).value| == |pieces|
                  && forall i :: 0 <= i < |pieces| ==> Parse(input).value[i] == Fill(ItemsFrom(pieces[i], 0)))
  {
    AllStages(Prefix(SplitPipes(Truncated(input)), MAX_STAGES));
  }

  // -------- what bars do not do --------

  lemma {:induction false} TextAfter(a: string, c: string)
    requires NUL !in a
    ensures Text(a + c) == a + Text(c)
  {
    if a == [] {
      assert a + c == c;
    } else {
      assert a[0] in a;
      assert (a + c)[1..] == a[1..] + c;
      TextAfter(a[1..], c);
    }
  }

  lemma TruncatedAfter(a: string, c: string)
    requires NUL !in a && |a + c| <= INPUT_BUFFER - 1
    ensures Truncated(a + c) == a + Text(c)
  {
    TextAfter(a, c);
  }

  /** A bar in front of a command is ignored. */
  lemma LeadingBar(s: string)
    requires |s| < INPUT_BUFFER - 1
    ensures Parse("|" + s) == Parse(s)
  {
    hide Text, SplitPipes, ParseAll;
    TruncatedAfter("|", s);
    assert "" + "|" + Text(s) == "|" + Text(s);
    SplitConcat("", Text(s));
    SplitNoBar("");
    assert [] + SplitPipes(Text(s)) == SplitPipes(Text(s));
    assert Truncated(s) == Text(s);
  }

  /** So is an empty piece between two bars. */
  lemma DoubledBar(a: string, b: string)
    requires NUL !in a && |a| + |b| + 2 <= INPUT_BUFFER - 1
    ensures Parse(a + "||" + b) == Parse(a + "|" + b)
  {
    hide Text, SplitPipes, ParseAll;
    var t := Text(b);
    TruncatedAfter(a + "||", b);
    TruncatedAfter(a + "|", b);
    assert a + "||" + t == a + "|" + ("" + "|" + t);
    SplitConcat(a, "" + "|" + t);
    SplitConcat("", t);
    SplitConcat(a, t);
    SplitNoBar("");
    assert [] + SplitPipes(t) == SplitPipes(t);
  }

  /** Whatever follows sixteen pieces has no effect, even if it is malformed. */
  lemma OnlySixteenStages(a: string, b: string)
    requires NUL !in a && |SplitPipes(Truncated(a))| >= MAX_STAGES
    ensures Parse(a + "|" + b) == Parse(a)
  {
    hide Text, SplitPipes, ParseAll;
    TextAfter(a + "|", b);
    TextAfter(a, "");
    assert a + "" == a;
    var t := a + "|" + Text(b);
    NoText();
    if |a| >= INPUT_BUFFER - 1 {
      assert t[..INPUT_BUFFER - 1] == a[..INPUT_BUFFER - 1];
    } else {
      var rest := Prefix(Text(b), INPUT_BUFFER - 2 - |a|);
      assert Prefix(t, INPUT_BUFFER - 1) == a + "|" + rest;
      SplitConcat(a, rest);
      var all := SplitPipes(a) + SplitPipes(rest);
      assert all[..MAX_STAGES] == SplitPipes(a)[..MAX_STAGES];
    }
  }

  lemma NoText()
    ensures Text("") == ""
  {
  }
}
