/** The runner's command parser: a text buffer that is cut in place, and a cursor. */
module Parser {
  import opened Messages
  import opened ParserModel
  import opened ParserLanguage

  /** The C string s starts at base. */
  ghost predicate StringAt(buffer: seq<char>, base: nat, s: string) {
    && base + |s| < |buffer| && buffer[base + |s|] == NUL
    && forall k :: base <= k < base + |s| ==> buffer[k] == s[k - base] && buffer[k] != NUL
  }

  // -------- tokens --------

  method Skip(buffer: array<char>, cursor: nat, ghost base: nat, ghost s: string) returns (r: nat)
    requires base <= cursor <= base + |s| && StringAt(buffer[..], base, s)
    ensures r == base + SkipSpaces(s, cursor - base)
    ensures cursor <= r < buffer.Length && buffer[r] !in [' ', '\t', '\n', '\U{000B}', '\U{000C}', '\r']
    ensures forall k :: cursor <= k < r ==> buffer[k] in [' ', '\t', '\n', '\U{000B}', '\U{000C}', '\r']
  {
    r := cursor;
    while buffer[r] != NUL && IsSpace(buffer[r])
      invariant cursor <= r <= base + |s|
      invariant SkipSpaces(s, r - base) == SkipSpaces(s, cursor - base)
      invariant forall k :: cursor <= k < r ==> buffer[k] in [' ', '\t', '\n', '\U{000B}', '\U{000C}', '\r']
      decreases base + |s| - r
    {
      SpaceIs(buffer[r]);
      r := r + 1;
    }
    SpaceIs(buffer[r]);
  }

  /** The token after cursor and white space, with the position behind it; None where the
      original returns NULL. */
  method ParseToken(buffer: array<char>, cursor: nat, ghost base: nat, ghost s: string)
    returns (r: Option<(string, nat)>)
    requires base <= cursor <= base + |s| && StringAt(buffer[..], base, s)
    ensures match TokenAt(s, cursor - base)
            case None => r == None
            case Some(t) => r == Some((s[t.0..t.1], base + t.1))
  {
    var start := Skip(buffer, cursor, base, s);
    if buffer[start] == NUL || buffer[start] == '<' || buffer[start] == '>' {
      return None;
    }
    var stop := start;
    while buffer[stop] != NUL && !IsSpace(buffer[stop]) && buffer[stop] != '<' && buffer[stop] != '>'
      invariant start <= stop <= base + |s|
      invariant TokenEnd(s, stop - base) == TokenEnd(s, start - base)
      decreases base + |s| - stop
    {
      stop := stop + 1;
    }
    assert buffer[start..stop] == s[start - base..stop - base];
    r := Some((buffer[start..stop], stop));
  }

  // -------- stages --------

  /** One stage as the parser fills it in: a vector that ends at the first empty slot. */
  class CommandStage {
    const argv: array<Option<string>>
    var inputFile: Option<string>
    var outputFile: Option<string>
    var errorFile: Option<string>

    constructor ()
      ensures fresh(argv) && Filling(NoStage) && Holds(NoStage)
    {
      argv := new Option<string>[MAX_ARGS](_ => None);
      inputFile, outputFile, errorFile := None, None, None;
    }

    /** The arguments of st, and its redirections. */
    ghost predicate Filling(st: Stage)
      reads this, argv
    {
      && argv.Length == MAX_ARGS && |st.argv| < MAX_ARGS
      && (forall i :: 0 <= i < |st.argv| ==> argv[i] == Some(st.argv[i]))
      && inputFile == st.input && outputFile == st.output && errorFile == st.error
    }

    /** Exactly st, with the terminator behind the last argument. */
    ghost predicate Holds(st: Stage)
      reads this, argv
    {
      Filling(st) && argv[|st.argv|] == None
    }

    /** Read the stage back, up to the terminator of its arguments. */
    method Read(ghost st: Stage) returns (r: Stage)
      requires Holds(st)
      ensures r == st
    {
      var args: seq<string> := [];
      while argv[|args|] != None
        invariant args <= st.argv
        decreases |st.argv| - |args|
      {
        args := args + [argv[|args|].value];
      }
      r := Stage(args, inputFile, outputFile, errorFile);
    }

    method Redirect(target: Target, file: string, ghost st: Stage)
      requires Filling(st)
      modifies this
      ensures Filling(Put(st, ParserModel.Redirect(target, file)))
      ensures Put(st, ParserModel.Redirect(target, file)).argv == st.argv
    {
      match target
      case In => inputFile := Some(file);
      case Out => outputFile := Some(file);
      case Err => errorFile := Some(file);
    }

    method AddArgument(argc: nat, w: string, ghost st: Stage) returns (count: nat)
      requires Filling(st) && argc == |st.argv|
      modifies argv
      ensures Filling(Put(st, Word(w))) && count == |Put(st, Word(w)).argv|
    {
      count := argc;
      if argc < MAX_ARGS - 1 {
        argv[argc] := Some(w);
        count := argc + 1;
      }
    }

    /** Fill this stage from the text at base. */
    method Parse(buffer: array<char>, base: nat, ghost s: string) returns (ok: bool)
      requires StringAt(buffer[..], base, s) && Filling(NoStage)
      modifies this, argv
      ensures ok <==> ParseStage(s).Some?
      ensures ok ==> Holds(ParseStage(s).value)
    {
      hide Scan, SkipSpaces, TokenAt, Fill, Put;
      var cursor, argc := base, 0;
      ghost var done: seq<Item> := [];
      NothingDone(s);
      while true
        invariant base <= cursor <= base + |s|
        invariant Filling(Fill(done)) && argc == |Fill(done).argv|
        invariant Scan(s, 0) == Prepended(done, Scan(s, cursor - base))
        decreases base + |s| - cursor
      {
        ghost var c := cursor - base;
        cursor := Skip(buffer, cursor, base, s);
        if buffer[cursor] == NUL {
          ScanEnds(done, s, c);
          break;
        }
        var target: Option<Target> := None;
        if buffer[cursor] == '2' && buffer[cursor + 1] == '>' {
          target, cursor := Some(Err), cursor + 2;
        } else if buffer[cursor] == '<' {
          target, cursor := Some(In), cursor + 1;
        } else if buffer[cursor] == '>' {
          target, cursor := Some(Out), cursor + 1;
        }
        var token := ParseToken(buffer, cursor, base, s);
        OneTurn(done, s, c, target, cursor - base);
        if token == None { return false; }
        cursor := token.value.1;
        if target.Some? {
          Redirect(target.value, token.value.0, Fill(done));
        } else {
          argc := AddArgument(argc, token.value.0, Fill(done));
        }
        done := done + [ItemOf(target, token.value.0)];
      }
      argv[argc] := None;
      ok := true;
    }
  }

  function ItemOf(target: Option<Target>, text: string): Item {
    match target
    case Some(t) => ParserModel.Redirect(t, text)
    case None => Word(text)
  }

  /** A turn of the loop at c that has recognised target and reads a token from q on. */
  lemma OneTurn(done: seq<Item>, s: string, c: nat, target: Option<Target>, q: nat)
    requires c <= |s| && SkipSpaces(s, c) < |s|
    requires OperatorAt(s, SkipSpaces(s, c))
          == if target.Some? then Some((target.value, q - SkipSpaces(s, c))) else None
    requires SkipSpaces(s, c) <= q <= |s| && (target == None ==> q == SkipSpaces(s, c))
    ensures TokenAt(s, q) == None ==> Scan(s, c) == None
    ensures TokenAt(s, q).Some? ==>
              var t := TokenAt(s, q).value;
              var x := ItemOf(target, s[t.0..t.1]);
              && c < t.1
              && Prepended(done, Scan(s, c)) == Prepended(done + [x], Scan(s, t.1))
              && Fill(done + [x]) == Put(Fill(done), x)
  {
    if TokenAt(s, q).Some? {
      var t := TokenAt(s, q).value;
      var x := ItemOf(target, s[t.0..t.1]);
      assert ChunkAt(s, c) == Piece(x, t.1);
      NextItem(done, x, s, t.1);
    }
  }

  lemma ScanEnds(done: seq<Item>, s: string, c: nat)
    requires c <= |s| && SkipSpaces(s, c) == |s|
    ensures Prepended(done, Scan(s, c)) == Some(done)
  {
    assert done + [] == done;
  }

  lemma NothingDone(s: string)
    ensures Prepended([], Scan(s, 0)) == Scan(s, 0) && Fill([]) == NoStage
  {
    if Scan(s, 0).Some? { assert [] + Scan(s, 0).value == Scan(s, 0).value; }
  }

  lemma NextItem(done: seq<Item>, x: Item, s: string, next: nat)
    requires next <= |s|
    ensures Prepended(done, Prepended([x], Scan(s, next))) == Prepended(done + [x], Scan(s, next))
    ensures Fill(done + [x]) == Put(Fill(done), x)
  {
    assert (done + [x])[..|done|] == done;
    if Scan(s, next).Some? {
      assert done + ([x] + Scan(s, next).value) == (done + [x]) + Scan(s, next).value;
    }
  }

  // -------- cutting the buffer at bars --------

  /** Copy what fits of the input, and fill the rest of the buffer with terminators. */
  method CopyInput(buffer: array<char>, input: string)
    requires buffer.Length == INPUT_BUFFER
    modifies buffer
    ensures StringAt(buffer[..], 0, Truncated(input))
  {
    ghost var text := Text(input);
    var n := 0;
    while n < INPUT_BUFFER - 1 && n < |input| && input[n] != NUL
      invariant n <= INPUT_BUFFER - 1 && n <= |text|
      invariant forall k :: 0 <= k < n ==> buffer[k] == text[k]
    {
      assert n < |text|;
      buffer[n] := input[n];
      n := n + 1;
    }
    var i := n;
    while i < INPUT_BUFFER - 1
      invariant n <= i <= INPUT_BUFFER - 1
      invariant forall k :: 0 <= k < n ==> buffer[k] == text[k]
      invariant forall k :: n <= k < i ==> buffer[k] == NUL
    {
      buffer[i] := NUL;
      i := i + 1;
    }
    buffer[INPUT_BUFFER - 1] := NUL;
    assert forall k :: 0 <= k < |text| ==> text[k] in text;
    assert n == |Truncated(input)|;
  }

  /** Terminating the text at i cuts it in two. */
  lemma CutAt(buffer: seq<char>, from: nat, s: string, b: nat, i: nat)
    requires StringAt(buffer, from, s) && from <= b <= i < from + |s|
    ensures StringAt(buffer[i := NUL], b, s[b - from..i - from])
    ensures StringAt(buffer[i := NUL], i + 1, s[i - from + 1..])
  {
  }

  /** The next non-empty piece of the text at from: it is terminated in place, and save is
      where the text goes on. */
  method NextPiece(buffer: array<char>, from: nat, ghost s: string)
    returns (start: Option<nat>, save: nat, ghost piece: string, ghost rest: string)
    requires StringAt(buffer[..], from, s)
    modifies buffer
    ensures StringAt(buffer[..], save, rest)
    ensures match start
            case None => SplitPipes(s) == []
            case Some(b) => StringAt(buffer[..], b, piece) && SplitPipes(s) == [piece] + SplitPipes(rest)
  {
    hide SplitPipes, BarAt, Text;
    assert forall k :: from <= k < from + |s| ==> buffer[k] == s[k - from] && buffer[k] != NUL;
    assert buffer[from + |s|] == NUL;
    assert s[0..] == s;
    var i := from;
    while buffer[i] == '|'
      invariant from <= i <= from + |s|
      invariant SplitPipes(s[i - from..]) == SplitPipes(s)
      modifies {}
      decreases from + |s| - i
    {
      SkipBar(s, i - from);
      i := i + 1;
    }
    ghost var a := i - from;
    if buffer[i] == NUL {
      SplitNoBar([]);
      assert s[a..] == [];
      return None, i, [], [];
    }
    var b := i;
    while buffer[i] != '|' && buffer[i] != NUL
      invariant b <= i <= from + |s|
      invariant forall k :: a <= k < i - from ==> s[k] != '|'
      modifies {}
      decreases from + |s| - i
    {
      i := i + 1;
    }
    piece := s[a..i - from];
    assert piece == s[a..][..i - b];
    SplitAtBar(s[a..], i - b);
    if buffer[i] == NUL {
      return Some(b), i, piece, [];
    }
    rest := s[i - from + 1..];
    assert rest == s[a..][i - b + 1..];
    CutAt(buffer[..], from, s, b, i);
    buffer[i] := NUL;
    return Some(b), i + 1, piece, rest;
  }

  // -------- commands --------

  /** A parsed command: its buffer and the stages that have been filled. */
  class ParsedCommand {
    const buffer: array<char>
    var stages: seq<CommandStage>

    constructor ()
      ensures fresh(buffer) && buffer.Length == INPUT_BUFFER && stages == []
    {
      buffer := new char[INPUT_BUFFER](_ => NUL);
      stages := [];
    }

    ghost function Vectors(): set<object>
      reads this, stages
    {
      set i | 0 <= i < |stages| :: stages[i].argv as object
    }

    ghost predicate Holds(command: seq<Stage>)
      reads this, stages, Vectors()
    {
      |stages| == |command| && forall i :: 0 <= i < |stages| ==> stages[i].Holds(command[i])
    }

    method Stages(ghost command: seq<Stage>) returns (r: seq<Stage>)
      requires Holds(command)
      ensures r == command
    {
      r := [];
      for i := 0 to |stages|
        invariant r == command[..i]
      {
        var st := stages[i].Read(command[i]);
        r := r + [st];
      }
    }

    /** Fill one more stage from the text at start. */
    method AddStage(start: nat, ghost piece: string, ghost command: seq<Stage>) returns (ok: bool)
      requires StringAt(buffer[..], start, piece) && Holds(command)
      modifies this
      ensures ok <==> ParseStage(piece).Some?
      ensures ok ==> Holds(command + [ParseStage(piece).value])
      ensures ok ==> old(stages) <= stages && fresh(set x <- stages | x !in old(stages))
      ensures ok ==> fresh(Vectors() - old(Vectors()))
    {
      hide ParseStage;
      var stage := new CommandStage();
      ok := stage.Parse(buffer, start, piece);
      if ok {
        stages := stages + [stage];
      }
    }
  }

  lemma {:induction false} OneFails(pieces: seq<string>, k: nat)
    requires k < |pieces| && ParseStage(pieces[k]) == None
    ensures ParseAll(pieces) == None
  {
    if k < |pieces| - 1 { OneFails(pieces[..|pieces| - 1], k); }
  }

  lemma NoStages()
    ensures ParseAll([]) == Some([])
  {
  }

  lemma ParsedNext(pieces: seq<string>, k: nat)
    requires k < |pieces| && ParseAll(pieces[..k]).Some? && ParseStage(pieces[k]).Some?
    ensures ParseAll(pieces[..k + 1]) == Some(ParseAll(pieces[..k]).value + [ParseStage(pieces[k]).value])
  {
    assert pieces[..k + 1][..k] == pieces[..k];
  }

  /** Parse a command; null where one of its first sixteen stages is rejected. */
  method ParseCommand(input: string) returns (r: ParsedCommand?)
    ensures r == null <==> ParserModel.Parse(input) == None
    ensures r != null ==> fresh(r) && r.Holds(ParserModel.Parse(input).value)
  {
    hide ParseStage, ParseAll, SplitPipes, Text, StringAt, CommandStage.Holds, CommandStage.Filling;
    NoStages();
    var parsed := new ParsedCommand();
    CopyInput(parsed.buffer, input);
    ghost var pieces := SplitPipes(Truncated(input));
    ghost var k, command: seq<Stage> := 0, [];
    var start, save, piece, rest := NextPiece(parsed.buffer, 0, Truncated(input));
    while start.Some? && |parsed.stages| < MAX_STAGES
      invariant fresh(parsed) && fresh(parsed.buffer)
      invariant k == |parsed.stages| <= MAX_STAGES && k <= |pieces|
      invariant ParseAll(pieces[..k]) == Some(command) && parsed.Holds(command)
      invariant pieces[k..] == if start.Some? then [piece] + SplitPipes(rest) else []
      invariant StringAt(parsed.buffer[..], save, rest)
      invariant start.Some? ==> StringAt(parsed.buffer[..], start.value, piece)
      decreases MAX_STAGES - |parsed.stages|
    {
      assert pieces[k] == pieces[k..][0] == piece;
      var ok := parsed.AddStage(start.value, piece, command);
      if !ok {
        OneFails(Prefix(pieces, MAX_STAGES), k);
        return null;
      }
      ParsedNext(pieces, k);
      command := command + [ParseStage(piece).value];
      assert pieces[k + 1..] == pieces[k..][1..] == SplitPipes(rest);
      k := k + 1;
      start, save, piece, rest := NextPiece(parsed.buffer, save, rest);
    }
    assert Prefix(pieces, MAX_STAGES) == pieces[..k];
    r := parsed;
  }
}
