/** Conditional assembly: the skipping of #if blocks by a nesting counter, against the tree
    meaning of nested blocks. A file is a sequence of physical lines without backslashes. */
module Conditional {
  import Scanner

  type Line = string

  // ---------- words on a line ----------

  function Lower(c: char): char {
    if 'A' <= c <= 'Z' then (c as int + 32) as char else c
  }

  function SkipBlanks(s: string): (r: string)
    ensures |r| <= |s|
  {
    if s != "" && Scanner.Blank(s[0]) then SkipBlanks(s[1..]) else s
  }

  /** strncasecmp over the length of the word. */
  predicate StartsWith(s: string, word: string) {
    |word| <= |s| && forall i :: 0 <= i < |word| ==> Lower(s[i]) == Lower(word[i])
  }

  /** line_has_word: the word is a prefix of the line after blanks, in any case. */
  predicate HasWord(line: Line, word: string) {
    StartsWith(SkipBlanks(line), word)
  }

  predicate Letter(c: char) {
    'a' <= Lower(c) <= 'z'
  }

  function Name(s: string): (r: string)
    ensures |r| <= |s|
  {
    if s != "" && Letter(s[0]) then [Lower(s[0])] + Name(s[1..]) else ""
  }

  /** A TextLine, #comment or #macro, takes lines of its own; that is not part of this model, and no
      file with such a line is WellFormed. */
  datatype Kind = PlainLine | TextLine | IfLine | ElseLine | ElifLine | EndifLine

  function KindOfName(name: string): Kind {
    if name in ["if", "ifdef", "ifndef"] then IfLine
    else if name == "else" then ElseLine
    else if name == "elif" then ElifLine
    else if name == "endif" then EndifLine
    else if name in ["comment", "macro"] then TextLine
    else PlainLine
  }

  /** How handle_preop takes a line: by the whole name after the # sign. */
  function KindOf(line: Line): Kind {
    var s := SkipBlanks(line);
    if s == "" || s[0] != '#' then PlainLine else KindOfName(Name(s[1..]))
  }

  /** All that the first pass asks about a line: its kind, and which words skip_until finds on it. */
  datatype Mark = Mark(kind: Kind, hasIf: bool, hasElse: bool, hasElif: bool, hasEndif: bool)

  function Read(line: Line): Mark {
    Mark(KindOf(line), HasWord(line, "#IF"), HasWord(line, "#else"), HasWord(line, "#elif"), HasWord(line, "#ENDIF"))
  }

  /** A line that handle_preop and skip_until read the same way: no longer word starts like a directive. */
  predicate Clean(m: Mark) {
    && (m.hasIf <==> m.kind == IfLine)
    && (m.hasElse <==> m.kind == ElseLine)
    && (m.hasElif <==> m.kind == ElifLine)
    && (m.hasEndif <==> m.kind == EndifLine)
  }

  /** A word of letters starts a text exactly when it starts the text's leading run of letters. */
  lemma {:induction false} WordInName(t: string, w: string)
    requires forall i :: 0 <= i < |w| ==> Letter(w[i])
    ensures StartsWith(t, w) <==> Lowered(w) <= Name(t)
  {
    if w == "" {
    } else if t != "" && Lower(t[0]) == Lower(w[0]) {
      WordInName(t[1..], w[1..]);
      StartsCons(t, w);
      assert Lowered(w) == [Lower(w[0])] + Lowered(w[1..]);
      PrefixCons(Lower(w[0]), Lowered(w[1..]), Name(t[1..]));
    } else {
      OtherStart(t, w);
      assert Lowered(w)[0] == Lower(w[0]);
    }
  }

  lemma OtherStart(t: string, w: string)
    requires w != "" && (t == "" || Lower(t[0]) != Lower(w[0]))
    ensures !StartsWith(t, w)
  {
    if t != "" { StartsCons(t, w); }
  }

  lemma StartsCons(t: string, w: string)
    requires t != "" && w != ""
    ensures StartsWith(t, w) <==> Lower(t[0]) == Lower(w[0]) && StartsWith(t[1..], w[1..])
  {
    assert forall i :: 1 <= i < |w| && |w| <= |t| ==> w[i] == w[1..][i - 1] && t[i] == t[1..][i - 1];
    assert forall i :: 0 <= i < |w| - 1 && |w| <= |t| ==> w[1..][i] == w[i + 1] && t[1..][i] == t[i + 1];
  }

  lemma PrefixCons(c: char, a: string, b: string)
    ensures [c] + a <= [c] + b <==> a <= b
  {
    assert ([c] + b)[1..] == b && ([c] + a)[1..] == a;
    assert |a| <= |b| ==> ([c] + b)[..1 + |a|] == [c] + b[..|a|];
  }

  function Lowered(w: string): (r: string)
    ensures |r| == |w|
  {
    seq(|w|, i requires 0 <= i < |w| => Lower(w[i]))
  }

  lemma DirectiveWord(line: Line, w: string)
    requires SkipBlanks(line) != "" && SkipBlanks(line)[0] == '#' && forall i :: 0 <= i < |w| ==> Letter(w[i])
    ensures HasWord(line, "#" + w) <==> Lowered(w) <= Name(SkipBlanks(line)[1..])
  {
    var s := SkipBlanks(line);
    WordInName(s[1..], w);
    StartsCons(s, "#" + w);
    assert ("#" + w)[1..] == w;
  }

  /** A line that is not a directive is clean. */
  lemma OrdinaryLine(line: Line)
    requires SkipBlanks(line) == "" || SkipBlanks(line)[0] != '#'
    ensures Clean(Read(line)) && Read(line).kind == PlainLine
  {
    OtherStart(SkipBlanks(line), "#IF");
    OtherStart(SkipBlanks(line), "#else");
    OtherStart(SkipBlanks(line), "#elif");
    OtherStart(SkipBlanks(line), "#ENDIF");
  }

  /** The two readings of a directive differ exactly on longer names that start like one. */
  lemma DirectiveLine(line: Line)
    requires SkipBlanks(line) != "" && SkipBlanks(line)[0] == '#'
    ensures var name := Name(SkipBlanks(line)[1..]);
      Clean(Read(line)) <==> && ("if" <= name ==> name in ["if", "ifdef", "ifndef"])
                             && ("else" <= name ==> name == "else")
                             && ("elif" <= name ==> name == "elif")
                             && ("endif" <= name ==> name == "endif")
  {
    IfElseWords(line);
    ElifEndifWords(line);
    var name := Name(SkipBlanks(line)[1..]);
    assert "if" <= "ifdef" && "if" <= "ifndef";
  }

  lemma IfElseWords(line: Line)
    requires SkipBlanks(line) != "" && SkipBlanks(line)[0] == '#'
    ensures HasWord(line, "#IF") <==> "if" <= Name(SkipBlanks(line)[1..])
    ensures HasWord(line, "#else") <==> "else" <= Name(SkipBlanks(line)[1..])
  {
    DirectiveWord(line, "IF");
    DirectiveWord(line, "else");
    assert Lowered("IF") == "if" && Lowered("else") == "else";
    assert "#" + "IF" == "#IF" && "#" + "else" == "#else";
  }

  lemma ElifEndifWords(line: Line)
    requires SkipBlanks(line) != "" && SkipBlanks(line)[0] == '#'
    ensures HasWord(line, "#elif") <==> "elif" <= Name(SkipBlanks(line)[1..])
    ensures HasWord(line, "#ENDIF") <==> "endif" <= Name(SkipBlanks(line)[1..])
  {
    DirectiveWord(line, "elif");
    DirectiveWord(line, "ENDIF");
    assert Lowered("elif") == "elif" && Lowered("ENDIF") == "endif";
    assert "#" + "elif" == "#elif" && "#" + "ENDIF" == "#ENDIF";
  }

  // ---------- skip_until ----------

  /** The words skip_until is told to stop at: the end of a block, or its next branch too. */
  datatype Words = EndOnly | Branches

  /** The level after a line has been passed by skip_until. */
  function NextLevel(m: Mark, level: nat): nat {
    if m.hasIf then level + 1
    else if level > 0 && m.hasEndif then level - 1
    else level
  }

  predicate Stops(m: Mark, level: nat, words: Words) {
    !m.hasIf && level == 0 && (m.hasEndif || (words.Branches? && (m.hasElse || m.hasElif)))
  }

  // ---------- the machine ----------

  /** Whether the condition on a line holds, given the lines assembled before it. */
  type Conditions = (seq<Line>, Line) -> bool

  /** A file, what handle_preop and line_has_word find on a line, and its conditions. */
  datatype File = File(lines: seq<Line>, read: Line -> Mark, holds: Conditions) {
    function MarkOf(i: nat): Mark
      requires i < |lines|
    {
      read(lines[i])
    }
  }

  /** The first line from i on at which skip_until stops, or the end of the file. */
  function SkipFrom(f: File, i: nat, level: nat, words: Words): (j: nat)
    requires i <= |f.lines|
    ensures i <= j <= |f.lines|
    decreases |f.lines| - i
  {
    if i == |f.lines| || Stops(f.MarkOf(i), level, words) then i
    else SkipFrom(f, i + 1, NextLevel(f.MarkOf(i), level), words)
  }

  /** The level at line j, from a given level at line i. */
  function LevelAt(f: File, i: nat, j: nat, level: nat): nat
    requires i <= j <= |f.lines|
    decreases j - i
  {
    if i == j then level else LevelAt(f, i + 1, j, NextLevel(f.MarkOf(i), level))
  }

  predicate Passes(f: File, i: nat, j: nat, level: nat, words: Words)
    requires i <= j < |f.lines|
  {
    !Stops(f.MarkOf(j), LevelAt(f, i, j, level), words)
  }

  /** The first line that ends the skipping at the level reached there, or the end of the file. */
  ghost predicate FirstStop(f: File, i: nat, level: nat, words: Words, k: nat)
    requires i <= k <= |f.lines|
  {
    && (k == |f.lines| || Stops(f.MarkOf(k), LevelAt(f, i, k, level), words))
    && forall j :: i <= j < k ==> Passes(f, i, j, level, words)
  }

  lemma {:induction false} SkipFromIs(f: File, i: nat, level: nat, words: Words, k: nat)
    requires i <= k <= |f.lines|
    ensures SkipFrom(f, i, level, words) == k <==> FirstStop(f, i, level, words, k)
    decreases k - i
  {
    if i < k {
      SkipFromIs(f, i + 1, NextLevel(f.MarkOf(i), level), words, k);
      FirstStopStep(f, i, level, words, k);
    }
  }

  lemma FirstStopStep(f: File, i: nat, level: nat, words: Words, k: nat)
    requires i < k <= |f.lines|
    ensures FirstStop(f, i, level, words, k)
      <==> !Stops(f.MarkOf(i), level, words) && FirstStop(f, i + 1, NextLevel(f.MarkOf(i), level), words, k)
  {
    var next := NextLevel(f.MarkOf(i), level);
    assert Passes(f, i, i, level, words) <==> !Stops(f.MarkOf(i), level, words);
    var first := i + 1;
    if FirstStop(f, i, level, words, k) {
      forall j | first <= j < k ensures Passes(f, first, j, next, words) {
        assert Passes(f, i, j, level, words);
      }
    } else if !Stops(f.MarkOf(i), level, words) && FirstStop(f, i + 1, next, words, k) {
      forall j | i <= j < k ensures Passes(f, i, j, level, words) {
        assert j > i ==> Passes(f, i + 1, j, next, words);
      }
    }
  }

  datatype Numbered = Numbered(number: nat, line: Line)

  /** The place in the file, line_num, nIfLevel, what has been assembled, and whether an
      unmatched or stray directive has been reported. */
  datatype State = State(at: nat, number: nat, ifLevel: nat, out: seq<Numbered>, failed: bool)

  function History(out: seq<Numbered>): (r: seq<Line>)
    ensures |r| == |out|
  {
    seq(|out|, i requires 0 <= i < |out| => out[i].line)
  }

  predicate Holds(f: File, out: seq<Numbered>, line: Line) {
    f.holds(History(out), line)
  }

  /** Line j becomes the current line. */
  function GoTo(st: State, j: nat): State
    requires st.at <= j
  {
    st.(at := j, number := st.number + (j - st.at))
  }

  function Fail(st: State, failing: bool): State {
    st.(failed := st.failed || failing)
  }

  /** do_if on the current line; with a false condition it may chain through #elif lines. The caller
      goes on behind the line it stops at. */
  function DoIf(f: File, st: State): (r: State)
    requires st.at < |f.lines|
    ensures st.at < r.at <= |f.lines| + 1
    decreases |f.lines| - st.at, 1
  {
    var st' := Fail(st, SkipFrom(f, st.at + 1, 0, EndOnly) == |f.lines|);
    if Holds(f, st.out, f.lines[st.at]) then GoTo(st', st.at + 1) else DoIfFalse(f, st')
  }

  function DoIfFalse(f: File, st: State): (r: State)
    requires st.at < |f.lines|
    ensures st.at < r.at <= |f.lines| + 1
    decreases |f.lines| - st.at, 0
  {
    var j := SkipFrom(f, st.at + 1, 0, Branches);
    if j < |f.lines| && !f.MarkOf(j).hasElse && f.MarkOf(j).hasElif then DoIf(f, GoTo(st, j))
    else GoTo(Fail(st, j == |f.lines|), j + 1)
  }

  /** One line of the first pass. */
  function Step(f: File, st: State): (r: State)
    requires st.at < |f.lines|
    ensures st.at < r.at
  {
    var next := st.at + 1;
    match f.MarkOf(st.at).kind
    case PlainLine | TextLine => GoTo(st.(out := st.out + [Numbered(st.number, f.lines[st.at])]), next)
    case IfLine => DoIf(f, st.(ifLevel := st.ifLevel + 1))
    case ElseLine =>
      if st.ifLevel == 0 then GoTo(Fail(st, true), next)
      else GoTo(st, SkipFrom(f, next, 0, Branches) + 1)
    case ElifLine => GoTo(Fail(st, st.ifLevel == 0), SkipFrom(f, next, 0, EndOnly) + 1)
    case EndifLine =>
      if st.ifLevel > 0 then GoTo(st.(ifLevel := st.ifLevel - 1), next)
      else GoTo(Fail(st, true), next)
  }

  function Run(f: File, st: State): State
    decreases |f.lines| - st.at
  {
    if st.at >= |f.lines| then st else Run(f, Step(f, st))
  }

  // ---------- blocks ----------

  datatype Block = Plain(line: Line) | Cond(head: Line, body: seq<Block>, tail: Tail)
  datatype Tail =
    | End(line: Line)
    | Else(line: Line, body: seq<Block>, end: Line)
    | Elif(line: Line, body: seq<Block>, tail: Tail)

  function Flatten(bs: seq<Block>): (r: seq<Line>)
    ensures |r| == Size(bs)
    decreases bs
  {
    if bs == [] then [] else FlattenBlock(bs[0]) + Flatten(bs[1..])
  }

  function FlattenBlock(b: Block): (r: seq<Line>)
    ensures |r| == SizeBlock(b)
    decreases b
  {
    match b
    case Plain(line) => [line]
    case Cond(head, body, tail) => [head] + Flatten(body) + FlattenTail(tail)
  }

  function FlattenTail(t: Tail): (r: seq<Line>)
    ensures |r| == SizeTail(t)
    decreases t
  {
    match t
    case End(line) => [line]
    case Else(line, body, end) => [line] + Flatten(body) + [end]
    case Elif(line, body, tail) => [line] + Flatten(body) + FlattenTail(tail)
  }

  /** How many lines a tree takes. */
  function Size(bs: seq<Block>): nat
    decreases bs
  {
    if bs == [] then 0 else SizeBlock(bs[0]) + Size(bs[1..])
  }

  function SizeBlock(b: Block): nat
    decreases b
  {
    match b
    case Plain(_) => 1
    case Cond(_, body, tail) => 1 + Size(body) + SizeTail(tail)
  }

  function SizeTail(t: Tail): nat
    decreases t
  {
    match t
    case End(_) => 1
    case Else(_, body, _) => 2 + Size(body)
    case Elif(_, body, tail) => 1 + Size(body) + SizeTail(tail)
  }

  /** Every line of the tree is clean and stands where its kind belongs. */
  predicate Reads(f: File, line: Line, k: Kind) {
    Clean(f.read(line)) && f.read(line).kind == k
  }

  predicate WellFormed(f: File, bs: seq<Block>)
    decreases bs
  {
    bs == [] || (WellFormedBlock(f, bs[0]) && WellFormed(f, bs[1..]))
  }

  predicate WellFormedBlock(f: File, b: Block)
    decreases b
  {
    match b
    case Plain(line) => Reads(f, line, PlainLine)
    case Cond(head, body, tail) => Reads(f, head, IfLine) && WellFormed(f, body) && WellFormedTail(f, tail)
  }

  predicate WellFormedTail(f: File, t: Tail)
    decreases t
  {
    match t
    case End(line) => Reads(f, line, EndifLine)
    case Else(line, body, end) => Reads(f, line, ElseLine) && WellFormed(f, body) && Reads(f, end, EndifLine)
    case Elif(line, body, tail) => Reads(f, line, ElifLine) && WellFormed(f, body) && WellFormedTail(f, tail)
  }

  // ---------- the tree meaning ----------

  /** The lines a sequence of blocks contributes: at most one branch of every block, with each
      condition judged on what has been assembled so far. */
  function Meaning(bs: seq<Block>, f: File, out: seq<Numbered>, number: nat): seq<Numbered>
    decreases bs
  {
    if bs == [] then out
    else Meaning(bs[1..], f, MeaningBlock(bs[0], f, out, number), number + SizeBlock(bs[0]))
  }

  function MeaningBlock(b: Block, f: File, out: seq<Numbered>, number: nat): seq<Numbered>
    decreases b
  {
    match b
    case Plain(line) => out + [Numbered(number, line)]
    case Cond(head, body, tail) =>
      if Holds(f, out, head) then Meaning(body, f, out, number + 1)
      else MeaningTail(tail, f, out, number + 1 + Size(body))
  }

  function MeaningTail(t: Tail, f: File, out: seq<Numbered>, number: nat): seq<Numbered>
    decreases t
  {
    match t
    case End(line) => out
    case Else(line, body, end) => Meaning(body, f, out, number + 1)
    case Elif(line, body, tail) =>
      if Holds(f, out, line) then Meaning(body, f, out, number + 1)
      else MeaningTail(tail, f, out, number + 1 + Size(body))
  }

  // ---------- where the lines of a tree stand ----------

  /** Line i is clean and of kind k. */
  ghost predicate Is(f: File, i: nat, line: Line, k: Kind) {
    i < |f.lines| && f.lines[i] == line && f.MarkOf(i).kind == k && Clean(f.MarkOf(i))
  }

  /** The blocks stand in the file from line i on. */
  ghost predicate At(f: File, i: nat, bs: seq<Block>)
    decreases bs
  {
    if bs == [] then i <= |f.lines| else AtBlock(f, i, bs[0]) && At(f, i + SizeBlock(bs[0]), bs[1..])
  }

  ghost predicate AtBlock(f: File, i: nat, b: Block)
    decreases b
  {
    match b
    case Plain(line) => Is(f, i, line, PlainLine)
    case Cond(head, body, tail) => Is(f, i, head, IfLine) && At(f, i + 1, body) && AtTail(f, i + 1 + Size(body), tail)
  }

  ghost predicate AtTail(f: File, i: nat, t: Tail)
    decreases t
  {
    match t
    case End(line) => Is(f, i, line, EndifLine)
    case Else(line, body, end) =>
      Is(f, i, line, ElseLine) && At(f, i + 1, body) && Is(f, i + 1 + Size(body), end, EndifLine)
    case Elif(line, body, tail) => Is(f, i, line, ElifLine) && At(f, i + 1, body) && AtTail(f, i + 1 + Size(body), tail)
  }

  ghost predicate Sits(f: File, i: nat, text: seq<Line>) {
    i + |text| <= |f.lines| && f.lines[i..i + |text|] == text
  }

  lemma SitsSplit(f: File, i: nat, a: seq<Line>, b: seq<Line>)
    requires Sits(f, i, a + b)
    ensures Sits(f, i, a) && Sits(f, i + |a|, b)
  {
    var n := |a + b|;
    assert f.lines[i..i + n][..|a|] == f.lines[i..i + |a|] && (a + b)[..|a|] == a;
    assert f.lines[i..i + n][|a|..] == f.lines[i + |a|..i + n] && (a + b)[|a|..] == b;
  }

  lemma SitsLine(f: File, i: nat, line: Line, k: Kind)
    requires Sits(f, i, [line]) && Reads(f, line, k)
    ensures Is(f, i, line, k)
  {
    assert f.lines[i..i + 1][0] == f.lines[i];
  }

  lemma {:induction false} SitsAt(f: File, i: nat, bs: seq<Block>)
    requires WellFormed(f, bs) && Sits(f, i, Flatten(bs))
    ensures At(f, i, bs)
    decreases bs, -1
  {
    if bs != [] {
      SitsSplit(f, i, FlattenBlock(bs[0]), Flatten(bs[1..]));
      SitsAtBlock(f, i, bs[0]);
      SitsAt(f, i + SizeBlock(bs[0]), bs[1..]);
    }
  }

  lemma {:induction false} SitsAtBlock(f: File, i: nat, b: Block)
    requires WellFormedBlock(f, b) && Sits(f, i, FlattenBlock(b))
    ensures AtBlock(f, i, b)
    decreases b
  {
    if b.Plain? {
      SitsLine(f, i, b.line, PlainLine);
    } else {
      SitsBranch(f, i, b.head, IfLine, b.body, FlattenTail(b.tail));
      SitsAtTail(f, i + 1 + Size(b.body), b.tail);
    }
  }

  lemma {:induction false} SitsBranch(f: File, i: nat, line: Line, k: Kind, body: seq<Block>, rest: seq<Line>)
    requires Reads(f, line, k) && WellFormed(f, body) && Sits(f, i, [line] + Flatten(body) + rest)
    ensures Is(f, i, line, k) && At(f, i + 1, body) && Sits(f, i + 1 + Size(body), rest)
    decreases body, 0
  {
    SitsSplit(f, i, [line] + Flatten(body), rest);
    SitsSplit(f, i, [line], Flatten(body));
    SitsLine(f, i, line, k);
    SitsAt(f, i + 1, body);
  }

  lemma {:induction false} SitsAtTail(f: File, i: nat, t: Tail)
    requires WellFormedTail(f, t) && Sits(f, i, FlattenTail(t))
    ensures AtTail(f, i, t)
    decreases t
  {
    match t {
      case End(line) =>
        SitsLine(f, i, line, EndifLine);
      case Else(line, body, end) =>
        SitsBranch(f, i, line, ElseLine, body, [end]);
        SitsLine(f, i + 1 + Size(body), end, EndifLine);
      case Elif(line, body, tail) =>
        SitsBranch(f, i, line, ElifLine, body, FlattenTail(tail));
        SitsAtTail(f, i + 1 + Size(body), tail);
    }
  }

  // ---------- skipping over blocks ----------

  /** Whole blocks are passed at any level. */
  lemma {:induction false} SkipBlocks(f: File, i: nat, bs: seq<Block>, level: nat, words: Words)
    requires At(f, i, bs)
    ensures i + Size(bs) <= |f.lines| && SkipFrom(f, i, level, words) == SkipFrom(f, i + Size(bs), level, words)
    decreases bs
  {
    if bs != [] {
      SkipBlock(f, i, bs[0], level, words);
      SkipBlocks(f, i + SizeBlock(bs[0]), bs[1..], level, words);
    }
  }

  lemma {:induction false} SkipBlock(f: File, i: nat, b: Block, level: nat, words: Words)
    requires AtBlock(f, i, b)
    ensures i + SizeBlock(b) <= |f.lines| && SkipFrom(f, i, level, words) == SkipFrom(f, i + SizeBlock(b), level, words)
    decreases b
  {
    if b.Cond? {
      SkipBlocks(f, i + 1, b.body, level + 1, words);
      SkipTail(f, i + 1 + Size(b.body), b.tail, level, words);
    }
  }

  /** Inside a skipped block its #else and #elif are passed and its #endif ends it. */
  lemma {:induction false} SkipTail(f: File, i: nat, t: Tail, level: nat, words: Words)
    requires AtTail(f, i, t)
    ensures i + SizeTail(t) <= |f.lines|
    ensures SkipFrom(f, i, level + 1, words) == SkipFrom(f, i + SizeTail(t), level, words)
    decreases t
  {
    if !t.End? {
      SkipBlocks(f, i + 1, t.body, level + 1, words);
      if t.Elif? { SkipTail(f, i + 1 + Size(t.body), t.tail, level, words); }
    }
  }

  /** When only #endif is looked for, a block's other branches are passed up to its #endif. */
  lemma {:induction false} SkipToEnd(f: File, i: nat, t: Tail)
    requires AtTail(f, i, t)
    ensures i + SizeTail(t) <= |f.lines| && SkipFrom(f, i, 0, EndOnly) == i + SizeTail(t) - 1
    decreases t
  {
    if !t.End? {
      SkipBlocks(f, i + 1, t.body, 0, EndOnly);
      if t.Elif? { SkipToEnd(f, i + 1 + Size(t.body), t.tail); }
    }
  }

  /** From a branch of a block, skipping to the next branch or the end stops right behind the body. */
  lemma SkipsFromBranch(f: File, i: nat, body: seq<Block>, t: Tail)
    requires At(f, i, body) && AtTail(f, i + Size(body), t)
    ensures i + Size(body) + SizeTail(t) <= |f.lines|
    ensures SkipFrom(f, i, 0, Branches) == i + Size(body)
    ensures SkipFrom(f, i, 0, EndOnly) == i + Size(body) + SizeTail(t) - 1
  {
    SkipBlocks(f, i, body, 0, Branches);
    SkipBlocks(f, i, body, 0, EndOnly);
    SkipToEnd(f, i + Size(body), t);
  }

  // ---------- running blocks ----------

  /** The run from one state goes on as the run from the other. */
  ghost predicate Leads(f: File, st: State, st': State)
  {
    Run(f, st) == Run(f, st')
  }

  /** n lines have been passed, and nothing new reported. */
  ghost predicate Reached(st: State, st': State, n: nat, out: seq<Numbered>) {
    st'.at == st.at + n && st'.number == st.number + n && st'.out == out && st'.failed == st.failed
  }

  lemma {:induction false} RunBlocks(f: File, st: State, bs: seq<Block>) returns (st': State)
    requires At(f, st.at, bs)
    ensures Leads(f, st, st') && Reached(st, st', Size(bs), Meaning(bs, f, st.out, st.number))
      && st'.ifLevel >= st.ifLevel
    decreases Size(bs), 9
  {
    if bs == [] {
      st' := st;
    } else {
      var mid := RunBlock(f, st, bs[0]);
      st' := RunBlocks(f, mid, bs[1..]);
    }
  }

  lemma {:induction false} RunBlock(f: File, st: State, b: Block) returns (st': State)
    requires AtBlock(f, st.at, b)
    ensures Leads(f, st, st') && Reached(st, st', SizeBlock(b), MeaningBlock(b, f, st.out, st.number))
      && st'.ifLevel >= st.ifLevel
    decreases SizeBlock(b), 8
  {
    if b.Plain? {
      st' := Step(f, st);
    } else {
      st' := RunBranch(f, st.(ifLevel := st.ifLevel + 1), b.body, b.tail);
    }
  }

  lemma IfTrue(f: File, st: State)
    requires st.at < |f.lines| && Holds(f, st.out, f.lines[st.at]) && SkipFrom(f, st.at + 1, 0, EndOnly) < |f.lines|
    ensures DoIf(f, st) == GoTo(st, st.at + 1)
  {
  }

  lemma IfFalse(f: File, st: State, j: nat, line: Line, k: Kind)
    requires st.at < |f.lines| && !Holds(f, st.out, f.lines[st.at]) && SkipFrom(f, st.at + 1, 0, EndOnly) < |f.lines|
    requires SkipFrom(f, st.at + 1, 0, Branches) == j && Is(f, j, line, k)
    ensures DoIf(f, st) == if k == ElifLine then DoIf(f, GoTo(st, j)) else GoTo(st, j + 1)
  {
  }

  /** do_if on an #if or #elif line whose body and tail follow: one branch at most is assembled and
      the run goes on behind the #endif. */
  lemma {:induction false} RunBranch(f: File, st: State, body: seq<Block>, t: Tail) returns (st': State)
    requires st.at < |f.lines| && st.ifLevel > 0
    requires At(f, st.at + 1, body) && AtTail(f, st.at + 1 + Size(body), t)
    ensures Leads(f, DoIf(f, st), st') && st'.ifLevel >= st.ifLevel - 1
    ensures Reached(st, st', 1 + Size(body) + SizeTail(t),
              if Holds(f, st.out, f.lines[st.at]) then Meaning(body, f, st.out, st.number + 1)
              else MeaningTail(t, f, st.out, st.number + 1 + Size(body)))
    decreases Size(body) + SizeTail(t), 7
  {
    if Holds(f, st.out, f.lines[st.at]) {
      st' := RunTrue(f, st, body, t);
    } else {
      st' := RunFalse(f, st, body, t);
    }
  }

  lemma {:induction false} RunTrue(f: File, st: State, body: seq<Block>, t: Tail) returns (st': State)
    requires st.at < |f.lines| && st.ifLevel > 0 && Holds(f, st.out, f.lines[st.at])
    requires At(f, st.at + 1, body) && AtTail(f, st.at + 1 + Size(body), t)
    ensures Leads(f, DoIf(f, st), st') && st'.ifLevel >= st.ifLevel - 1
    ensures Reached(st, st', 1 + Size(body) + SizeTail(t), Meaning(body, f, st.out, st.number + 1))
    decreases Size(body) + SizeTail(t), 6
  {
    var j := TailFound(f, st.at + 1, body, t);
    IfTrue(f, st);
    var first := GoTo(st, st.at + 1);
    var mid := RunBlocks(f, first, body);
    st' := RunPastTail(f, mid, t);
    TakenReached(st, first, mid, st', Size(body), SizeTail(t), Meaning(body, f, st.out, st.number + 1));
  }

  /** A line, a branch and what follows it. */
  lemma TakenReached(st: State, first: State, mid: State, st': State, n: nat, m: nat, out: seq<Numbered>)
    requires first == GoTo(st, st.at + 1) && Reached(first, mid, n, out) && Reached(mid, st', m, mid.out)
    ensures Reached(st, st', 1 + n + m, out)
  {
  }

  lemma {:induction false} RunFalse(f: File, st: State, body: seq<Block>, t: Tail) returns (st': State)
    requires st.at < |f.lines| && st.ifLevel > 0 && !Holds(f, st.out, f.lines[st.at])
    requires At(f, st.at + 1, body) && AtTail(f, st.at + 1 + Size(body), t)
    ensures Leads(f, DoIf(f, st), st') && st'.ifLevel >= st.ifLevel - 1
    ensures Reached(st, st', 1 + Size(body) + SizeTail(t), MeaningTail(t, f, st.out, st.number + 1 + Size(body)))
    decreases Size(body) + SizeTail(t), 6
  {
    var next := EnterTail(f, st, body, t);
    st' := RunTail(f, next, t);
  }

  lemma EnterTail(f: File, st: State, body: seq<Block>, t: Tail) returns (next: State)
    requires st.at < |f.lines| && !Holds(f, st.out, f.lines[st.at])
    requires At(f, st.at + 1, body) && AtTail(f, st.at + 1 + Size(body), t)
    ensures Reached(st, next, 1 + Size(body), st.out) && next.ifLevel == st.ifLevel
    ensures DoIf(f, st) == if t.Elif? then DoIf(f, next) else GoTo(next, next.at + 1)
  {
    var j := TailFound(f, st.at + 1, body, t);
    next := GoTo(st, j);
    IfFalse(f, st, j, t.line, TailKind(t));
  }

  lemma TailFound(f: File, i: nat, body: seq<Block>, t: Tail) returns (j: nat)
    requires At(f, i, body) && AtTail(f, i + Size(body), t)
    ensures j == i + Size(body) < |f.lines|
    ensures SkipFrom(f, i, 0, Branches) == j && SkipFrom(f, i, 0, EndOnly) < |f.lines|
    ensures Is(f, j, t.line, TailKind(t))
  {
    SkipsFromBranch(f, i, body, t);
    j := i + Size(body);
  }

  function TailKind(t: Tail): Kind {
    if t.End? then EndifLine else if t.Else? then ElseLine else ElifLine
  }

  /** The condition was false: the tail's own #else or #elif branch, if any, is next. */
  lemma {:induction false} RunTail(f: File, st: State, t: Tail) returns (st': State)
    requires st.ifLevel > 0 && AtTail(f, st.at, t)
    ensures Leads(f, if t.Elif? then DoIf(f, st) else GoTo(st, st.at + 1), st') && st'.ifLevel >= st.ifLevel - 1
    ensures Reached(st, st', SizeTail(t), MeaningTail(t, f, st.out, st.number))
    decreases SizeTail(t), 5
  {
    match t {
      case End(_) =>
        st' := GoTo(st, st.at + 1);
      case Else(_, _, _) =>
        st' := RunElse(f, GoTo(st, st.at + 1), t);
      case Elif(_, body, tail) =>
        st' := RunBranch(f, st, body, tail);
    }
  }

  lemma {:induction false} RunElse(f: File, st: State, t: Tail) returns (st': State)
    requires t.Else? && st.at > 0 && AtTail(f, st.at - 1, t) && st.ifLevel > 0
    ensures Leads(f, st, st') && st'.ifLevel >= st.ifLevel - 1
    ensures Reached(st, st', SizeTail(t) - 1, Meaning(t.body, f, st.out, st.number))
    decreases SizeTail(t), 4
  {
    var mid := RunBlocks(f, st, t.body);
    st' := Step(f, mid);
  }

  /** A branch has been assembled: the rest of its block is skipped. */
  lemma RunPastTail(f: File, st: State, t: Tail) returns (st': State)
    requires st.ifLevel > 0 && AtTail(f, st.at, t)
    ensures Leads(f, st, st') && Reached(st, st', SizeTail(t), st.out) && st'.ifLevel >= st.ifLevel - 1
  {
    if t.Else? {
      SkipsFromBranch(f, st.at + 1, t.body, End(t.end));
    } else if t.Elif? {
      SkipsFromBranch(f, st.at + 1, t.body, t.tail);
    }
    st' := Step(f, st);
  }

  // ---------- the main result ----------

  const START := State(0, 1, 0, [], false)

  /** The first pass over a well-nested file assembles exactly the lines the blocks mean, each under
      its own line number, and reports no unmatched or stray directive. */
  lemma RunMeansBlocks(bs: seq<Block>, f: File)
    requires WellFormed(f, bs) && f.lines == Flatten(bs)
    ensures var end := Run(f, START);
      end.out == Meaning(bs, f, [], 1) && end.at == |f.lines| && end.number == |f.lines| + 1 && !end.failed
  {
    assert f.lines[0..] == f.lines;
    SitsAt(f, 0, bs);
    var end := RunBlocks(f, START, bs);
  }

  // ---------- the code ----------

  class FirstPass {
    const f: File
    var number: nat
    var ifLevel: nat
    var out: seq<Numbered>
    var failed: bool

    constructor (f: File)
      ensures this.f == f && StateAt(0) == START
    {
      this.f := f;
      number, ifLevel, out, failed := 1, 0, [], false;
    }

    ghost function StateAt(at: nat): State
      reads this
    {
      State(at, number, ifLevel, out, failed)
    }

    /** skip_until from the line after this one, with the line number of the place where it stops. */
    method SkipUntil(at: nat, words: Words) returns (j: nat, line: nat, found: bool)
      requires at < |f.lines|
      ensures j == SkipFrom(f, at + 1, 0, words) && line == number + (j - at)
      ensures found <==> j < |f.lines|
    {
      var level: nat := 0;
      j, line := at + 1, number + 1;
      while j < |f.lines|
        invariant at < j <= |f.lines| && line == number + (j - at)
        invariant SkipFrom(f, j, level, words) == SkipFrom(f, at + 1, 0, words)
      {
        var mark := f.MarkOf(j);
        if mark.hasIf {
          level := level + 1;
        } else if level > 0 && mark.hasEndif {
          level := level - 1;
        } else if level == 0 {
          if words.Branches? && (mark.hasElse || mark.hasElif) {
            return j, line, true;
          }
          if mark.hasEndif {
            return j, line, true;
          }
        }
        j := j + 1;
        line := line + 1;
      }
      found := false;
    }

    /** do_if, with the loop it makes through handle_preop_if on #elif lines; the place to go on from
        is the line after the one it stops at. */
    method TakeIf(at: nat) returns (next: nat)
      requires at < |f.lines|
      modifies this`number, this`failed
      ensures StateAt(next) == DoIf(f, old(StateAt(at)))
      decreases |f.lines| - at, 1
    {
      var _, _, hasEnd := SkipUntil(at, EndOnly);
      if !hasEnd {
        failed := true;
      }
      if Holds(f, out, f.lines[at]) {
        number := number + 1;
        return at + 1;
      }
      next := TakeFalse(at);
    }

    /** The rest of do_if, for a false condition. */
    method TakeFalse(at: nat) returns (next: nat)
      requires at < |f.lines|
      modifies this`number, this`failed
      ensures StateAt(next) == DoIfFalse(f, old(StateAt(at)))
      decreases |f.lines| - at, 0
    {
      var j, line, found := SkipUntil(at, Branches);
      number := line;
      if !found {
        failed := true;
      } else if !f.MarkOf(j).hasElse && f.MarkOf(j).hasElif {
        next := TakeIf(j);
        return;
      }
      number := number + 1;
      return j + 1;
    }

    /** One line of run_first_pass with handle_preop. */
    method TakeLine(at: nat) returns (next: nat)
      requires at < |f.lines|
      modifies this
      ensures StateAt(next) == Step(f, old(StateAt(at)))
    {
      var j, line, found := at, number, true;
      match f.MarkOf(at).kind {
        case PlainLine | TextLine =>
          out := out + [Numbered(number, f.lines[at])];
        case IfLine =>
          ifLevel := ifLevel + 1;
          next := TakeIf(at);
          return;
        case ElseLine =>
          if ifLevel == 0 {
            failed := true;
          } else {
            j, line, found := SkipUntil(at, Branches);
          }
        case ElifLine =>
          if ifLevel == 0 {
            failed := true;
          }
          j, line, found := SkipUntil(at, EndOnly);
        case EndifLine =>
          if ifLevel > 0 {
            ifLevel := ifLevel - 1;
          } else {
            failed := true;
          }
      }
      number := line + 1;
      return j + 1;
    }

    /** run_first_pass. */
    method TakeFile() returns (ghost end: nat)
      modifies this
      ensures StateAt(end) == Run(f, old(StateAt(0)))
    {
      var at: nat := 0;
      while at < |f.lines|
        invariant Run(f, StateAt(at)) == Run(f, old(StateAt(0)))
        decreases |f.lines| - at
      {
        at := TakeLine(at);
      }
      end := at;
    }
  }
}
