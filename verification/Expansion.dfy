/** The text expansion of expressions: names of defines and labels are replaced by their texts. */
module Expansion {
  import opened Bytes
  import opened Arithmetic
  import opened Scanner
  import opened Parser

  /** The defines without arguments that have contents and the labels known so far, under the names
      they are stored with, and how a name is changed before it is stored or looked up. */
  datatype Names = Names(defines: map<string, string>, labels: map<string, int>, fold: string -> string) {
    predicate Defined(name: string) {
      fold(name) in defines
    }

    function Contents(name: string): string
      requires Defined(name)
    {
      defines[fold(name)]
    }

    /** A label; a define of the same name goes first. */
    predicate Labelled(name: string) {
      fold(name) in labels && !Defined(name)
    }

    function ValueOf(name: string): int
      requires Labelled(name)
    {
      labels[fold(name)]
    }

    predicate Unknown(name: string) {
      !Defined(name) && !Labelled(name)
    }
  }

  // ---------- printed numbers ----------

  function DecimalDigit(d: nat): (c: char)
    requires d < 10
    ensures Digit(c) && DigitValue(c) == d
  {
    "0123456789"[d]
  }

  function DecimalNumber(n: nat): (r: string)
    ensures |r| >= 1
  {
    if n < 10 then [DecimalDigit(n)] else DecimalNumber(n / 10) + [DecimalDigit(n % 10)]
  }

  function PrintedDecimal(v: int): string {
    if v < 0 then "-" + DecimalNumber(-v) else DecimalNumber(v)
  }

  const LABEL_BUFFER := 10

  /** A label's value as it is written into a buffer of ten characters, the last of them zero. */
  function PrintedLabel(v: int): string {
    var t := PrintedDecimal(v);
    if |t| < LABEL_BUFFER then t else t[..LABEL_BUFFER - 1]
  }

  lemma {:induction false} DecimalReadsBack(n: nat)
    ensures Digits(DecimalNumber(n), 10) && DigitsValue(DecimalNumber(n), 10) == n
  {
    if n >= 10 {
      DecimalReadsBack(n / 10);
      var t := DecimalNumber(n);
      assert t[..|t| - 1] == DecimalNumber(n / 10);
    } else {
      assert DecimalNumber(n)[..0] == "";
    }
  }

  function TenTo(k: nat): (r: int)
    ensures r >= 1
  {
    if k == 0 then 1 else 10 * TenTo(k - 1)
  }

  lemma {:induction false} DecimalLength(n: nat, k: nat)
    requires k > 0
    ensures |DecimalNumber(n)| <= k <==> n < TenTo(k)
  {
    if n < 10 {
      assert TenTo(k) == 10 * TenTo(k - 1);
    } else if k > 1 {
      DecimalLength(n / 10, k - 1);
    }
  }

  /** Labels are printed in full exactly from -99999999 to 999999999. */
  lemma PrintedInFull(v: int)
    ensures PrintedLabel(v) == PrintedDecimal(v) <==> -99999999 <= v <= 999999999
  {
    DecimalLength(if v < 0 then -v else v, 8);
    DecimalLength(if v < 0 then -v else v, 9);
    assert TenTo(8) == 100000000 && TenTo(9) == 1000000000;
  }

  // ---------- the expansion ----------

  /** The end of the string literal that starts at i. */
  function StringEnd(s: string, i: nat): (j: nat)
    requires i < |s|
    ensures i < j <= |s|
  {
    StringFrom(s, i + 1)
  }

  function StringFrom(s: string, i: nat): (j: nat)
    requires i <= |s|
    ensures i <= j <= |s|
    decreases |s| - i
  {
    if i == |s| then i
    else if s[i] == '"' then i + 1
    else if s[i] == '\\' then if i + 1 == |s| then i + 1 else StringFrom(s, i + 2)
    else StringFrom(s, i + 1)
  }

  /** What the expansion writes from i on, depth macros deep. Behind a string literal one name or one
      character is taken before another literal can start. */
  function Expand(n: Names, s: string, i: nat, depth: nat): string
    requires i <= |s|
    decreases RECURSION_LIMIT + 1 - depth, |s| - i, 1
  {
    if depth > RECURSION_LIMIT || i == |s| then ""
    else if s[i] == '"' then s[i..StringEnd(s, i)] + ExpandOne(n, s, StringEnd(s, i), depth)
    else ExpandOne(n, s, i, depth)
  }

  function ExpandOne(n: Names, s: string, i: nat, depth: nat): string
    requires i <= |s| && depth <= RECURSION_LIMIT
    decreases RECURSION_LIMIT + 1 - depth, |s| - i, 0
  {
    if i == |s| then ""
    else if NameChar(s[i]) then
      var j := RunEnd(s, i, NameChar);
      Replacement(n, s[i..j], depth) + Expand(n, s, j, depth)
    else [s[i]] + Expand(n, s, i + 1, depth)
  }

  function Replacement(n: Names, name: string, depth: nat): string
    requires depth <= RECURSION_LIMIT
    decreases RECURSION_LIMIT + 1 - depth, 0, 0
  {
    if n.Defined(name) then Expand(n, n.Contents(name), 0, depth + 1)
    else if n.Labelled(name) then PrintedLabel(n.ValueOf(name))
    else name
  }

  function ExpandExpr(n: Names, s: string): string {
    Expand(n, s, 0, 0)
  }

  /** Whether the expansion reports that it went too deep. */
  predicate TooDeep(n: Names, s: string, i: nat, depth: nat)
    requires i <= |s|
    decreases RECURSION_LIMIT + 1 - depth, |s| - i, 1
  {
    if depth > RECURSION_LIMIT then true
    else if i == |s| then false
    else TooDeepOne(n, s, if s[i] == '"' then StringEnd(s, i) else i, depth)
  }

  predicate TooDeepOne(n: Names, s: string, i: nat, depth: nat)
    requires i <= |s| && depth <= RECURSION_LIMIT
    decreases RECURSION_LIMIT + 1 - depth, |s| - i, 0
  {
    if i == |s| then false
    else if NameChar(s[i]) then
      var j := RunEnd(s, i, NameChar);
      (n.Defined(s[i..j]) && TooDeep(n, n.Contents(s[i..j]), 0, depth + 1)) || TooDeep(n, s, j, depth)
    else TooDeep(n, s, i + 1, depth)
  }

  /** The defines used in s, and in theirs, go down in rank, and none outranks the limit. */
  ghost predicate Ranked(n: Names, rank: string -> nat) {
    forall d :: d in n.defines ==> Below(n, rank, n.defines[d], 0, rank(d))
  }

  ghost predicate Below(n: Names, rank: string -> nat, s: string, i: nat, r: nat)
    requires i <= |s|
    decreases |s| - i, 1
  {
    BelowOne(n, rank, s, if i < |s| && s[i] == '"' then StringEnd(s, i) else i, r)
  }

  ghost predicate BelowOne(n: Names, rank: string -> nat, s: string, i: nat, r: nat)
    requires i <= |s|
    decreases |s| - i, 0
  {
    if i == |s| then true
    else if NameChar(s[i]) then
      var j := RunEnd(s, i, NameChar);
      (n.Defined(s[i..j]) ==> rank(n.fold(s[i..j])) < r) && Below(n, rank, s, j, r)
    else Below(n, rank, s, i + 1, r)
  }

  /** Acyclic defines within the limit are expanded without an error. */
  lemma {:induction false} NotTooDeep(n: Names, rank: string -> nat, s: string, i: nat, depth: nat, r: nat)
    requires i <= |s| && Ranked(n, rank) && Below(n, rank, s, i, r) && depth + r <= RECURSION_LIMIT
    ensures !TooDeep(n, s, i, depth)
    decreases RECURSION_LIMIT + 1 - depth, |s| - i, 1
  {
    if i < |s| {
      NotTooDeepOne(n, rank, s, if s[i] == '"' then StringEnd(s, i) else i, depth, r);
    }
  }

  lemma {:induction false} NotTooDeepOne(n: Names, rank: string -> nat, s: string, i: nat, depth: nat, r: nat)
    requires i <= |s| && Ranked(n, rank) && BelowOne(n, rank, s, i, r) && depth + r <= RECURSION_LIMIT
    ensures !TooDeepOne(n, s, i, depth)
    decreases RECURSION_LIMIT + 1 - depth, |s| - i, 0
  {
    if i < |s| {
      if NameChar(s[i]) {
        var j := RunEnd(s, i, NameChar);
        var name := s[i..j];
        NotTooDeep(n, rank, s, j, depth, r);
        if n.Defined(name) {
          NotTooDeep(n, rank, n.Contents(name), 0, depth + 1, rank(n.fold(name)));
        }
      } else {
        NotTooDeep(n, rank, s, i + 1, depth, r);
      }
    }
  }

  // ---------- the pieces of a text ----------

  /** A string literal, a name, or another character. */
  datatype Piece = Literal(text: string) | Word(name: string) | Mark(c: char)

  /** The pieces the expansion takes from i on. */
  function Taken(s: string, i: nat): seq<Piece>
    requires i <= |s|
    decreases |s| - i, 1
  {
    if i < |s| && s[i] == '"' then [Literal(s[i..StringEnd(s, i)])] + TakenOne(s, StringEnd(s, i)) else TakenOne(s, i)
  }

  function TakenOne(s: string, i: nat): seq<Piece>
    requires i <= |s|
    decreases |s| - i, 0
  {
    if i == |s| then []
    else if NameChar(s[i]) then
      var j := RunEnd(s, i, NameChar);
      [Word(s[i..j])] + Taken(s, j)
    else [Mark(s[i])] + Taken(s, i + 1)
  }

  /** The text's own pieces: every quote outside a literal starts one. */
  function Pieces(s: string, i: nat): seq<Piece>
    requires i <= |s|
    decreases |s| - i
  {
    if i == |s| then []
    else if s[i] == '"' then [Literal(s[i..StringEnd(s, i)])] + Pieces(s, StringEnd(s, i))
    else if NameChar(s[i]) then
      var j := RunEnd(s, i, NameChar);
      [Word(s[i..j])] + Pieces(s, j)
    else [Mark(s[i])] + Pieces(s, i + 1)
  }

  /** No literal of the text is directly followed by a quote. */
  predicate Spaced(s: string, i: nat)
    requires i <= |s|
    decreases |s| - i
  {
    if i == |s| then true
    else if s[i] == '"' then
      var j := StringEnd(s, i);
      (j == |s| || s[j] != '"') && Spaced(s, j)
    else Spaced(s, if NameChar(s[i]) then RunEnd(s, i, NameChar) else i + 1)
  }

  lemma SameCons<T>(a: T, b: T, x: seq<T>, y: seq<T>)
    ensures [a] + x == [b] + y <==> a == b && x == y
  {
    assert ([a] + x)[1..] == x && ([b] + y)[1..] == y;
    assert ([a] + x)[0] == a && ([b] + y)[0] == b;
  }

  /** The literals of a text are taken as they are exactly when none is directly followed by a quote. */
  lemma {:induction false} TakenAsWritten(s: string, i: nat)
    requires i <= |s|
    ensures Taken(s, i) == Pieces(s, i) <==> Spaced(s, i)
    decreases |s| - i
  {
    if i < |s| {
      if s[i] == '"' {
        var j := StringEnd(s, i);
        var l := Literal(s[i..j]);
        SameCons(l, l, TakenOne(s, j), Pieces(s, j));
        if j < |s| && s[j] == '"' {
          SameCons(Mark(s[j]), Literal(s[j..StringEnd(s, j)]), Taken(s, j + 1), Pieces(s, StringEnd(s, j)));
        } else {
          TakenAsWritten(s, j);
        }
      } else if NameChar(s[i]) {
        var j := RunEnd(s, i, NameChar);
        TakenAsWritten(s, j);
        SameCons(Word(s[i..j]), Word(s[i..j]), Taken(s, j), Pieces(s, j));
      } else {
        TakenAsWritten(s, i + 1);
        SameCons(Mark(s[i]), Mark(s[i]), Taken(s, i + 1), Pieces(s, i + 1));
      }
    }
  }

  function PieceText(p: Piece): string {
    match p
    case Literal(text) => text
    case Word(name) => name
    case Mark(c) => [c]
  }

  function Joined(ps: seq<Piece>): string {
    if ps == [] then "" else PieceText(ps[0]) + Joined(ps[1..])
  }

  /** What the expansion writes for a piece: only names are replaced. */
  function WrittenOne(n: Names, p: Piece, depth: nat): string
    requires depth <= RECURSION_LIMIT
  {
    if p.Word? then Replacement(n, p.name, depth) else PieceText(p)
  }

  function Written(n: Names, ps: seq<Piece>, depth: nat): string
    requires depth <= RECURSION_LIMIT
  {
    if ps == [] then "" else WrittenOne(n, ps[0], depth) + Written(n, ps[1..], depth)
  }

  lemma WrittenCons(n: Names, p: Piece, ps: seq<Piece>, depth: nat)
    requires depth <= RECURSION_LIMIT
    ensures Written(n, [p] + ps, depth) == WrittenOne(n, p, depth) + Written(n, ps, depth)
  {
    assert ([p] + ps)[1..] == ps;
  }

  lemma JoinedCons(p: Piece, ps: seq<Piece>)
    ensures Joined([p] + ps) == PieceText(p) + Joined(ps)
  {
    assert ([p] + ps)[1..] == ps;
  }

  /** The expansion writes the pieces it takes one after the other. */
  lemma {:induction false} ExpandIsWritten(n: Names, s: string, i: nat, depth: nat)
    requires i <= |s| && depth <= RECURSION_LIMIT
    ensures Expand(n, s, i, depth) == Written(n, Taken(s, i), depth)
    decreases |s| - i, 1
  {
    if i < |s| && s[i] == '"' {
      var j := StringEnd(s, i);
      ExpandOneIsWritten(n, s, j, depth);
      WrittenCons(n, Literal(s[i..j]), TakenOne(s, j), depth);
    } else {
      ExpandOneIsWritten(n, s, i, depth);
    }
  }

  lemma {:induction false} ExpandOneIsWritten(n: Names, s: string, i: nat, depth: nat)
    requires i <= |s| && depth <= RECURSION_LIMIT
    ensures ExpandOne(n, s, i, depth) == Written(n, TakenOne(s, i), depth)
    decreases |s| - i, 0
  {
    if i < |s| {
      if NameChar(s[i]) {
        var j := RunEnd(s, i, NameChar);
        ExpandIsWritten(n, s, j, depth);
        WrittenCons(n, Word(s[i..j]), Taken(s, j), depth);
      } else {
        ExpandIsWritten(n, s, i + 1, depth);
        WrittenCons(n, Mark(s[i]), Taken(s, i + 1), depth);
      }
    }
  }

  /** The names of a literal directly behind another one are expanded. */
  lemma AdjacentLiteral(fold: string -> string)
    requires fold("a") == "a"
    ensures ExpandExpr(Names(map[], map["a" := 5], fold), "\"x\"\"a\"") == "\"x\"\"5\""
  {
    var n, s := Names(map[], map["a" := 5], fold), "\"x\"\"a\"";
    assert StringFrom(s, 2) == 3 && StringEnd(s, 0) == 3;
    RunIs(s, 4, 1, NameChar);
    assert s[4..5] == "a" && s[0..3] == "\"x\"" && s[5..6] == "\"";
    assert n.Labelled("a") && Replacement(n, "a", 0) == "5";
    assert StringFrom(s, 6) == 6;
    assert Expand(n, s, 5, 0) == "\"";
    assert Expand(n, s, 4, 0) == "5\"";
  }

  lemma {:induction false} WrittenAppend(n: Names, ps: seq<Piece>, qs: seq<Piece>, depth: nat)
    requires depth <= RECURSION_LIMIT
    ensures Written(n, ps + qs, depth) == Written(n, ps, depth) + Written(n, qs, depth)
    decreases |ps|
  {
    if ps == [] {
      assert ps + qs == qs;
    } else {
      assert (ps + qs)[1..] == ps[1..] + qs;
      WrittenAppend(n, ps[1..], qs, depth);
      Reassociate(WrittenOne(n, ps[0], depth), Written(n, ps[1..], depth), Written(n, qs, depth));
    }
  }

  lemma {:induction false} JoinedAppend(ps: seq<Piece>, qs: seq<Piece>)
    ensures Joined(ps + qs) == Joined(ps) + Joined(qs)
    decreases |ps|
  {
    if ps == [] {
      assert ps + qs == qs;
    } else {
      assert (ps + qs)[1..] == ps[1..] + qs;
      JoinedAppend(ps[1..], qs);
      Reassociate(PieceText(ps[0]), Joined(ps[1..]), Joined(qs));
    }
  }

  lemma SliceSplit(s: string, i: nat, j: nat)
    requires i <= j <= |s|
    ensures s[i..] == s[i..j] + s[j..] && (j == i + 1 ==> s[i..] == [s[i]] + s[j..])
  {
  }

  /** Nothing of the text is lost. */
  lemma {:induction false} TakenJoined(s: string, i: nat)
    requires i <= |s|
    ensures Joined(Taken(s, i)) == s[i..]
    decreases |s| - i, 1
  {
    if i < |s| && s[i] == '"' {
      var j := StringEnd(s, i);
      TakenOneJoined(s, j);
      JoinedCons(Literal(s[i..j]), TakenOne(s, j));
      SliceSplit(s, i, j);
    } else {
      TakenOneJoined(s, i);
    }
  }

  lemma {:induction false} TakenOneJoined(s: string, i: nat)
    requires i <= |s|
    ensures Joined(TakenOne(s, i)) == s[i..]
    decreases |s| - i, 0
  {
    if i < |s| {
      if NameChar(s[i]) {
        var j := RunEnd(s, i, NameChar);
        TakenJoined(s, j);
        JoinedCons(Word(s[i..j]), Taken(s, j));
        SliceSplit(s, i, j);
      } else {
        TakenJoined(s, i + 1);
        JoinedCons(Mark(s[i]), Taken(s, i + 1));
        SliceSplit(s, i, i + 1);
      }
    }
  }

  // ---------- texts one after the other ----------

  /** The text t stands at the end of u, from place d on. */
  ghost predicate Ends(u: string, d: nat, t: string) {
    |u| == d + |t| && forall k :: 0 <= k < |t| ==> t[k] == u[d + k]
  }

  lemma {:induction false} RunShift(u: string, d: nat, t: string, k: nat, p: char -> bool)
    requires Ends(u, d, t) && k <= |t|
    ensures RunEnd(u, d + k, p) == d + RunEnd(t, k, p)
    decreases |t| - k
  {
    if k < |t| {
      assert t[k] == u[d + k];
      RunShift(u, d, t, k + 1, p);
    }
  }

  lemma {:induction false} StringShift(u: string, d: nat, t: string, k: nat)
    requires Ends(u, d, t) && k <= |t|
    ensures StringFrom(u, d + k) == d + StringFrom(t, k)
    decreases |t| - k
  {
    if k < |t| {
      assert t[k] == u[d + k];
      if t[k] != '\\' {
        StringShift(u, d, t, k + 1);
      } else if k + 1 < |t| {
        StringShift(u, d, t, k + 2);
      }
    }
  }

  lemma SliceShift(u: string, d: nat, t: string, k: nat, j: nat)
    requires Ends(u, d, t) && k <= j <= |t|
    ensures u[d + k..d + j] == t[k..j]
  {
  }

  lemma LiteralStep(u: string, i: nat, j: nat, t: string, k: nat, l: nat)
    requires i < j <= |u| && k < l <= |t| && u[i] == '"' && t[k] == '"' && u[i..j] == t[k..l]
    requires j == StringEnd(u, i) && l == StringEnd(t, k) && TakenOne(u, j) == TakenOne(t, l)
    ensures Taken(u, i) == Taken(t, k)
  {
  }

  lemma WordStep(u: string, i: nat, j: nat, t: string, k: nat, l: nat)
    requires i < j <= |u| && k < l <= |t| && NameChar(u[i]) && NameChar(t[k]) && u[i..j] == t[k..l]
    requires j == RunEnd(u, i, NameChar) && l == RunEnd(t, k, NameChar) && Taken(u, j) == Taken(t, l)
    ensures TakenOne(u, i) == TakenOne(t, k)
  {
  }

  lemma MarkStep(u: string, i: nat, t: string, k: nat)
    requires i < |u| && k < |t| && u[i] == t[k] && !NameChar(t[k]) && Taken(u, i + 1) == Taken(t, k + 1)
    ensures TakenOne(u, i) == TakenOne(t, k)
  {
  }

  lemma EndsAt(u: string, d: nat, t: string, k: nat)
    requires Ends(u, d, t) && k <= |t|
    ensures if k < |t| then d + k < |u| && u[d + k] == t[k] else d + k == |u|
  {
  }

  lemma {:induction false} TakenMoved(u: string, d: nat, t: string, k: nat)
    requires Ends(u, d, t) && k <= |t|
    ensures Taken(u, d + k) == Taken(t, k)
    decreases |t| - k, 1
  {
    EndsAt(u, d, t, k);
    if k < |t| && t[k] == '"' {
      var j := StringEnd(t, k);
      StringShift(u, d, t, k + 1);
      SliceShift(u, d, t, k, j);
      TakenOneMoved(u, d, t, j);
      LiteralStep(u, d + k, d + j, t, k, j);
    } else {
      TakenOneMoved(u, d, t, k);
    }
  }

  lemma {:induction false} TakenOneMoved(u: string, d: nat, t: string, k: nat)
    requires Ends(u, d, t) && k <= |t|
    ensures TakenOne(u, d + k) == TakenOne(t, k)
    decreases |t| - k, 0
  {
    EndsAt(u, d, t, k);
    if k < |t| {
      if NameChar(t[k]) {
        var j := RunEnd(t, k, NameChar);
        RunShift(u, d, t, k, NameChar);
        SliceShift(u, d, t, k, j);
        TakenMoved(u, d, t, j);
        WordStep(u, d + k, d + j, t, k, j);
      } else {
        TakenMoved(u, d, t, k + 1);
        MarkStep(u, d + k, t, k);
      }
    }
  }

  lemma TakenShift(s: string, t: string)
    ensures Taken(s + t, |s|) == Taken(t, 0) && TakenOne(s + t, |s|) == TakenOne(t, 0)
  {
    TakenMoved(s + t, |s|, t, 0);
    TakenOneMoved(s + t, |s|, t, 0);
  }

  lemma {:induction false} RunPrefix(s: string, t: string, i: nat, p: char -> bool)
    requires i <= |s| && (RunEnd(s, i, p) < |s| || t == "" || !p(t[0]))
    ensures RunEnd(s + t, i, p) == RunEnd(s, i, p)
    decreases |s| - i
  {
    if i < |s| {
      assert (s + t)[i] == s[i];
      if p(s[i]) { RunPrefix(s, t, i + 1, p); }
    } else {
      assert t != "" ==> (s + t)[|s|] == t[0];
    }
  }

  predicate QuoteFree(s: string) {
    forall i :: 0 <= i < |s| ==> s[i] != '"'
  }

  /** No name runs from one text into the other. */
  predicate Apart(s: string, t: string) {
    s == "" || t == "" || !NameChar(s[|s| - 1]) || !NameChar(t[0])
  }

  lemma {:induction false} TakenAppend(s: string, t: string, i: nat)
    requires i <= |s| && QuoteFree(s) && Apart(s, t)
    ensures Taken(s + t, i) == Taken(s, i) + Taken(t, 0)
    decreases |s| - i
  {
    if i == |s| {
      TakenShift(s, t);
      assert Taken(s, i) == [];
    } else {
      assert (s + t)[i] == s[i];
      var j := if NameChar(s[i]) then RunEnd(s, i, NameChar) else i + 1;
      TakenAppend(s, t, j);
      FirstTaken(s, t, i, j);
    }
  }

  lemma FirstTaken(s: string, t: string, i: nat, j: nat)
    requires i < |s| && s[i] != '"' && Apart(s, t) && j == if NameChar(s[i]) then RunEnd(s, i, NameChar) else i + 1
    requires Taken(s + t, j) == Taken(s, j) + Taken(t, 0)
    ensures Taken(s + t, i) == Taken(s, i) + Taken(t, 0)
  {
    var p := if NameChar(s[i]) then Word(s[i..j]) else Mark(s[i]);
    assert (s + t)[i] == s[i];
    if NameChar(s[i]) {
      RunPrefix(s, t, i, NameChar);
      assert (s + t)[i..j] == s[i..j];
    }
    assert Taken(s + t, i) == [p] + Taken(s + t, j);
    Reassociate([p], Taken(s, j), Taken(t, 0));
  }

  /** Texts that no name joins are expanded one after the other. */
  lemma ExpandAppend(n: Names, s: string, t: string)
    requires QuoteFree(s) && Apart(s, t)
    ensures ExpandExpr(n, s + t) == ExpandExpr(n, s) + ExpandExpr(n, t)
  {
    TakenAppend(s, t, 0);
    ExpandIsWritten(n, s + t, 0, 0);
    ExpandIsWritten(n, s, 0, 0);
    ExpandIsWritten(n, t, 0, 0);
    WrittenAppend(n, Taken(s, 0), Taken(t, 0), 0);
  }

  // ---------- settled texts ----------

  ghost predicate AllUnknown(n: Names, ps: seq<Piece>) {
    forall k :: 0 <= k < |ps| && ps[k].Word? ==> n.Unknown(ps[k].name)
  }

  /** No name in the text is defined or known. */
  ghost predicate Settled(n: Names, s: string) {
    AllUnknown(n, Taken(s, 0))
  }

  lemma {:induction false} UnknownStay(n: Names, ps: seq<Piece>, depth: nat)
    requires AllUnknown(n, ps) && depth <= RECURSION_LIMIT
    ensures Written(n, ps, depth) == Joined(ps)
    decreases |ps|
  {
    if ps != [] { UnknownStay(n, ps[1..], depth); }
  }

  /** A settled text is expanded to itself. */
  lemma SettledStays(n: Names, s: string)
    requires Settled(n, s)
    ensures ExpandExpr(n, s) == s
  {
    ExpandIsWritten(n, s, 0, 0);
    UnknownStay(n, Taken(s, 0), 0);
    TakenJoined(s, 0);
    assert s[0..] == s;
  }

  lemma WordTaken(name: string)
    requires name != "" && forall k :: 0 <= k < |name| ==> NameChar(name[k])
    ensures Taken(name, 0) == [Word(name)]
  {
    RunIs(name, 0, |name|, NameChar);
    assert name[0..|name|] == name && Taken(name, |name|) == [];
  }

  /** The printed values of the labels are themselves no names. */
  ghost predicate PlainLabels(n: Names) {
    forall name :: n.Labelled(name) ==> Settled(n, PrintedLabel(n.ValueOf(name)))
  }

  /** Names start with a letter or an underscore. */
  ghost predicate Lettered(n: Names) {
    forall name :: n.Unknown(name) || (name != "" && (Alpha(name[0]) || name[0] == '_'))
  }

  /** A name that starts with a digit is never found. */
  lemma PlainNumber(n: Names, digits: string)
    requires Lettered(n) && digits != "" && forall k :: 0 <= k < |digits| ==> Digit(digits[k])
    ensures Settled(n, digits) && Settled(n, "-" + digits)
  {
    WordTaken(digits);
    assert n.Unknown(digits);
    TakenShift("-", digits);
    assert ("-" + digits)[0] == '-';
    assert Taken("-" + digits, 0) == [Mark('-'), Word(digits)];
  }

  lemma {:induction false} DecimalDigits(k: nat)
    ensures forall i :: 0 <= i < |DecimalNumber(k)| ==> Digit(DecimalNumber(k)[i])
  {
    if k >= 10 { DecimalDigits(k / 10); }
  }

  lemma PrintedSettles(n: Names, v: int)
    requires Lettered(n)
    ensures Settled(n, PrintedLabel(v))
  {
    var digits := DecimalNumber(if v < 0 then -v else v);
    var t := PrintedLabel(v);
    DecimalDigits(if v < 0 then -v else v);
    var shown := if v < 0 then t[1..] else t;
    assert |t| > 0 && forall i :: 0 <= i < |t| ==> t[i] == PrintedDecimal(v)[i];
    if v < 0 {
      assert t == "-" + shown && shown != "";
      assert forall i :: 0 <= i < |shown| ==> shown[i] == digits[i];
    }
    PlainNumber(n, shown);
  }

  lemma LetteredPlain(n: Names)
    requires Lettered(n)
    ensures PlainLabels(n)
  {
    forall name | n.Labelled(name) ensures Settled(n, PrintedLabel(n.ValueOf(name))) {
      PrintedSettles(n, n.ValueOf(name));
    }
  }

  // ---------- the pieces the expansion writes ----------

  /** The pieces written for the given ones, with the pieces of all contents in their places. */
  function Flat(n: Names, ps: seq<Piece>, depth: nat): seq<Piece>
    requires depth <= RECURSION_LIMIT
    decreases RECURSION_LIMIT - depth, |ps|
  {
    if ps == [] then [] else FlatOne(n, ps[0], depth) + Flat(n, ps[1..], depth)
  }

  function FlatOne(n: Names, p: Piece, depth: nat): seq<Piece>
    requires depth <= RECURSION_LIMIT
    decreases RECURSION_LIMIT - depth, 0
  {
    if p.Word? && n.Defined(p.name) then
      if depth == RECURSION_LIMIT then [] else Flat(n, Taken(n.Contents(p.name), 0), depth + 1)
    else if p.Word? && n.Labelled(p.name) then Taken(PrintedLabel(n.ValueOf(p.name)), 0)
    else [p]
  }

  function FlatText(n: Names, s: string): seq<Piece> {
    Flat(n, Taken(s, 0), 0)
  }

  lemma {:induction false} FlatIsWritten(n: Names, ps: seq<Piece>, depth: nat)
    requires depth <= RECURSION_LIMIT
    ensures Joined(Flat(n, ps, depth)) == Written(n, ps, depth)
    decreases RECURSION_LIMIT - depth, |ps|
  {
    if ps != [] {
      FlatOneIsWritten(n, ps[0], depth);
      FlatIsWritten(n, ps[1..], depth);
      JoinedAppend(FlatOne(n, ps[0], depth), Flat(n, ps[1..], depth));
    }
  }

  lemma {:induction false} FlatOneIsWritten(n: Names, p: Piece, depth: nat)
    requires depth <= RECURSION_LIMIT
    ensures Joined(FlatOne(n, p, depth)) == WrittenOne(n, p, depth)
    decreases RECURSION_LIMIT - depth, 0
  {
    if p.Word? && n.Defined(p.name) {
      if depth < RECURSION_LIMIT {
        var contents := n.Contents(p.name);
        FlatIsWritten(n, Taken(contents, 0), depth + 1);
        ExpandIsWritten(n, contents, 0, depth + 1);
      }
    } else if p.Word? && n.Labelled(p.name) {
      var t := PrintedLabel(n.ValueOf(p.name));
      TakenJoined(t, 0);
      assert t[0..] == t;
    } else {
      JoinedCons(p, []);
      assert [p] + [] == [p];
    }
  }

  /** Everything that is written is settled, however the defines refer to each other. */
  lemma {:induction false} FlatSettles(n: Names, ps: seq<Piece>, depth: nat)
    requires depth <= RECURSION_LIMIT && PlainLabels(n)
    ensures AllUnknown(n, Flat(n, ps, depth))
    decreases RECURSION_LIMIT - depth, |ps|
  {
    if ps != [] {
      var p := ps[0];
      FlatSettles(n, ps[1..], depth);
      if p.Word? && n.Defined(p.name) && depth < RECURSION_LIMIT {
        FlatSettles(n, Taken(n.Contents(p.name), 0), depth + 1);
      }
      if p.Word? && n.Labelled(p.name) {
        assert Settled(n, PrintedLabel(n.ValueOf(p.name)));
      }
      assert AllUnknown(n, FlatOne(n, p, depth));
    }
  }

  // ---------- which pieces are taken again as they were written ----------

  /** From i on, a literal that ends with its own quote. */
  predicate ClosedFrom(t: string, i: nat)
    decreases |t| - i
  {
    if i >= |t| then false
    else if t[i] == '"' then i + 1 == |t|
    else if t[i] == '\\' then i + 1 < |t| && ClosedFrom(t, i + 2)
    else ClosedFrom(t, i + 1)
  }

  predicate PieceOk(p: Piece) {
    match p
    case Literal(t) => t != "" && t[0] == '"' && StringEnd(t, 0) == |t|
    case Word(name) => name != "" && forall k :: 0 <= k < |name| ==> NameChar(name[k])
    case Mark(c) => !NameChar(c)
  }

  /** Pieces that can come from a text: in particular no two names touch. */
  predicate Spelled(before: Piece, ps: seq<Piece>)
    decreases |ps|
  {
    ps == [] || (PieceOk(ps[0]) && !(before.Word? && ps[0].Word?) && Spelled(ps[0], ps[1..]))
  }

  /** A literal that something follows is closed, and a quote follows it only as a single character. */
  predicate Unglued(before: Piece, ps: seq<Piece>)
    decreases |ps|
  {
    ps == [] || (GoodPair(before, ps[0]) && Unglued(ps[0], ps[1..]))
  }

  predicate GoodPair(p: Piece, q: Piece) {
    (p.Literal? ==> ClosedFrom(p.text, 1) && !q.Literal?) && (q == Mark('"') ==> p.Literal?)
  }

  /** In front of a text. */
  const NOTHING := Mark(' ')

  lemma {:induction false} StringCloses(s: string, i: nat, k: nat)
    requires i <= k <= |s| && StringFrom(s, k) < |s|
    ensures ClosedFrom(s[i..StringFrom(s, k)], k - i)
    decreases |s| - k
  {
    var j := StringFrom(s, k);
    var t := s[i..j];
    assert t[k - i] == s[k];
    if s[k] == '\\' {
      StringCloses(s, i, k + 2);
    } else if s[k] != '"' {
      StringCloses(s, i, k + 1);
    }
  }

  lemma {:induction false} StringWhole(s: string, i: nat, k: nat)
    requires i <= k <= |s|
    ensures StringFrom(s[i..StringFrom(s, k)], k - i) == StringFrom(s, k) - i
    decreases |s| - k
  {
    var j := StringFrom(s, k);
    var t := s[i..j];
    if k < |s| {
      assert t[k - i] == s[k];
      if s[k] == '\\' {
        if k + 1 < |s| { StringWhole(s, i, k + 2); }
      } else if s[k] != '"' {
        StringWhole(s, i, k + 1);
      }
    }
  }

  lemma {:induction false} ClosedEnds(t: string, more: string, i: nat)
    requires i <= |t| && ClosedFrom(t, i)
    ensures StringFrom(t + more, i) == |t|
    decreases |t| - i
  {
    assert (t + more)[i] == t[i];
    if t[i] == '\\' {
      ClosedEnds(t, more, i + 2);
    } else if t[i] != '"' {
      ClosedEnds(t, more, i + 1);
    }
  }

  lemma {:induction false} TakenFits(before: Piece, s: string, i: nat)
    requires i <= |s| && !before.Literal? && (before.Word? && i < |s| ==> !NameChar(s[i]))
    ensures Spelled(before, Taken(s, i)) && Unglued(before, Taken(s, i))
    decreases |s| - i, 1
  {
    if i < |s| && s[i] == '"' {
      var j := StringEnd(s, i);
      var l := Literal(s[i..j]);
      StringWhole(s, i, i + 1);
      if j < |s| { StringCloses(s, i, i + 1); }
      TakenOneFits(l, s, j);
      assert Taken(s, i)[1..] == TakenOne(s, j);
    } else {
      TakenOneFits(before, s, i);
    }
  }

  lemma {:induction false} TakenOneFits(before: Piece, s: string, i: nat)
    requires i <= |s| && (before.Word? && i < |s| ==> !NameChar(s[i]))
    requires i < |s| && before.Literal? ==> ClosedFrom(before.text, 1)
    requires i < |s| && s[i] == '"' ==> before.Literal?
    ensures Spelled(before, TakenOne(s, i)) && Unglued(before, TakenOne(s, i))
    decreases |s| - i, 0
  {
    if i < |s| {
      if NameChar(s[i]) {
        var j := RunEnd(s, i, NameChar);
        TakenFits(Word(s[i..j]), s, j);
        assert TakenOne(s, i)[1..] == Taken(s, j);
      } else {
        TakenFits(Mark(s[i]), s, i + 1);
        assert TakenOne(s, i)[1..] == Taken(s, i + 1);
      }
    }
  }

  /** Such pieces are read back from their text. */
  lemma {:induction false} TakenBack(before: Piece, ps: seq<Piece>)
    requires Spelled(before, ps) && Unglued(before, ps)
    ensures before.Literal? ==> TakenOne(Joined(ps), 0) == ps
    ensures !before.Literal? ==> Taken(Joined(ps), 0) == ps
    decreases |ps|
  {
    if ps != [] {
      var p, rest := ps[0], Joined(ps[1..]);
      TakenBack(p, ps[1..]);
      RestStarts(p, ps[1..]);
      match p {
        case Literal(t) => LiteralBack(t, rest);
        case Word(name) => WordBack(name, rest);
        case Mark(c) => TakenShift([c], rest);
      }
      assert ps == [p] + ps[1..];
    }
  }

  lemma RestStarts(p: Piece, ps: seq<Piece>)
    requires Spelled(p, ps) && Unglued(p, ps)
    ensures p.Literal? && Joined(ps) != "" ==> ClosedFrom(p.text, 1)
    ensures p.Word? && Joined(ps) != "" ==> !NameChar(Joined(ps)[0])
  {
    if ps != [] {
      assert PieceOk(ps[0]);
      assert Joined(ps)[0] == PieceText(ps[0])[0];
    }
  }

  lemma LiteralBack(t: string, rest: string)
    requires PieceOk(Literal(t)) && (rest != "" ==> ClosedFrom(t, 1))
    ensures Taken(t + rest, 0) == [Literal(t)] + TakenOne(rest, 0)
  {
    if rest == "" {
      assert t + rest == t;
    } else {
      ClosedEnds(t, rest, 1);
    }
    assert (t + rest)[0] == t[0] && (t + rest)[0..|t|] == t;
    TakenShift(t, rest);
  }

  lemma WordBack(name: string, rest: string)
    requires PieceOk(Word(name)) && (rest != "" ==> !NameChar(rest[0]))
    ensures TakenOne(name + rest, 0) == [Word(name)] + Taken(rest, 0) == Taken(name + rest, 0)
  {
    var t := name + rest;
    assert forall k :: 0 <= k < |name| ==> t[k] == name[k];
    RunIs(t, 0, |name|, NameChar);
    assert t[0..|name|] == name;
    TakenShift(name, rest);
  }

  lemma {:induction false} SpelledAppend(before: Piece, ps: seq<Piece>, qs: seq<Piece>)
    requires Spelled(before, ps) && (qs != [] ==> !qs[0].Word? && PieceOk(qs[0]) && Spelled(qs[0], qs[1..]))
    ensures Spelled(before, ps + qs)
    decreases |ps|
  {
    if ps == [] {
      assert ps + qs == qs;
    } else {
      assert (ps + qs)[1..] == ps[1..] + qs;
      SpelledAppend(ps[0], ps[1..], qs);
    }
  }

  lemma {:induction false} TakenSpelled(before: Piece, s: string)
    requires !before.Word?
    ensures Spelled(before, Taken(s, 0))
  {
    TakenFits(NOTHING, s, 0);
  }

  lemma {:induction false} FlatSpelled(n: Names, before: Piece, ps: seq<Piece>, depth: nat)
    requires depth <= RECURSION_LIMIT && Spelled(before, ps)
    ensures Spelled(before, Flat(n, ps, depth))
    decreases RECURSION_LIMIT - depth, |ps|
  {
    if ps != [] {
      var p := ps[0];
      FlatSpelled(n, p, ps[1..], depth);
      if p.Word? {
        FlatOneSpelled(n, before, p, depth);
        SpelledAppend(before, FlatOne(n, p, depth), Flat(n, ps[1..], depth));
      } else {
        assert Flat(n, ps, depth) == [p] + Flat(n, ps[1..], depth);
        assert Flat(n, ps, depth)[1..] == Flat(n, ps[1..], depth);
      }
    }
  }

  lemma {:induction false} FlatOneSpelled(n: Names, before: Piece, p: Piece, depth: nat)
    requires depth <= RECURSION_LIMIT && p.Word? && PieceOk(p) && !before.Word?
    ensures Spelled(before, FlatOne(n, p, depth))
    decreases RECURSION_LIMIT - depth, 0
  {
    if n.Defined(p.name) {
      if depth < RECURSION_LIMIT {
        TakenSpelled(before, n.Contents(p.name));
        FlatSpelled(n, before, Taken(n.Contents(p.name), 0), depth + 1);
      }
    } else if n.Labelled(p.name) {
      TakenSpelled(before, PrintedLabel(n.ValueOf(p.name)));
    }
  }

  lemma ExpandIsFlat(n: Names, s: string)
    ensures ExpandExpr(n, s) == Joined(FlatText(n, s))
  {
    ExpandIsWritten(n, s, 0, 0);
    FlatIsWritten(n, Taken(s, 0), 0);
  }

  /** The pieces written are the pieces taken from the expanded text exactly when the literals among
      them are closed and apart. */
  lemma TakenAgain(n: Names, s: string)
    ensures Taken(ExpandExpr(n, s), 0) == FlatText(n, s) <==> Unglued(NOTHING, FlatText(n, s))
  {
    var t := ExpandExpr(n, s);
    ExpandIsFlat(n, s);
    TakenFits(NOTHING, s, 0);
    TakenFits(NOTHING, t, 0);
    FlatSpelled(n, NOTHING, Taken(s, 0), 0);
    if Unglued(NOTHING, FlatText(n, s)) {
      TakenBack(NOTHING, FlatText(n, s));
    }
  }

  /** Then nothing is left to expand, however the defines refer to each other. */
  lemma ExpandSettles(n: Names, s: string)
    requires PlainLabels(n) && Unglued(NOTHING, FlatText(n, s))
    ensures Settled(n, ExpandExpr(n, s))
  {
    TakenAgain(n, s);
    FlatSettles(n, Taken(s, 0), 0);
  }

  ghost predicate QuoteFreeNames(n: Names) {
    forall d :: d in n.defines ==> QuoteFree(n.defines[d])
  }

  /** Behind each literal there is a character that is neither a quote nor part of a name. */
  predicate Followed(ps: seq<Piece>) {
    forall k :: 0 <= k < |ps| ==> ps[k] != Mark('"') && (ps[k].Literal? && k + 1 < |ps| ==> ps[k + 1].Mark?)
  }

  lemma {:induction false} NoQuotes(s: string, i: nat)
    requires i <= |s| && QuoteFree(s)
    ensures forall k :: 0 <= k < |Taken(s, i)| ==> !Taken(s, i)[k].Literal? && Taken(s, i)[k] != Mark('"')
    decreases |s| - i
  {
    if i < |s| {
      if NameChar(s[i]) {
        NoQuotes(s, RunEnd(s, i, NameChar));
        assert Taken(s, i) == [Word(s[i..RunEnd(s, i, NameChar)])] + Taken(s, RunEnd(s, i, NameChar));
      } else {
        NoQuotes(s, i + 1);
        assert Taken(s, i) == [Mark(s[i])] + Taken(s, i + 1);
      }
    }
  }

  ghost predicate Loose(ps: seq<Piece>) {
    forall k :: 0 <= k < |ps| ==> !ps[k].Literal? && ps[k] != Mark('"')
  }

  lemma PrintedQuoteFree(v: int)
    ensures QuoteFree(PrintedLabel(v))
  {
    DecimalDigits(if v < 0 then -v else v);
    assert forall i :: 0 <= i < |PrintedLabel(v)| ==> PrintedLabel(v)[i] == PrintedDecimal(v)[i];
  }

  lemma {:induction false} FlatLoose(n: Names, ps: seq<Piece>, depth: nat)
    requires depth <= RECURSION_LIMIT && QuoteFreeNames(n) && Loose(ps)
    ensures Loose(Flat(n, ps, depth))
    decreases RECURSION_LIMIT - depth, |ps|
  {
    if ps != [] {
      FlatLoose(n, ps[1..], depth);
      FlatOneLoose(n, ps[0], depth);
    }
  }

  lemma {:induction false} FlatOneLoose(n: Names, p: Piece, depth: nat)
    requires depth <= RECURSION_LIMIT && QuoteFreeNames(n) && !p.Literal? && p != Mark('"')
    ensures Loose(FlatOne(n, p, depth))
    decreases RECURSION_LIMIT - depth, 0
  {
    if p.Word? && n.Defined(p.name) {
      if depth < RECURSION_LIMIT {
        NoQuotes(n.Contents(p.name), 0);
        FlatLoose(n, Taken(n.Contents(p.name), 0), depth + 1);
      }
    } else if p.Word? && n.Labelled(p.name) {
      PrintedQuoteFree(n.ValueOf(p.name));
      NoQuotes(PrintedLabel(n.ValueOf(p.name)), 0);
    }
  }

  lemma {:induction false} LooseAppend(before: Piece, ps: seq<Piece>, p: Piece, qs: seq<Piece>)
    requires !before.Literal? && Loose(ps) && !p.Literal? && Unglued(p, qs)
    ensures Unglued(before, ps + qs)
    decreases |ps|
  {
    if ps == [] {
      assert ps + qs == qs;
    } else {
      assert (ps + qs)[1..] == ps[1..] + qs;
      LooseAppend(ps[0], ps[1..], p, qs);
    }
  }

  lemma {:induction false} FlatFollowed(n: Names, before: Piece, ps: seq<Piece>, depth: nat)
    requires depth <= RECURSION_LIMIT && QuoteFreeNames(n) && Followed(ps) && Unglued(before, ps)
    requires before.Literal? && ps != [] ==> ps[0].Mark?
    ensures Unglued(before, Flat(n, ps, depth))
    decreases |ps|
  {
    if ps != [] {
      var p := ps[0];
      assert p.Literal? && |ps| > 1 ==> ps[1].Mark?;
      FlatFollowed(n, p, ps[1..], depth);
      if p.Word? {
        FlatOneLoose(n, p, depth);
        LooseAppend(before, FlatOne(n, p, depth), p, Flat(n, ps[1..], depth));
      } else {
        assert Flat(n, ps, depth) == [p] + Flat(n, ps[1..], depth);
        assert Flat(n, ps, depth)[1..] == Flat(n, ps[1..], depth);
      }
    }
  }

  /** Where defines hold no quotes and each literal is followed by such a character, the condition holds. */
  lemma FollowedUnglued(n: Names, s: string)
    requires QuoteFreeNames(n) && Followed(Taken(s, 0))
    ensures Unglued(NOTHING, FlatText(n, s))
  {
    TakenFits(NOTHING, s, 0);
    FlatFollowed(n, NOTHING, Taken(s, 0), 0);
  }

  lemma {:induction false} FirstKnown(n: Names, ps: seq<Piece>) returns (k: nat)
    requires !AllUnknown(n, ps)
    ensures k < |ps| && ps[k].Word? && !n.Unknown(ps[k].name) && AllUnknown(n, ps[..k])
    decreases |ps|
  {
    if ps[0].Word? && !n.Unknown(ps[0].name) {
      k := 0;
    } else {
      var j := FirstKnown(n, ps[1..]);
      k := j + 1;
      assert ps[..k] == [ps[0]] + ps[1..][..j];
    }
  }

  lemma Cancel(a: string, x: string, y: string)
    ensures a + x == a + y <==> x == y
  {
    assert (a + x)[|a|..] == x && (a + y)[|a|..] == y;
  }

  lemma WordStarts(before: Piece, ps: seq<Piece>)
    requires before.Word? && Spelled(before, ps)
    ensures Joined(ps) != "" ==> !NameChar(Joined(ps)[0])
  {
    if ps != [] {
      assert PieceOk(ps[0]);
      assert Joined(ps)[0] == PieceText(ps[0])[0];
    }
  }

  lemma WrittenStarts(n: Names, before: Piece, ps: seq<Piece>)
    requires before.Word? && Spelled(before, ps)
    ensures Written(n, ps, 0) != "" ==> !NameChar(Written(n, ps, 0)[0])
  {
    if ps != [] {
      assert PieceOk(ps[0]);
      assert Written(n, ps, 0)[0] == PieceText(ps[0])[0];
    }
  }

  lemma LeadingRun(name: string, rest: string)
    requires PieceOk(Word(name)) && (rest != "" ==> !NameChar(rest[0]))
    ensures RunEnd(name + rest, 0, NameChar) == |name| && (name + rest)[..|name|] == name
  {
    var t := name + rest;
    assert forall k :: 0 <= k < |name| ==> t[k] == name[k];
    RunIs(t, 0, |name|, NameChar);
  }

  /** What is written for a known name does not start with the name. */
  lemma KnownChanges(n: Names, name: string, ps: seq<Piece>)
    requires PlainLabels(n) && !n.Unknown(name) && PieceOk(Word(name)) && Spelled(Word(name), ps)
    ensures Replacement(n, name, 0) + Written(n, ps, 0) != name + Joined(ps)
  {
    var qs, more := FlatOne(n, Word(name), 0), Written(n, ps, 0);
    FlatOneIsWritten(n, Word(name), 0);
    FlatOneSpelled(n, NOTHING, Word(name), 0);
    FlatSettles(n, [Word(name)], 0);
    assert Flat(n, [Word(name)], 0) == qs + [] == qs;
    WordStarts(Word(name), ps);
    WrittenStarts(n, Word(name), ps);
    LeadingRun(name, Joined(ps));
    assert (name + Joined(ps))[0] == name[0];
    if qs == [] {
      assert Joined(qs) + more == more;
    } else {
      PiecesChange(n, name, qs, more, Joined(ps));
    }
  }

  lemma PiecesChange(n: Names, name: string, qs: seq<Piece>, more: string, rest: string)
    requires qs != [] && Spelled(NOTHING, qs) && AllUnknown(n, qs) && !n.Unknown(name) && PieceOk(Word(name))
    requires (more != "" ==> !NameChar(more[0])) && RunEnd(name + rest, 0, NameChar) == |name|
    ensures Joined(qs) + more != name + rest
  {
    var p, last := qs[0], Joined(qs[1..]);
    assert PieceOk(p);
    Reassociate(PieceText(p), last, more);
    assert (Joined(qs) + more)[0] == PieceText(p)[0];
    if p.Word? {
      WordStarts(p, qs[1..]);
      LeadingRun(p.name, last + more);
      assert (name + rest)[..|name|] == name;
    } else {
      assert (name + rest)[0] == name[0];
    }
  }

  /** A text is expanded to itself exactly when no name in it is defined or known. */
  lemma ExpandFixes(n: Names, s: string)
    requires PlainLabels(n)
    ensures ExpandExpr(n, s) == s <==> Settled(n, s)
  {
    if Settled(n, s) {
      SettledStays(n, s);
    } else {
      var k := FirstKnown(n, Taken(s, 0));
      var ps := Taken(s, 0);
      TakenFits(NOTHING, s, 0);
      SpelledFrom(NOTHING, ps, k);
      assert ps == ps[..k] + ([ps[k]] + ps[k + 1..]);
      KnownSplits(n, s, ps[..k], ps[k], ps[k + 1..]);
    }
  }

  lemma KnownSplits(n: Names, s: string, before: seq<Piece>, p: Piece, rest: seq<Piece>)
    requires PlainLabels(n) && Taken(s, 0) == before + ([p] + rest) && AllUnknown(n, before)
    requires p.Word? && !n.Unknown(p.name) && PieceOk(p) && Spelled(p, rest)
    ensures ExpandExpr(n, s) != s
  {
    TakenJoined(s, 0);
    assert s[0..] == s;
    ExpandIsWritten(n, s, 0, 0);
    WrittenAppend(n, before, [p] + rest, 0);
    WrittenCons(n, p, rest, 0);
    JoinedAppend(before, [p] + rest);
    JoinedCons(p, rest);
    UnknownStay(n, before, 0);
    KnownChanges(n, p.name, rest);
    Cancel(Joined(before), Replacement(n, p.name, 0) + Written(n, rest, 0), p.name + Joined(rest));
  }

  lemma {:induction false} SpelledFrom(before: Piece, ps: seq<Piece>, k: nat)
    requires Spelled(before, ps) && k < |ps|
    ensures PieceOk(ps[k]) && Spelled(ps[k], ps[k + 1..])
    decreases |ps|
  {
    if k > 0 {
      SpelledFrom(ps[0], ps[1..], k - 1);
      assert ps[1..][k..] == ps[k + 1..];
    }
  }

  /** Expanding twice is expanding once exactly when the expanded text is settled, as it is when the
      literals written are closed and apart, for all defines, cyclic ones included. */
  lemma ExpandTwice(n: Names, s: string)
    requires PlainLabels(n)
    ensures ExpandExpr(n, ExpandExpr(n, s)) == ExpandExpr(n, s) <==> Settled(n, ExpandExpr(n, s))
    ensures Unglued(NOTHING, FlatText(n, s)) ==> ExpandExpr(n, ExpandExpr(n, s)) == ExpandExpr(n, s)
  {
    ExpandFixes(n, ExpandExpr(n, s));
    if Unglued(NOTHING, FlatText(n, s)) { ExpandSettles(n, s); }
  }

  /** A define that is a literal, behind a literal: the second expansion goes on where the first stopped. */
  lemma TwiceDiffers(fold: string -> string)
    requires fold("D") == "D" && fold("y") == "y"
    ensures var n := Names(map["D" := "\"y\""], map["y" := 5], fold);
      ExpandExpr(n, "\"x\"D") == "\"x\"\"y\"" && ExpandExpr(n, "\"x\"\"y\"") == "\"x\"\"5\""
  {
    var n, s, u := Names(map["D" := "\"y\""], map["y" := 5], fold), "\"x\"D", "\"x\"\"y\"";
    var d := "\"y\"";
    assert StringFrom(s, 2) == 3 && StringEnd(s, 0) == 3 && s[0..3] == "\"x\"";
    RunIs(s, 3, 1, NameChar);
    assert s[3..4] == "D" && n.Defined("D");
    assert StringFrom(d, 2) == 3 && StringEnd(d, 0) == 3 && d[0..3] == d;
    assert Expand(n, d, 0, 1) == d + "";
    assert Replacement(n, "D", 0) == d;
    assert ExpandOne(n, s, 3, 0) == d + "";
    SecondLiteral(n, u);
  }

  lemma SecondLiteral(n: Names, s: string)
    requires s == "\"x\"\"y\"" && n.Labelled("y") && n.ValueOf("y") == 5
    ensures ExpandExpr(n, s) == "\"x\"\"5\""
  {
    assert StringFrom(s, 2) == 3 && StringEnd(s, 0) == 3 && s[0..3] == "\"x\"";
    RunIs(s, 4, 1, NameChar);
    assert s[4..5] == "y" && s[5..6] == "\"";
    assert DecimalNumber(5) == "5";
    assert Replacement(n, "y", 0) == "5";
    assert StringFrom(s, 6) == 6;
    assert Expand(n, s, 5, 0) == "\"";
    assert Expand(n, s, 4, 0) == "5\"";
    assert ExpandOne(n, s, 3, 0) == "\"5\"";
  }

  // ---------- expanding printed trees ----------

  /** The tree with the labels known so far replaced by their values. */
  function Subst(n: Names, e: Expr): Expr {
    match e
    case Leaf(a) => if a.Label? && n.Labelled(a.name) then Number(n.ValueOf(a.name)) else e
    case Prefix(sign, operand) => Prefix(sign, Subst(n, operand))
    case Paren(lead, inner, trail) => Paren(lead, Subst(n, inner), trail)
    case Bin(left, before, op, text, after, right) => Bin(Subst(n, left), before, op, text, after, Subst(n, right))
  }

  function Number(v: int): Expr {
    if v < 0 then Prefix(Minus, Leaf(Decimal(DecimalNumber(-v)))) else Leaf(Decimal(DecimalNumber(v)))
  }

  predicate InFull(v: int) {
    -99999999 <= v <= 999999999
  }

  /** The expansion of a printed atom is known: it is a label printed in full, or nothing in it is a name. */
  ghost predicate Expandable(n: Names, a: Atom) {
    if a.Label? && n.Labelled(a.name) then InFull(n.ValueOf(a.name)) else Settled(n, Spell(a))
  }

  predicate Negative(n: Names, e: Expr) {
    e.Leaf? && e.atom.Label? && n.Labelled(e.atom.name) && n.ValueOf(e.atom.name) < 0
  }

  /** Where the run of name characters at the end of a text starts. */
  function TailStart(s: string): (i: nat)
    ensures i <= |s| && (forall k :: i <= k < |s| ==> NameChar(s[k])) && (i > 0 ==> !NameChar(s[i - 1]))
  {
    if s == "" || !NameChar(s[|s| - 1]) then |s| else TailStart(s[..|s| - 1])
  }

  function Head(s: string): string {
    s[..RunEnd(s, 0, NameChar)]
  }

  /** Nothing that is a name arises or is lost where two texts meet. */
  predicate Meets(n: Names, s: string, t: string) {
    var tail := s[TailStart(s)..];
    Apart(s, t) || (n.Unknown(tail) && n.Unknown(Head(t)) && n.Unknown(tail + Head(t)))
  }

  /** Expansion sees the atoms of the tree as the evaluator does: none runs into its neighbours, and no
      negative label stands behind a sign. */
  ghost predicate Transparent(n: Names, e: Expr) {
    match e
    case Leaf(a) => Proper(a) && QuoteFree(Spell(a)) && Expandable(n, a)
    case Prefix(_, operand) => Transparent(n, operand) && !Negative(n, operand)
    case Paren(lead, inner, trail) => Transparent(n, inner) && AllBlank(lead) && AllBlank(trail)
    case Bin(left, before, _, text, after, right) =>
      && Transparent(n, left) && Transparent(n, right) && AllBlank(before) && AllBlank(after)
      && Joint(n, Render(left), before, text)
  }

  /** The text of an operator is no name, nor is what stands directly in front of it together with it. */
  ghost predicate Joint(n: Names, left: string, before: string, text: string) {
    && text != "" && !NameChar(text[|text| - 1]) && Settled(n, text) && QuoteFree(text)
    && (before != "" || Meets(n, left, text))
  }

  predicate Wordless(ps: seq<Piece>) {
    forall k :: 0 <= k < |ps| ==> !ps[k].Word?
  }

  lemma WordlessCons(p: Piece, ps: seq<Piece>)
    requires !p.Word? && Wordless(ps)
    ensures Wordless([p] + ps)
  {
  }

  lemma {:induction false} NoWords(s: string, i: nat)
    requires i <= |s| && forall k :: 0 <= k < |s| ==> !NameChar(s[k])
    ensures Wordless(Taken(s, i))
    decreases |s| - i, 1
  {
    if i < |s| && s[i] == '"' {
      NoWordsOne(s, StringEnd(s, i));
      WordlessCons(Literal(s[i..StringEnd(s, i)]), TakenOne(s, StringEnd(s, i)));
    } else {
      NoWordsOne(s, i);
    }
  }

  lemma {:induction false} NoWordsOne(s: string, i: nat)
    requires i <= |s| && forall k :: 0 <= k < |s| ==> !NameChar(s[k])
    ensures Wordless(TakenOne(s, i))
    decreases |s| - i, 0
  {
    if i < |s| {
      NoWords(s, i + 1);
      WordlessCons(Mark(s[i]), Taken(s, i + 1));
    }
  }

  lemma NoNames(n: Names, s: string)
    requires forall k :: 0 <= k < |s| ==> !NameChar(s[k])
    ensures Settled(n, s)
  {
    NoWords(s, 0);
  }

  /** A text with no name in it stays as it is in front of another. */
  lemma ExpandBefore(n: Names, s: string, t: string)
    requires QuoteFree(s) && Settled(n, s) && Apart(s, t)
    ensures ExpandExpr(n, s + t) == s + ExpandExpr(n, t)
  {
    ExpandAppend(n, s, t);
    SettledStays(n, s);
  }

  lemma RunSettled(n: Names, name: string)
    requires n.Unknown(name) && forall k :: 0 <= k < |name| ==> NameChar(name[k])
    ensures Settled(n, name) && QuoteFree(name) && ExpandExpr(n, name) == name
  {
    if name != "" { WordTaken(name); }
    SettledStays(n, name);
  }

  /** Texts that meet in this way are expanded one after the other. */
  lemma ExpandMeets(n: Names, s: string, t: string)
    requires QuoteFree(s) && Meets(n, s, t)
    ensures ExpandExpr(n, s + t) == ExpandExpr(n, s) + ExpandExpr(n, t)
  {
    if Apart(s, t) {
      ExpandAppend(n, s, t);
    } else {
      var a, tail := s[..TailStart(s)], s[TailStart(s)..];
      var head, b := Head(t), t[|Head(t)|..];
      assert s == a + tail && t == head + b;
      Regroup(a, tail, head, b);
      AfterRuns(n, a, tail);
      BeforeRuns(n, head, b);
      BeforeRuns(n, tail + head, b);
      ExpandAppend(n, a, (tail + head) + b);
      Regroup(ExpandExpr(n, a), tail, head, ExpandExpr(n, b));
    }
  }

  lemma Regroup(a: string, b: string, c: string, d: string)
    ensures (a + b) + (c + d) == a + ((b + c) + d)
  {
  }

  lemma AfterRuns(n: Names, a: string, run: string)
    requires QuoteFree(a) && Apart(a, run) && n.Unknown(run) && forall k :: 0 <= k < |run| ==> NameChar(run[k])
    ensures ExpandExpr(n, a + run) == ExpandExpr(n, a) + run
  {
    RunSettled(n, run);
    ExpandAppend(n, a, run);
  }

  lemma BeforeRuns(n: Names, run: string, b: string)
    requires Apart(run, b) && n.Unknown(run) && forall k :: 0 <= k < |run| ==> NameChar(run[k])
    ensures ExpandExpr(n, run + b) == run + ExpandExpr(n, b)
  {
    RunSettled(n, run);
    ExpandAppend(n, run, b);
  }

  lemma {:induction false} PlainRender(n: Names, e: Expr)
    requires Transparent(n, e)
    ensures QuoteFree(Render(e))
    decreases e
  {
    match e {
      case Leaf(_) =>
      case Prefix(_, operand) => PlainRender(n, operand);
      case Paren(_, inner, _) => PlainRender(n, inner);
      case Bin(left, _, _, _, _, right) =>
        PlainRender(n, left);
        PlainRender(n, right);
    }
  }

  lemma LabelExpands(n: Names, a: Atom)
    requires a.Label? && Proper(a) && n.Labelled(a.name)
    ensures ExpandExpr(n, a.name) == PrintedLabel(n.ValueOf(a.name))
  {
    WordTaken(a.name);
    ExpandIsWritten(n, a.name, 0, 0);
    WrittenCons(n, Word(a.name), [], 0);
    assert [Word(a.name)] + [] == [Word(a.name)];
  }

  lemma NumberPrinted(v: int)
    ensures Render(Number(v)) == PrintedDecimal(v)
  {
  }

  /** The text of an atom is expanded to its substituted form exactly when it is expandable. */
  lemma AtomText(n: Names, a: Atom)
    requires Proper(a) && PlainLabels(n)
    ensures ExpandExpr(n, Spell(a)) == Render(Subst(n, Leaf(a))) <==> Expandable(n, a)
  {
    if a.Label? && n.Labelled(a.name) {
      LabelExpands(n, a);
      NumberPrinted(n.ValueOf(a.name));
      PrintedInFull(n.ValueOf(a.name));
    } else {
      ExpandFixes(n, Spell(a));
    }
  }

  lemma SettledJoin(n: Names, s: string, t: string)
    requires QuoteFree(s) && Apart(s, t) && Settled(n, s) && Settled(n, t)
    ensures Settled(n, s + t)
  {
    TakenAppend(s, t, 0);
  }

  lemma AroundLabel(n: Names, pre: string, name: string, post: string)
    requires QuoteFree(pre) && Settled(n, pre) && Settled(n, post) && Proper(Label(name)) && n.Labelled(name)
    requires Apart(pre, name + post) && Apart(name, post)
    ensures ExpandExpr(n, pre + (name + post)) == pre + (PrintedLabel(n.ValueOf(name)) + post)
  {
    LabelExpands(n, Label(name));
    SettledStays(n, post);
    ExpandAppend(n, name, post);
    ExpandBefore(n, pre, name + post);
  }

  /** A label of ten digits loses the last one. */
  lemma LabelCutOff(n: Names, a: Atom)
    requires a.Label? && Proper(a) && n.Labelled(a.name) && 1000000000 <= n.ValueOf(a.name) < 10000000000
    ensures ExpandExpr(n, a.name) == PrintedDecimal(n.ValueOf(a.name) / 10)
  {
    var v := n.ValueOf(a.name);
    LabelExpands(n, a);
    DecimalLength(v, 10);
    DecimalLength(v / 10, 9);
    DecimalLength(v / 10, 8);
    assert TenTo(8) == 100000000 && TenTo(9) == 1000000000;
    assert PrintedDecimal(v)[..9] == DecimalNumber(v / 10);
  }

  /** The digits of a $ number that are a label's name are replaced by the label's value. */
  lemma HexDigitsReplaced(n: Names, a: Atom)
    requires a.Hex? && Proper(a) && n.Labelled(a.digits)
    ensures ExpandExpr(n, Spell(a)) == "$" + PrintedLabel(n.ValueOf(a.digits))
  {
    var l := Label(a.digits);
    WordTaken(a.digits);
    NoNames(n, "$");
    ExpandBefore(n, "$", a.digits);
    ExpandIsWritten(n, a.digits, 0, 0);
    WrittenCons(n, Word(a.digits), [], 0);
    assert [Word(a.digits)] + [] == [Word(a.digits)];
  }

  /** So is the character of a literal. */
  lemma CharacterLabel(fold: string -> string)
    requires fold("A") == "A"
    ensures ExpandExpr(Names(map[], map["A" := 5], fold), "'A'") == "'5'"
  {
    var n := Names(map[], map["A" := 5], fold);
    assert n.Labelled("A") && n.ValueOf("A") == 5 && PrintedLabel(5) == "5";
    NoNames(n, "'");
    AroundLabel(n, "'", "A", "'");
    assert "'" + ("A" + "'") == "'A'" && "'" + ("5" + "'") == "'5'";
  }

  /** A double quote in a literal opens a string: what follows is not expanded. */
  lemma QuoteHides(n: Names)
    ensures ExpandExpr(n, "'\"'+a") == "'\"'+a"
  {
    var s := "'\"'+a";
    assert StringFrom(s, 5) == 5 && StringFrom(s, 3) == 5 && StringEnd(s, 1) == 5;
    assert s[1..5] == "\"'+a";
    assert Expand(n, s, 1, 0) == "\"'+a" + "";
  }

  lemma DollarLabel(fold: string -> string)
    requires fold("AB") == "AB"
    ensures ExpandExpr(Names(map[], map["AB" := 5], fold), "$AB") == "$5"
  {
    var n := Names(map[], map["AB" := 5], fold);
    assert n.Labelled("AB") && n.ValueOf("AB") == 5;
    assert Spell(Hex("AB")) == "$AB" && PrintedLabel(5) == "5";
    HexDigitsReplaced(n, Hex("AB"));
  }

  lemma {:induction false} ExpandRender(n: Names, e: Expr)
    requires Transparent(n, e)
    ensures ExpandExpr(n, Render(e)) == Render(Subst(n, e))
    decreases e
  {
    match e {
      case Leaf(a) =>
        if a.Label? && n.Labelled(a.name) {
          LabelExpands(n, a);
          NumberPrinted(n.ValueOf(a.name));
          PrintedInFull(n.ValueOf(a.name));
        } else {
          SettledStays(n, Spell(a));
        }
      case Prefix(_, operand) =>
        ExpandRender(n, operand);
        ExpandSign(n, e);
      case Paren(_, inner, _) =>
        ExpandRender(n, inner);
        ExpandParen(n, e);
      case Bin(left, _, _, _, _, right) =>
        ExpandRender(n, left);
        ExpandRender(n, right);
        ExpandBin(n, e);
    }
  }

  function SignText(sign: Sign): string {
    [if sign.Minus? then '-' else '~']
  }

  lemma ExpandSign(n: Names, e: Expr)
    requires e.Prefix?
    ensures ExpandExpr(n, Render(e)) == SignText(e.sign) + ExpandExpr(n, Render(e.operand))
  {
    NoNames(n, SignText(e.sign));
    ExpandBefore(n, SignText(e.sign), Render(e.operand));
  }

  lemma ExpandParen(n: Names, e: Expr)
    requires e.Paren? && Transparent(n, e)
    ensures ExpandExpr(n, Render(e)) == "(" + (e.lead + (ExpandExpr(n, Render(e.inner)) + (e.trail + ")")))
  {
    var end := e.trail + ")";
    PlainRender(n, e.inner);
    NoNames(n, end);
    NoNames(n, e.lead);
    NoNames(n, "(");
    SettledStays(n, end);
    ExpandAppend(n, Render(e.inner), end);
    ExpandBefore(n, e.lead, Render(e.inner) + end);
    ExpandBefore(n, "(", e.lead + (Render(e.inner) + end));
  }

  /** What is printed behind the left operand. */
  function RightPart(e: Expr): string
    requires e.Bin?
  {
    e.before + (e.text + (e.after + Render(e.right)))
  }

  lemma ExpandBin(n: Names, e: Expr)
    requires e.Bin? && Transparent(n, e)
    ensures ExpandExpr(n, Render(e))
      == ExpandExpr(n, Render(e.left)) + (e.before + (e.text + (e.after + ExpandExpr(n, Render(e.right)))))
  {
    PlainRender(n, e.left);
    ExpandRight(n, e);
    RightMeets(n, e);
    ExpandMeets(n, Render(e.left), RightPart(e));
  }

  lemma RightMeets(n: Names, e: Expr)
    requires e.Bin? && Transparent(n, e)
    ensures Meets(n, Render(e.left), RightPart(e))
  {
    if e.before == "" {
      assert RightPart(e) == e.text + (e.after + Render(e.right));
      MeetsMore(n, Render(e.left), e.text, e.after + Render(e.right));
    } else {
      assert RightPart(e)[0] == e.before[0];
    }
  }

  lemma ExpandRight(n: Names, e: Expr)
    requires e.Bin? && Transparent(n, e)
    ensures ExpandExpr(n, RightPart(e)) == e.before + (e.text + (e.after + ExpandExpr(n, Render(e.right))))
  {
    NoNames(n, e.after);
    NoNames(n, e.before);
    ExpandBefore(n, e.after, Render(e.right));
    ExpandBefore(n, e.text, e.after + Render(e.right));
    ExpandBefore(n, e.before, e.text + (e.after + Render(e.right)));
  }

  lemma MeetsMore(n: Names, s: string, t: string, more: string)
    requires t != "" && !NameChar(t[|t| - 1]) && Meets(n, s, t)
    ensures Meets(n, s, t + more)
  {
    assert RunEnd(t, 0, NameChar) < |t|;
    RunPrefix(t, more, 0, NameChar);
    assert Head(t + more) == Head(t);
  }

  // ---------- expanded trees are evaluated ----------

  /** The labels of the late environment with those known early laid over them. */
  function Overlay(n: Names, env: Env): Env {
    env.(labels := name => if n.Labelled(name) then Some(n.ValueOf(name)) else env.labels(name))
  }

  lemma NumberValue(env: Env, v: int, depth: nat)
    requires Int32(v) && v > -TWO_31
    ensures Eval(env, Number(v), depth) == Known(v)
  {
    DecimalReadsBack(if v < 0 then -v else v);
  }

  /** Replacing the known labels by their values is evaluating with them laid over the others. */
  lemma {:induction false} SubstEval(n: Names, env: Env, e: Expr, depth: nat)
    requires Transparent(n, e)
    ensures Eval(env, Subst(n, e), depth) == Eval(Overlay(n, env), e, depth)
    decreases e
  {
    match e {
      case Leaf(a) =>
        if a.Label? && n.Labelled(a.name) { NumberValue(env, n.ValueOf(a.name), depth); }
      case Prefix(_, operand) => SubstEval(n, env, operand, depth);
      case Paren(_, inner, _) => if depth + 1 < RECURSION_LIMIT { SubstEval(n, env, inner, depth + 1); }
      case Bin(left, _, _, _, _, right) =>
        SubstEval(n, env, left, depth);
        SubstEval(n, env, right, depth);
    }
  }

  lemma {:induction false} SubstPrintable(t: Table, n: Names, e: Expr, c: char)
    requires Printable(t, e, c) && Transparent(n, e)
    ensures Printable(t, Subst(n, e), c)
    decreases e
  {
    match e {
      case Leaf(a) =>
        if a.Label? && n.Labelled(a.name) {
          DecimalReadsBack(if n.ValueOf(a.name) < 0 then -n.ValueOf(a.name) else n.ValueOf(a.name));
        }
      case Prefix(_, operand) => SubstPrintable(t, n, operand, c);
      case Paren(_, inner, trail) => SubstPrintable(t, n, inner, (trail + ")")[0]);
      case Bin(left, before, _, text, _, right) =>
        SubstPrintable(t, n, left, (before + text)[0]);
        SubstPrintable(t, n, right, c);
    }
  }

  /** An operand that is put off, blanks around it included: its text is expanded with the labels known
      early and evaluated when all labels are known. The value is the tree's, each label counted as
      known early if it was. */
  lemma PutOffMeans(n: Names, env: Env, lead: string, e: Expr, trail: string)
    requires env.table == MATH_DEFS && Printable(env.table, e, '\0') && Transparent(n, e)
    requires AllBlank(lead) && AllBlank(trail)
    ensures var t := ExpandExpr(n, Padded(lead, e, trail));
      ParseNum(env, t) == Answer(Overlay(n, env), e, |t|)
  {
    ExpandPadded(n, lead, e, trail);
    ExpandRender(n, e);
    SubstPrintable(env.table, n, e, '\0');
    ParsePadded(env, lead, Subst(n, e), trail);
    SubstEval(n, env, e, 0);
  }

  lemma ExpandPadded(n: Names, lead: string, e: Expr, trail: string)
    requires Transparent(n, e) && AllBlank(lead) && AllBlank(trail)
    ensures ExpandExpr(n, Padded(lead, e, trail)) == lead + (ExpandExpr(n, Render(e)) + trail)
  {
    PlainRender(n, e);
    NoNames(n, lead);
    NoNames(n, trail);
    SettledStays(n, trail);
    ExpandAppend(n, Render(e), trail);
    ExpandBefore(n, lead, Render(e) + trail);
  }

  /** As the operators of the assembler: no letter, digit or underscore, and no name at the end. */
  predicate OperatorText(text: string) {
    && text != "" && !NameChar(text[|text| - 1]) && QuoteFree(text)
    && forall k :: 0 <= k < |text| ==> !Alnum(text[k]) && text[k] != '_'
  }

  lemma {:induction false} MarksUnknown(n: Names, s: string, i: nat)
    requires i <= |s| && Lettered(n) && QuoteFree(s) && forall k :: 0 <= k < |s| ==> !Alnum(s[k]) && s[k] != '_'
    ensures AllUnknown(n, Taken(s, i))
    decreases |s| - i
  {
    if i < |s| {
      if NameChar(s[i]) {
        var j := RunEnd(s, i, NameChar);
        MarksUnknown(n, s, j);
        assert s[i..j][0] == s[i];
        assert n.Unknown(s[i..j]);
        assert Taken(s, i) == [Word(s[i..j])] + Taken(s, j);
      } else {
        MarksUnknown(n, s, i + 1);
        assert Taken(s, i) == [Mark(s[i])] + Taken(s, i + 1);
      }
    }
  }

  /** With labels only, or behind an operand that ends in no known name, the text of an operator is kept
      exactly at such a joint. */
  lemma JointIs(n: Names, left: string, before: string, text: string)
    requires Lettered(n) && QuoteFree(left) && AllBlank(before) && OperatorText(text)
    requires n.defines == map[] || n.Unknown(left[TailStart(left)..])
    ensures ExpandExpr(n, left + (before + text)) == ExpandExpr(n, left) + (before + text)
      <==> Joint(n, left, before, text)
  {
    MarksUnknown(n, text, 0);
    if before == "" {
      assert before + text == text;
      TouchingIs(n, left, text);
    } else {
      SeparateKept(n, left, before, text);
    }
  }

  lemma SeparateKept(n: Names, left: string, before: string, text: string)
    requires QuoteFree(left) && AllBlank(before) && before != "" && Settled(n, text)
    ensures ExpandExpr(n, left + (before + text)) == ExpandExpr(n, left) + (before + text)
  {
    SettledStays(n, text);
    NoNames(n, before);
    ExpandBefore(n, before, text);
    assert (before + text)[0] == before[0];
    ExpandAppend(n, left, before + text);
  }

  lemma TouchingIs(n: Names, left: string, text: string)
    requires Lettered(n) && QuoteFree(left) && OperatorText(text) && Settled(n, text)
    requires n.defines == map[] || n.Unknown(left[TailStart(left)..])
    ensures ExpandExpr(n, left + text) == ExpandExpr(n, left) + text <==> Meets(n, left, text)
  {
    SettledStays(n, text);
    if Meets(n, left, text) {
      ExpandMeets(n, left, text);
    } else {
      var a, tail, head, b := left[..TailStart(left)], left[TailStart(left)..], Head(text), text[|Head(text)|..];
      assert left == a + tail && text == head + b;
      HeadUnknown(n, text);
      RunsChange(n, a, tail, head, b);
    }
  }

  lemma HeadUnknown(n: Names, text: string)
    requires Lettered(n) && OperatorText(text)
    ensures n.Unknown(Head(text)) && Apart(Head(text), text[|Head(text)|..])
  {
    if Head(text) != "" { assert Head(text)[0] == text[0]; }
    assert n.Unknown(Head(text));
  }

  /** Where two runs make a name, or the first is one, the text changes. */
  lemma RunsChange(n: Names, a: string, tail: string, head: string, b: string)
    requires Lettered(n) && (n.defines == map[] || n.Unknown(tail)) && QuoteFree(a) && Apart(a, tail) && Apart(head, b)
    requires tail != "" && (forall k :: 0 <= k < |tail| ==> NameChar(tail[k])) && OperatorText(head + b)
    requires head != "" && forall k :: 0 <= k < |head| ==> NameChar(head[k])
    requires !(n.Unknown(tail) && n.Unknown(tail + head))
    ensures ExpandExpr(n, (a + tail) + (head + b)) != ExpandExpr(n, a + tail) + (head + b)
  {
    RunsParts(n, a, tail, head, b);
    RunsDiffer(n, tail, head, b);
    Regroup(ExpandExpr(n, a), ExpandExpr(n, tail), head, b);
    var x, y := ExpandExpr(n, tail + head), ExpandExpr(n, tail) + head;
    Cancel(ExpandExpr(n, a), x + b, y + b);
    CancelEnd(x, y, b);
  }

  lemma CancelEnd(x: string, y: string, b: string)
    ensures x + b == y + b <==> x == y
  {
    if x + b == y + b {
      assert |x| == |y|;
      assert (x + b)[..|x|] == x && (y + b)[..|y|] == y;
    }
  }

  lemma RunsParts(n: Names, a: string, tail: string, head: string, b: string)
    requires Lettered(n) && QuoteFree(a) && Apart(a, tail) && Apart(head, b) && OperatorText(head + b)
    requires tail != "" && (forall k :: 0 <= k < |tail| ==> NameChar(tail[k]))
    requires head != "" && forall k :: 0 <= k < |head| ==> NameChar(head[k])
    ensures ExpandExpr(n, (a + tail) + (head + b)) == ExpandExpr(n, a) + (ExpandExpr(n, tail + head) + b)
    ensures ExpandExpr(n, a + tail) == ExpandExpr(n, a) + ExpandExpr(n, tail)
  {
    assert forall k :: 0 <= k < |b| ==> b[k] == (head + b)[|head| + k];
    MarksUnknown(n, b, 0);
    SettledStays(n, b);
    Regroup(a, tail, head, b);
    ExpandAppend(n, a, tail);
    ExpandAppend(n, tail + head, b);
    ExpandAppend(n, a, (tail + head) + b);
  }

  lemma RunsDiffer(n: Names, tail: string, head: string, b: string)
    requires Lettered(n) && (n.defines == map[] || n.Unknown(tail)) && OperatorText(head + b)
    requires tail != "" && (forall k :: 0 <= k < |tail| ==> NameChar(tail[k]))
    requires head != "" && forall k :: 0 <= k < |head| ==> NameChar(head[k])
    requires !(n.Unknown(tail) && n.Unknown(tail + head))
    ensures ExpandExpr(n, tail + head) != ExpandExpr(n, tail) + head
  {
    if n.Unknown(tail) {
      RunSettled(n, tail);
      WordTaken(tail + head);
      assert Taken(tail + head, 0)[0] == Word(tail + head) && !n.Unknown(tail + head);
      LetteredPlain(n);
      ExpandFixes(n, tail + head);
    } else {
      LabelsDiffer(n, tail, head, b);
    }
  }

  lemma LabelsDiffer(n: Names, tail: string, head: string, b: string)
    requires Lettered(n) && n.defines == map[] && OperatorText(head + b)
    requires tail != "" && (forall k :: 0 <= k < |tail| ==> NameChar(tail[k]))
    requires head != "" && forall k :: 0 <= k < |head| ==> NameChar(head[k])
    requires !n.Unknown(tail)
    ensures ExpandExpr(n, tail + head) != ExpandExpr(n, tail) + head
  {
    assert head[|head| - 1] == (head + b)[|head| - 1];
    RunExpands(n, tail);
    RunExpands(n, tail + head);
    if n.Labelled(tail + head) {
      LabelEnds(n.ValueOf(tail + head));
    } else {
      LabelEnds(n.ValueOf(tail));
      CancelEnd(PrintedLabel(n.ValueOf(tail)), tail, head);
    }
  }

  lemma RunExpands(n: Names, name: string)
    requires n.defines == map[] && name != "" && forall k :: 0 <= k < |name| ==> NameChar(name[k])
    ensures ExpandExpr(n, name) == if n.Labelled(name) then PrintedLabel(n.ValueOf(name)) else name
    ensures n.Labelled(name) || n.Unknown(name)
  {
    WordTaken(name);
    ExpandIsWritten(n, name, 0, 0);
    WrittenCons(n, Word(name), [], 0);
    assert [Word(name)] + [] == [Word(name)];
  }

  /** A printed label neither starts nor ends like a name or an operator. */
  lemma LabelEnds(v: int)
    ensures var t := PrintedLabel(v);
      t != "" && (t[0] == '-' || Digit(t[0])) && (t[|t| - 1] == '-' || Digit(t[|t| - 1]))
  {
    DecimalDigits(if v < 0 then -v else v);
    assert forall i :: 0 <= i < |PrintedLabel(v)| ==> PrintedLabel(v)[i] == PrintedDecimal(v)[i];
  }

  /** A local label and != directly behind it, with a label that is called _! */
  lemma JointName(fold: string -> string)
    requires fold("_!") == "_!" && fold("1") == "1"
    ensures var e := Bin(Leaf(Ahead(1)), "", NotEqual, "!=", "", Leaf(Decimal("1")));
      && Printable(MATH_DEFS, e, '\0') && Render(e) == "+_!=1"
      && ExpandExpr(Names(map[], map["_!" := 7], fold), Render(e)) == "+7=1"
  {
    JointPrinted();
    JointExpanded(Names(map[], map["_!" := 7], fold));
  }

  lemma JointPrinted()
    ensures var e := Bin(Leaf(Ahead(1)), "", NotEqual, "!=", "", Leaf(Decimal("1")));
      Printable(MATH_DEFS, e, '\0') && Render(e) == "+_!=1"
  {
    var a, b := Ahead(1), Decimal("1");
    assert Digits("1", 10);
    assert Spell(a) == "+_" && Spell(b) == "1";
    assert (NotEqual, "!=") in MATH_DEFS by {
      assert MATH_DEFS[10] == (NotEqual, "!=");
    }
    TightPrinted(MATH_DEFS, a, NotEqual, "!=", b, '\0');
    assert Spell(a) + ("!=" + Spell(b)) == "+_!=1";
  }

  lemma TightPrinted(t: Table, a: Atom, op: Op, text: string, b: Atom, c: char)
    requires Proper(a) && Proper(b) && (op, text) in t && text != "" && EndsBefore(a, text[0]) && EndsBefore(b, c)
    ensures var e := Bin(Leaf(a), "", op, text, "", Leaf(b));
      Printable(t, e, c) && Render(e) == Spell(a) + (text + Spell(b))
  {
    assert "" + text == text && "" + (text + ("" + Spell(b))) == text + Spell(b);
  }

  lemma JointExpanded(n: Names)
    requires n.Labelled("_!") && n.ValueOf("_!") == 7 && n.Unknown("1")
    ensures ExpandExpr(n, "+_!=1") == "+7=1"
  {
    RunSettled(n, "1");
    NoNames(n, "=");
    NoNames(n, "+");
    SettledJoin(n, "=", "1");
    assert "=" + "1" == "=1";
    AroundLabel(n, "+", "_!", "=1");
    assert "+" + ("_!" + "=1") == "+_!=1" && "+" + ("7" + "=1") == "+7=1";
    assert PrintedLabel(7) == "7";
  }

  /** The atom of an operand that is an atom or an atom behind a sign. */
  function AtomOf(e: Expr): Atom
    requires e.Leaf? || (e.Prefix? && e.operand.Leaf?)
  {
    if e.Leaf? then e.atom else e.operand.atom
  }

  /** The operand is put off rightly in this late environment: its text is the substituted one and
      has the right value. */
  ghost predicate PutOffRight(n: Names, env: Env, e: Expr) {
    var t := ExpandExpr(n, Render(e));
    t == Render(Subst(n, e)) && ParseNum(env, t) == Answer(Overlay(n, env), e, |t|)
  }

  /** An atom, alone or behind a sign, is put off rightly exactly when it is expandable and no negative
      label stands behind the sign: its text is the substituted one and has the right value later. */
  lemma PutOffAtom(n: Names, env: Env, e: Expr)
    requires env.table == MATH_DEFS && Printable(env.table, e, '\0') && PlainLabels(n)
    requires e.Leaf? || (e.Prefix? && e.operand.Leaf?)
    ensures PutOffRight(n, env, e) <==> Expandable(n, AtomOf(e)) && !(e.Prefix? && Negative(n, e.operand))
  {
    SignedText(n, e);
    if Expandable(n, AtomOf(e)) {
      if e.Prefix? && Negative(n, e.operand) {
        SignedNegativeFails(n, env, e);
        NumberValue(Overlay(n, env), n.ValueOf(e.operand.atom.name), 0);
      } else if QuoteFree(Spell(AtomOf(e))) {
        PutOffMeans(n, env, "", e, "");
        PaddedNot(e);
      } else {
        QuoteStays(n, env, e);
      }
    }
  }

  /** So are all atoms and signed atoms of a tree, and none of them opens a string literal. */
  ghost predicate PartsRight(n: Names, env: Env, e: Expr) {
    match e
    case Leaf(a) => PutOffRight(n, env, e) && QuoteFree(Spell(a))
    case Prefix(_, operand) => PartsRight(n, env, operand) && (operand.Leaf? ==> PutOffRight(n, env, e))
    case Paren(_, inner, _) => PartsRight(n, env, inner)
    case Bin(left, before, _, text, _, right) =>
      PartsRight(n, env, left) && PartsRight(n, env, right) && Joint(n, Render(left), before, text)
  }

  /** Transparent trees are exactly those whose parts are all put off rightly, so PutOffMeans asks for
      nothing else. */
  lemma {:induction false} TransparentParts(n: Names, env: Env, e: Expr, c: char)
    requires env.table == MATH_DEFS && Printable(env.table, e, c) && PlainLabels(n)
    ensures PartsRight(n, env, e) <==> Transparent(n, e)
    decreases e
  {
    match e {
      case Leaf(_) =>
        PrintableBefore(env.table, e, c, '\0');
        PutOffAtom(n, env, e);
      case Prefix(_, operand) =>
        TransparentParts(n, env, operand, c);
        if operand.Leaf? {
          PrintableBefore(env.table, e, c, '\0');
          PutOffAtom(n, env, e);
        }
      case Paren(_, inner, trail) =>
        TransparentParts(n, env, inner, (trail + ")")[0]);
      case Bin(left, before, _, text, _, right) =>
        TransparentParts(n, env, left, (before + text)[0]);
        TransparentParts(n, env, right, c);
    }
  }

  /** The character literal of a double quote. */
  lemma QuoteStays(n: Names, env: Env, e: Expr)
    requires env.table == MATH_DEFS && Printable(env.table, e, '\0') && (e.Leaf? || (e.Prefix? && e.operand.Leaf?))
    requires !QuoteFree(Spell(AtomOf(e))) && ExpandExpr(n, Render(e)) == Render(Subst(n, e))
    ensures PutOffRight(n, env, e)
  {
    var a := AtomOf(e);
    QuoteAtom(a);
    assert Subst(n, e) == e;
    ParsePrinted(env, e);
    assert Eval(Overlay(n, env), Leaf(a), 0) == Eval(env, Leaf(a), 0);
  }

  lemma QuoteAtom(a: Atom)
    requires Proper(a) && !QuoteFree(Spell(a))
    ensures a.Character? || a.Escape?
  {
  }

  lemma SignedText(n: Names, e: Expr)
    requires Printable(MATH_DEFS, e, '\0') && PlainLabels(n) && (e.Leaf? || (e.Prefix? && e.operand.Leaf?))
    ensures ExpandExpr(n, Render(e)) == Render(Subst(n, e)) <==> Expandable(n, AtomOf(e))
  {
    AtomText(n, AtomOf(e));
    if e.Prefix? {
      ExpandSign(n, e);
      var x, y := ExpandExpr(n, Render(e.operand)), Render(Subst(n, e.operand));
      assert (SignText(e.sign) + x)[1..] == x && (SignText(e.sign) + y)[1..] == y;
    }
  }

  /** A negative label behind a sign: its printed minus is read as a local label's. */
  lemma SignedNegativeFails(n: Names, env: Env, e: Expr)
    requires env.table == MATH_DEFS && e.Prefix? && Printable(env.table, e, '\0')
    requires Negative(n, e.operand) && InFull(n.ValueOf(e.operand.atom.name))
    ensures ParseNum(env, ExpandExpr(n, Render(e))) == Failed(LocalSyntax)
  {
    var v := n.ValueOf(e.operand.atom.name);
    var s := SignText(e.sign) + PrintedDecimal(v);
    LabelExpands(n, e.operand.atom);
    PrintedInFull(v);
    ExpandSign(n, e);
    DecimalDigits(-v);
    assert s[2] == DecimalNumber(-v)[0];
    DoubleSign(env, s);
  }

  lemma DoubleSign(env: Env, s: string)
    requires |s| > 2 && (s[0] == '-' || s[0] == '~') && s[1] == '-' && Alnum(s[2])
    ensures ParseNum(env, s) == Failed(LocalSyntax)
  {
    var g := Scan(env, s);
    ScanSound(env, s);
    BadOperand(env, s);
    assert g.start(0) == Some(0);
    assert Operand(g, 0, 0, 1) == Failed(LocalSyntax) by {
      assert !g.paren(0) && !g.paren(1);
    }
    assert Terms(g, 0, 0, 1, None, 0) == Failed(LocalSyntax);
  }

  lemma BadOperand(env: Env, s: string)
    requires |s| > 2 && (s[0] == '-' || s[0] == '~') && s[1] == '-' && Alnum(s[2])
    ensures SignAt(s, 0) == if s[0] == '-' then NoSign else Tilde
    ensures Single(env, s, if s[0] == '-' then 0 else 1) == Failed(LocalSyntax)
  {
    assert StepBack(s, 2, env.current - 2) == (2, env.current - 2);
    assert StepBack(s, 2, env.current - 1) == (2, env.current - 1);
  }

  // ---------- eval ----------

  /** printf's %X of an int. */
  function HexText(v: int): string {
    "$" + HexNumber(Unsigned(v))
  }

  /** eval: the value as a hexadecimal number, or the expanded text if it has none yet. */
  function EvalText(env: Env, n: Names, s: string): string {
    var r := ParseNum(env, s);
    if r.Done? then HexText(r.value) else ExpandExpr(n, s)
  }

  lemma {:induction false} HexReadsBack(n: nat)
    ensures Digits(HexNumber(n), 16) && DigitsValue(HexNumber(n), 16) == n
  {
    if n >= 16 {
      HexReadsBack(n / 16);
      HexAppend(HexNumber(n / 16), n % 16);
    } else {
      HexAppend("", n);
      assert "" + [HexDigit(n)] == HexNumber(n);
    }
  }

  lemma HexAppend(t: string, d: nat)
    requires d < 16 && (t == "" || Digits(t, 16))
    ensures Digits(t + [HexDigit(d)], 16) && DigitsValue(t + [HexDigit(d)], 16) == DigitsValue(t, 16) * 16 + d
  {
    var u := t + [HexDigit(d)];
    HexDigitIs(d);
    assert u[..|u| - 1] == t;
  }

  lemma HexDigitIs(d: nat)
    requires d < 16
    ensures Alnum(HexDigit(d)) && DigitValue(HexDigit(d)) == d
  {
  }

  /** What eval prints is read back as the same 32 bits. */
  lemma HexTextMeans(env: Env, v: int)
    requires env.table == MATH_DEFS
    ensures ParseNum(env, HexText(v)) == Done(Wrap(v), |HexText(v)|)
  {
    var e := Leaf(Hex(HexNumber(Unsigned(v))));
    HexReadsBack(Unsigned(v));
    WrapPeriod(Wrap(v));
    ParsePrinted(env, e);
  }

  /** The text eval gives for an operand, read later: the value it had, if it had one, and otherwise
      the value it gets with the labels known early laid over the others. */
  lemma EvalTextMeans(early: Env, late: Env, n: Names, lead: string, e: Expr, trail: string)
    requires early.table == MATH_DEFS && late.table == MATH_DEFS && Printable(MATH_DEFS, e, '\0') && Transparent(n, e)
    requires AllBlank(lead) && AllBlank(trail)
    ensures var s := Padded(lead, e, trail);
      var t := EvalText(early, n, s);
      var v := Eval(early, e, 0);
      ParseNum(late, t) == Reading(if v.Known? then Known(Wrap(v.value)) else Eval(Overlay(n, late), e, 0), |t|)
  {
    ParsePadded(early, lead, e, trail);
    var v := Eval(early, e, 0);
    if v.Known? {
      HexTextMeans(late, v.value);
    } else {
      PutOffMeans(n, late, lead, e, trail);
    }
  }

  // ---------- the code ----------

  class Expander {
    const n: Names
    var out: string
    var reported: bool

    constructor (n: Names)
      ensures this.n == n && out == "" && !reported
    {
      this.n, out, reported := n, "", false;
    }

    method SkipString(s: string, i: nat) returns (j: nat)
      requires i < |s|
      ensures j == StringEnd(s, i)
    {
      j := i + 1;
      while j < |s| && s[j] != '"'
        invariant i < j <= |s| && StringFrom(s, j) == StringFrom(s, i + 1)
      {
        if s[j] == '\\' {
          j := j + 1;
          if j == |s| {
            break;
          }
        }
        j := j + 1;
      }
      if j < |s| {
        j := j + 1;
      }
    }

    /** A name's replacement is written; a define's contents are expanded one level deeper. */
    method WriteName(name: string, depth: nat)
      requires depth <= RECURSION_LIMIT
      modifies this`out, this`reported
      ensures out == old(out) + Replacement(n, name, depth)
      ensures reported == (old(reported) || (n.Defined(name) && TooDeep(n, n.Contents(name), 0, depth + 1)))
      decreases RECURSION_LIMIT + 1 - depth, 0, 0
    {
      if n.Defined(name) {
        ExpandFull(n.Contents(name), depth + 1);
      } else if n.Labelled(name) {
        out := out + PrintedLabel(n.ValueOf(name));
      } else {
        out := out + name;
      }
    }

    /** expand_expr_full. */
    method ExpandFull(s: string, depth: nat)
      modifies this`out, this`reported
      ensures out == old(out) + Expand(n, s, 0, depth)
      ensures reported == (old(reported) || TooDeep(n, s, 0, depth))
      decreases RECURSION_LIMIT + 1 - depth, 3
    {
      if depth > RECURSION_LIMIT {
        reported := true;
        return;
      }
      var i := 0;
      while i < |s|
        invariant i <= |s|
        invariant out + Expand(n, s, i, depth) == old(out) + Expand(n, s, 0, depth)
        invariant (reported || TooDeep(n, s, i, depth)) == (old(reported) || TooDeep(n, s, 0, depth))
        decreases |s| - i
      {
        i := ExpandTurn(s, i, depth);
      }
    }

    /** One turn of its loop: a string literal, a name or another character, and the separators behind. */
    method ExpandTurn(s: string, i: nat, depth: nat) returns (m: nat)
      requires i < |s| && depth <= RECURSION_LIMIT
      modifies this`out, this`reported
      ensures i < m <= |s| && out + Expand(n, s, m, depth) == old(out) + Expand(n, s, i, depth)
      ensures (reported || TooDeep(n, s, m, depth)) == (old(reported) || TooDeep(n, s, i, depth))
      decreases RECURSION_LIMIT + 1 - depth, 2
    {
      var k := i;
      if s[i] == '"' {
        k := SkipString(s, i);
        out := out + s[i..k];
        Reassociate(old(out), s[i..k], ExpandOne(n, s, k, depth));
      }
      k := WritePiece(s, k, depth);
      m := WriteSeparators(s, k, depth);
    }

    /** The name or the character at i. */
    method WritePiece(s: string, i: nat, depth: nat) returns (m: nat)
      requires i <= |s| && depth <= RECURSION_LIMIT
      modifies this`out, this`reported
      ensures i <= m <= |s| && (i < |s| ==> i < m)
      ensures out + Expand(n, s, m, depth) == old(out) + ExpandOne(n, s, i, depth)
      ensures (reported || TooDeep(n, s, m, depth)) == (old(reported) || TooDeepOne(n, s, i, depth))
      decreases RECURSION_LIMIT + 1 - depth, 1
    {
      m := i;
      if i < |s| && NameChar(s[i]) {
        m := SkipRun(s, i, NameChar);
        WriteName(s[i..m], depth);
        Reassociate(old(out), Replacement(n, s[i..m], depth), Expand(n, s, m, depth));
      } else if i < |s| {
        m := i + 1;
        out := out + [s[i]];
        Reassociate(old(out), [s[i]], Expand(n, s, m, depth));
      }
    }

    method WriteSeparators(s: string, i: nat, depth: nat) returns (m: nat)
      requires i <= |s| && depth <= RECURSION_LIMIT
      modifies this`out
      ensures i <= m <= |s| && out + Expand(n, s, m, depth) == old(out) + Expand(n, s, i, depth)
      ensures TooDeep(n, s, m, depth) == TooDeep(n, s, i, depth)
    {
      m := SkipRun(s, i, Separator);
      out := out + s[i..m];
      forall k | i <= k < m ensures Plain(s[k]) {
        SeparatorIsPlain(s[k]);
      }
      SeparatorsStay(n, s, i, m, depth);
      Reassociate(old(out), s[i..m], Expand(n, s, m, depth));
    }
  }

  predicate Separator(c: char) {
    c in "=+-*<>|&/%^()\\, \t\r"
  }

  predicate Plain(c: char) {
    !NameChar(c) && c != '"'
  }

  lemma SeparatorIsPlain(c: char)
    ensures Separator(c) ==> Plain(c)
  {
  }

  lemma PlainStep(n: Names, s: string, i: nat, depth: nat)
    requires i < |s| && depth <= RECURSION_LIMIT && Plain(s[i])
    ensures Expand(n, s, i, depth) == [s[i]] + Expand(n, s, i + 1, depth)
    ensures TooDeep(n, s, i, depth) == TooDeep(n, s, i + 1, depth)
  {
  }

  lemma {:induction false} SeparatorsStay(n: Names, s: string, i: nat, j: nat, depth: nat)
    requires i <= j <= |s| && depth <= RECURSION_LIMIT && forall k :: i <= k < j ==> Plain(s[k])
    ensures Expand(n, s, i, depth) == s[i..j] + Expand(n, s, j, depth)
    ensures TooDeep(n, s, i, depth) == TooDeep(n, s, j, depth)
    decreases j - i
  {
    if i < j {
      SeparatorsStay(n, s, i + 1, j, depth);
      PlainStep(n, s, i, depth);
      assert s[i..j] == [s[i]] + s[i + 1..j];
      Reassociate([s[i]], s[i + 1..j], Expand(n, s, j, depth));
    } else {
      assert s[i..j] == "";
    }
  }
}
