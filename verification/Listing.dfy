/** The listing: the hex columns written in pass one and overwritten in pass two. */
module Listing {
  import opened Bytes
  import opened Scanner
  import TwoPass

  const COLUMNS := 4
  const MARGIN := 14

  /** What goes into the listing in pass one: a byte of output, or other text, after which
      listing_width is as given. */
  datatype Event = Output(b: byte) | Other(text: string, width: nat)

  predicate LineBreak(c: char) {
    c == '\n' || c == '\r'
  }

  /** isspace. */
  predicate Space(c: char) {
    c == ' ' || c == '\t' || c == '\U{B}' || c == '\U{C}' || LineBreak(c)
  }

  /** The platform's NEWLINE. */
  predicate NewLine(nl: string) {
    nl != "" && forall i :: 0 <= i < |nl| ==> LineBreak(nl[i])
  }

  function Margin(nl: string): (r: string)
    ensures |r| == |nl| + MARGIN
  {
    nl + seq(MARGIN, _ => ' ')
  }

  /** printf's "%02X ". */
  function Column(b: byte): (r: string)
    ensures |r| == 3 && !Space(r[0])
  {
    [HexDigit(b / 16), HexDigit(b % 16), ' ']
  }

  /** In front of a column: a new row, if the last one is full. */
  function RowStart(nl: string, width: nat): string {
    if width >= COLUMNS then Margin(nl) else ""
  }

  function Written(nl: string, width: nat, e: Event): string {
    match e
    case Other(text, _) => text
    case Output(b) => RowStart(nl, width) + Column(b)
  }

  function NextWidth(width: nat, e: Event): nat {
    match e
    case Other(_, w) => w
    case Output(_) => (if width >= COLUMNS then 0 else width) + 1
  }

  /** The listing of a run of events. */
  function Lines(nl: string, width: nat, es: seq<Event>): string
    decreases |es|
  {
    if es == [] then "" else Written(nl, width, es[0]) + Lines(nl, NextWidth(width, es[0]), es[1..])
  }

  // ---------- pass two ----------

  function SkipSpaces(s: string, i: nat): (j: nat)
    requires i <= |s|
    ensures i <= j <= |s|
  {
    RunEnd(s, i, Space)
  }

  /** Where the next column is: behind the margin, if a new row starts here. */
  function ColumnAt(s: string, i: nat): (j: nat)
    requires i <= |s|
    ensures i <= j <= |s|
  {
    if i < |s| && LineBreak(s[i]) then SkipSpaces(s, i) else i
  }

  /** The bytes of a patch are written over the columns from i on; nothing if a column is missing. */
  function Patch(s: string, i: nat, bytes: seq<byte>): (r: Option<string>)
    requires i <= |s|
    decreases |bytes|
  {
    if bytes == [] then Some(s)
    else
      var j := ColumnAt(s, i);
      if j + 3 > |s| then None else Patch(Overwrite(s, j, Column(bytes[0])), j + 3, bytes[1..])
  }

  // ---------- patched columns ----------

  function Outputs(bytes: seq<byte>): (r: seq<Event>)
    ensures |r| == |bytes|
  {
    seq(|bytes|, i requires 0 <= i < |bytes| => Output(bytes[i]))
  }

  /** A byte's own column is found from the place where its writing began. */
  lemma ColumnFound(nl: string, width: nat, b: byte, pre: string, rest: string)
    requires NewLine(nl)
    ensures var s := pre + (Written(nl, width, Output(b)) + rest);
      ColumnAt(s, |pre|) == |pre| + |Written(nl, width, Output(b))| - 3
  {
    var w := Written(nl, width, Output(b));
    var s := pre + (w + rest);
    assert forall k :: 0 <= k < |w| ==> s[|pre| + k] == w[k];
    if width >= COLUMNS {
      var m := Margin(nl);
      assert forall k :: 0 <= k < |m| ==> w[k] == m[k];
      assert w[|m|] == Column(b)[0];
      RunIs(s, |pre|, |m|, Space);
    }
  }

  lemma Nest(a: string, b: string, c: string, d: string)
    ensures a + ((b + c) + d) == (a + b) + (c + d)
  {
  }

  lemma ColumnReplaced(nl: string, width: nat, was: byte, b: byte, pre: string, rest: string)
    ensures var w := Written(nl, width, Output(was));
      Overwrite(pre + (w + rest), |pre| + |w| - 3, Column(b)) == pre + (Written(nl, width, Output(b)) + rest)
  {
    InnerReplaced(pre, RowStart(nl, width), Column(was), Column(b), rest);
  }

  lemma InnerReplaced(pre: string, margin: string, was: string, now: string, rest: string)
    requires |was| == |now| == 3
    ensures Overwrite(pre + ((margin + was) + rest), |pre| + |margin + was| - 3, now) == pre + ((margin + now) + rest)
  {
    Nest(pre, margin, was, rest);
    Nest(pre, margin, now, rest);
    OverwriteInner(pre + margin, was, now, rest);
  }

  lemma PatchStep(nl: string, width: nat, h: byte, bytes: seq<byte>, pre: string, rest: string, next: nat, w: string,
                  w': string)
    requires NewLine(nl) && bytes != [] && next == |pre| + |w|
    requires w == Written(nl, width, Output(h)) && w' == Written(nl, width, Output(bytes[0]))
    ensures Patch(pre + (w + rest), |pre|, bytes) == Patch(pre + (w' + rest), next, bytes[1..])
  {
    assert ColumnAt(pre + (w + rest), |pre|) == next - 3 by {
      ColumnFound(nl, width, h, pre, rest);
    }
    assert Overwrite(pre + (w + rest), next - 3, Column(bytes[0])) == pre + (w' + rest) by {
      ColumnReplaced(nl, width, h, bytes[0], pre, rest);
    }
    PatchUnfold(pre + (w + rest), |pre|, bytes, next, pre + (w' + rest));
  }

  lemma PatchUnfold(s: string, i: nat, bytes: seq<byte>, next: nat, s': string)
    requires bytes != [] && i <= |s| && 3 <= next <= |s| && ColumnAt(s, i) == next - 3
    requires s' == Overwrite(s, next - 3, Column(bytes[0]))
    ensures Patch(s, i, bytes) == Patch(s', next, bytes[1..])
  {
  }

  /** Overwriting the columns of held bytes gives the listing that the new bytes would have got in
      pass one, even when they span two rows. */
  lemma {:induction false} PatchIsRelisting(nl: string, width: nat, held: seq<byte>, bytes: seq<byte>,
                                            more: seq<Event>, pre: string)
    requires NewLine(nl) && |held| == |bytes|
    ensures Patch(pre + Lines(nl, width, Outputs(held) + more), |pre|, bytes)
      == Some(pre + Lines(nl, width, Outputs(bytes) + more))
    decreases |bytes|
  {
    if bytes == [] {
      assert Outputs(held) + more == more && Outputs(bytes) + more == more;
    } else {
      var w, w' := Written(nl, width, Output(held[0])), Written(nl, width, Output(bytes[0]));
      var next := NextWidth(width, Output(held[0]));
      var rest := Lines(nl, next, Outputs(held[1..]) + more);
      FirstLines(nl, width, held, more, pre);
      FirstLines(nl, width, bytes, more, pre);
      PatchStep(nl, width, held[0], bytes, pre, rest, |pre + w'|, w, w');
      Reassociate(pre, w', rest);
      PatchIsRelisting(nl, next, held[1..], bytes[1..], more, pre + w');
    }
  }

  lemma FirstLines(nl: string, width: nat, bytes: seq<byte>, more: seq<Event>, pre: string)
    requires bytes != []
    ensures var w := Written(nl, width, Output(bytes[0]));
      var rest := Lines(nl, NextWidth(width, Output(bytes[0])), Outputs(bytes[1..]) + more);
      Lines(nl, width, Outputs(bytes) + more) == w + rest && pre + (w + rest) == (pre + w) + rest
  {
    FirstOutput(bytes, more);
    Reassociate(pre, Written(nl, width, Output(bytes[0])),
        Lines(nl, NextWidth(width, Output(bytes[0])), Outputs(bytes[1..]) + more));
  }

  lemma FirstOutput(bytes: seq<byte>, more: seq<Event>)
    requires bytes != []
    ensures (Outputs(bytes) + more)[0] == Output(bytes[0])
    ensures (Outputs(bytes) + more)[1..] == Outputs(bytes[1..]) + more
  {
    assert Outputs(bytes)[1..] == Outputs(bytes[1..]);
  }

  // ---------- all patches ----------

  function WidthAfter(width: nat, es: seq<Event>): nat
    decreases |es|
  {
    if es == [] then width else WidthAfter(NextWidth(width, es[0]), es[1..])
  }

  lemma {:induction false} LinesAppend(nl: string, width: nat, a: seq<Event>, b: seq<Event>)
    ensures Lines(nl, width, a + b) == Lines(nl, width, a) + Lines(nl, WidthAfter(width, a), b)
    decreases |a|
  {
    if a == [] {
      assert a + b == b;
    } else {
      assert (a + b)[1..] == a[1..] + b;
      LinesAppend(nl, NextWidth(width, a[0]), a[1..], b);
    }
  }

  /** A put-off argument: the place of its first byte among the events, and the bytes of pass two. */
  datatype Late = Late(k: nat, bytes: seq<byte>)

  ghost predicate Holds(es: seq<Event>, p: Late) {
    p.k + |p.bytes| <= |es| && forall i :: p.k <= i < p.k + |p.bytes| ==> es[i].Output?
  }

  function Replace(es: seq<Event>, p: Late): (r: seq<Event>)
    requires p.k + |p.bytes| <= |es|
    ensures |r| == |es|
  {
    es[..p.k] + Outputs(p.bytes) + es[p.k + |p.bytes|..]
  }

  /** Other events keep their place: bytes are replaced by bytes. */
  ghost predicate SameShape(a: seq<Event>, b: seq<Event>) {
    |a| == |b| && forall i :: 0 <= i < |a| ==> a[i] == b[i] || (a[i].Output? && b[i].Output?)
  }

  lemma {:induction false} ShapeLength(nl: string, width: nat, a: seq<Event>, b: seq<Event>)
    requires SameShape(a, b)
    ensures |Lines(nl, width, a)| == |Lines(nl, width, b)|
    decreases |a|
  {
    if a != [] {
      assert a[0] == b[0] || (a[0].Output? && b[0].Output?);
      ShapeLength(nl, NextWidth(width, a[0]), a[1..], b[1..]);
    }
  }

  /** The offset saved in pass one for a put-off argument. */
  function Saved(nl: string, es: seq<Event>, p: Late): nat
    requires p.k <= |es|
  {
    |Lines(nl, 0, es[..p.k])|
  }

  function BytesOf(es: seq<Event>, k: nat, n: nat): (r: seq<byte>)
    requires k + n <= |es| && forall i :: k <= i < k + n ==> es[i].Output?
    ensures |r| == n && Outputs(r) == es[k..k + n]
  {
    seq(n, i requires 0 <= i < n => es[k + i].b)
  }

  /** The listing around some bytes. */
  lemma LinesAround(nl: string, a: seq<Event>, bytes: seq<byte>, c: seq<Event>)
    ensures Lines(nl, 0, a + Outputs(bytes) + c) == Lines(nl, 0, a) + Lines(nl, WidthAfter(0, a), Outputs(bytes) + c)
  {
    assert a + Outputs(bytes) + c == a + (Outputs(bytes) + c);
    LinesAppend(nl, 0, a, Outputs(bytes) + c);
  }

  lemma Relisted(nl: string, a: seq<Event>, held: seq<byte>, bytes: seq<byte>, c: seq<Event>)
    requires NewLine(nl) && |held| == |bytes|
    ensures |Lines(nl, 0, a)| <= |Lines(nl, 0, a + Outputs(held) + c)|
    ensures Patch(Lines(nl, 0, a + Outputs(held) + c), |Lines(nl, 0, a)|, bytes)
      == Some(Lines(nl, 0, a + Outputs(bytes) + c))
  {
    LinesAround(nl, a, held, c);
    LinesAround(nl, a, bytes, c);
    PatchIsRelisting(nl, WidthAfter(0, a), held, bytes, c, Lines(nl, 0, a));
  }

  lemma PatchOne(nl: string, original: seq<Event>, es: seq<Event>, p: Late)
    requires NewLine(nl) && SameShape(original, es) && Holds(original, p) && p.k + |p.bytes| <= |es|
    ensures SameShape(original, Replace(es, p))
    ensures Saved(nl, original, p) <= |Lines(nl, 0, es)|
    ensures Patch(Lines(nl, 0, es), Saved(nl, original, p), p.bytes) == Some(Lines(nl, 0, Replace(es, p)))
  {
    StillHolds(original, es, p);
    var before, held, after := es[..p.k], BytesOf(es, p.k, |p.bytes|), es[p.k + |p.bytes|..];
    assert es == before + Outputs(held) + after;
    ShapeLength(nl, 0, original[..p.k], before);
    Relisted(nl, before, held, p.bytes, after);
    assert Replace(es, p) == before + Outputs(p.bytes) + after;
  }

  lemma StillHolds(original: seq<Event>, es: seq<Event>, p: Late)
    requires SameShape(original, es) && Holds(original, p) && p.k + |p.bytes| <= |es|
    ensures Holds(es, p) && SameShape(original[..p.k], es[..p.k]) && SameShape(original, Replace(es, p))
  {
    var now := Replace(es, p);
    forall i | 0 <= i < |es| ensures original[i] == now[i] || (original[i].Output? && now[i].Output?) {
      assert original[i] == es[i] || (original[i].Output? && es[i].Output?);
    }
  }

  function ReplaceAll(es: seq<Event>, ps: seq<Late>): (r: seq<Event>)
    requires forall i :: 0 <= i < |ps| ==> ps[i].k + |ps[i].bytes| <= |es|
    ensures |r| == |es|
    decreases |ps|
  {
    if ps == [] then es else ReplaceAll(Replace(es, ps[0]), ps[1..])
  }

  /** Pass two on the listing, with the offsets saved in pass one. */
  function PatchAll(nl: string, original: seq<Event>, s: string, ps: seq<Late>): Option<string>
    requires forall i :: 0 <= i < |ps| ==> ps[i].k <= |original|
    decreases |ps|
  {
    if ps == [] then Some(s)
    else if Saved(nl, original, ps[0]) > |s| then None
    else
      match Patch(s, Saved(nl, original, ps[0]), ps[0].bytes)
      case None => None
      case Some(s') => PatchAll(nl, original, s', ps[1..])
  }

  /** The saved offsets stay valid through all patches, the listing keeps its length, and in the end it
      is the listing of a run that wrote the final bytes at once. */
  lemma {:induction false} PatchedListing(nl: string, original: seq<Event>, es: seq<Event>, ps: seq<Late>)
    requires NewLine(nl) && SameShape(original, es)
    requires forall i :: 0 <= i < |ps| ==> ps[i].k + |ps[i].bytes| <= |original| && Holds(original, ps[i])
    ensures PatchAll(nl, original, Lines(nl, 0, es), ps) == Some(Lines(nl, 0, ReplaceAll(es, ps)))
    ensures |Lines(nl, 0, ReplaceAll(es, ps))| == |Lines(nl, 0, original)|
    decreases |ps|
  {
    if ps == [] {
      ShapeLength(nl, 0, original, es);
    } else {
      assert Holds(original, ps[0]);
      PatchOne(nl, original, es, ps[0]);
      PatchedListing(nl, original, Replace(es, ps[0]), ps[1..]);
    }
  }

  // ---------- the listing shows the image ----------

  /** The bytes whose columns are in the listing. */
  function Listed(es: seq<Event>): seq<byte> {
    if es == [] then [] else (if es[0].Output? then [es[0].b] else []) + Listed(es[1..])
  }

  lemma {:induction false} ListedAppend(a: seq<Event>, b: seq<Event>)
    ensures Listed(a + b) == Listed(a) + Listed(b)
    decreases |a|
  {
    if a == [] {
      assert a + b == b;
    } else {
      assert (a + b)[1..] == a[1..] + b;
      ListedAppend(a[1..], b);
      Reassociate(if a[0].Output? then [a[0].b] else [], Listed(a[1..]), Listed(b));
    }
  }

  lemma {:induction false} ListedOutputs(bytes: seq<byte>)
    ensures Listed(Outputs(bytes)) == bytes
    decreases |bytes|
  {
    if bytes != [] {
      ListedOutputs(bytes[1..]);
      assert Outputs(bytes)[1..] == Outputs(bytes[1..]);
    }
  }

  lemma {:induction false} ShapeListed(a: seq<Event>, b: seq<Event>)
    requires SameShape(a, b)
    ensures |Listed(a)| == |Listed(b)|
    decreases |a|
  {
    if a != [] {
      assert a[0] == b[0] || (a[0].Output? && b[0].Output?);
      ShapeListed(a[1..], b[1..]);
    }
  }

  /** The event of the byte at a place of the output. */
  function Place(es: seq<Event>, at: nat): (k: nat)
    ensures k <= |es|
  {
    if es == [] then 0
    else if !es[0].Output? then 1 + Place(es[1..], at)
    else if at == 0 then 0
    else 1 + Place(es[1..], at - 1)
  }

  lemma {:induction false} PlaceIs(es: seq<Event>, at: nat)
    requires at <= |Listed(es)|
    ensures |Listed(es[..Place(es, at)])| == at
    decreases |es|
  {
    if es != [] {
      var k := Place(es, at);
      if !es[0].Output? {
        PlaceIs(es[1..], at);
      } else if at > 0 {
        PlaceIs(es[1..], at - 1);
      }
      if k > 0 { assert es[..k][1..] == es[1..][..k - 1]; }
    }
  }

  /** The patch of a put-off operand as the listing sees it. */
  function LateOf(m: TwoPass.Machine, t: TwoPass.Tables, es: seq<Event>, p: TwoPass.Pending): Late {
    Late(Place(es, p.at), TwoPass.LateBytes(m, t, p).bytes)
  }

  function Lates(m: TwoPass.Machine, t: TwoPass.Tables, es: seq<Event>, ps: seq<TwoPass.Pending>): (r: seq<Late>)
    ensures |r| == |ps|
  {
    seq(|ps|, i requires 0 <= i < |ps| => LateOf(m, t, es, ps[i]))
  }

  /** The columns of every operand put off stand together, as its bytes are written in one go. */
  ghost predicate Together(es: seq<Event>, ps: seq<TwoPass.Pending>) {
    forall i :: 0 <= i < |ps| ==> HoldsAt(es, Place(es, ps[i].at), TwoPass.Width(ps[i].kind))
  }

  ghost predicate HoldsAt(es: seq<Event>, k: nat, n: nat) {
    k + n <= |es| && forall i :: k <= i < k + n ==> es[i].Output?
  }

  lemma ReplacedListed(es: seq<Event>, p: Late)
    requires Holds(es, p)
    ensures var at := |Listed(es[..p.k])|;
      at + |p.bytes| <= |Listed(es)| && Listed(Replace(es, p)) == Overwrite(Listed(es), at, p.bytes)
  {
    var a, held, c := es[..p.k], BytesOf(es, p.k, |p.bytes|), es[p.k + |p.bytes|..];
    assert es == a + Outputs(held) + c && Replace(es, p) == a + Outputs(p.bytes) + c;
    ListedAround(a, held, c);
    ListedAround(a, p.bytes, c);
    OverwriteInner(Listed(a), held, p.bytes, Listed(c));
  }

  lemma ListedAround(a: seq<Event>, bytes: seq<byte>, c: seq<Event>)
    ensures Listed(a + Outputs(bytes) + c) == Listed(a) + (bytes + Listed(c))
  {
    Reassociate(a, Outputs(bytes), c);
    ListedAppend(a, Outputs(bytes) + c);
    ListedAppend(Outputs(bytes), c);
    ListedOutputs(bytes);
  }

  lemma {:induction false} ReplaceLast(es: seq<Event>, ps: seq<Late>, p: Late)
    requires (forall i :: 0 <= i < |ps| ==> ps[i].k + |ps[i].bytes| <= |es|) && p.k + |p.bytes| <= |es|
    ensures forall i :: 0 <= i < |ps + [p]| ==> (ps + [p])[i].k + |(ps + [p])[i].bytes| <= |es|
    ensures ReplaceAll(es, ps + [p]) == Replace(ReplaceAll(es, ps), p)
    decreases |ps|
  {
    if ps == [] {
      assert ps + [p] == [p] && [p][1..] == [];
    } else {
      assert (ps + [p])[1..] == ps[1..] + [p];
      ReplaceLast(Replace(es, ps[0]), ps[1..], p);
    }
  }

  /** The patches stay within the listing. */
  lemma LatesFit(m: TwoPass.Machine, t: TwoPass.Tables, es: seq<Event>, ps: seq<TwoPass.Pending>)
    requires Together(es, ps)
    ensures forall i :: 0 <= i < |ps| ==> LateOf(m, t, es, ps[i]).k + |LateOf(m, t, es, ps[i]).bytes| <= |es|
    ensures forall i :: 0 <= i < |ps| ==> Holds(es, LateOf(m, t, es, ps[i]))
  {
    forall i | 0 <= i < |ps| ensures Holds(es, LateOf(m, t, es, ps[i])) {
      assert HoldsAt(es, Place(es, ps[i].at), TwoPass.Width(ps[i].kind));
      TwoPass.LateFits(m, t, ps[i]);
    }
  }

  /** If the listing of pass one lists the output, the listing with all patches lists the patched image. */
  lemma {:induction false} ListingShowsImage(m: TwoPass.Machine, t: TwoPass.Tables, es: seq<Event>,
                                             ps: seq<TwoPass.Pending>)
    requires TwoPass.Fits(Listed(es), ps) && Together(es, ps) && TwoPass.Patched(m, t, Listed(es), ps).Some?
    ensures forall i :: 0 <= i < |ps| ==> Lates(m, t, es, ps)[i].k + |Lates(m, t, es, ps)[i].bytes| <= |es|
    ensures SameShape(es, ReplaceAll(es, Lates(m, t, es, ps)))
    ensures Some(Listed(ReplaceAll(es, Lates(m, t, es, ps)))) == TwoPass.Patched(m, t, Listed(es), ps)
    decreases |ps|
  {
    LatesFit(m, t, es, ps);
    if ps != [] {
      var last, rest := ps[|ps| - 1], ps[..|ps| - 1];
      var p, before := LateOf(m, t, es, last), Lates(m, t, es, rest);
      ListingShowsImage(m, t, es, rest);
      assert Lates(m, t, es, ps) == before + [p];
      ReplaceLast(es, before, p);
      LastShown(m, t, es, ReplaceAll(es, before), last);
    }
  }

  lemma LastShown(m: TwoPass.Machine, t: TwoPass.Tables, es: seq<Event>, now: seq<Event>, last: TwoPass.Pending)
    requires SameShape(es, now) && last.at + TwoPass.Width(last.kind) <= |Listed(es)|
    requires HoldsAt(es, Place(es, last.at), TwoPass.Width(last.kind)) && TwoPass.LateBytes(m, t, last).ok
    ensures var p := LateOf(m, t, es, last);
      && p.k + |p.bytes| <= |es| && SameShape(es, Replace(now, p))
      && last.at + |p.bytes| <= |Listed(now)| && Listed(Replace(now, p)) == Overwrite(Listed(now), last.at, p.bytes)
  {
    var p := LateOf(m, t, es, last);
    TwoPass.LateFits(m, t, last);
    StillHolds(es, now, p);
    ReplacedListed(now, p);
    PlaceIs(es, last.at);
    ShapeListed(es[..p.k], now[..p.k]);
  }

  /** After pass two the listing is one that a run writing the patched image at once would have got. */
  lemma ListingOfImage(nl: string, m: TwoPass.Machine, t: TwoPass.Tables, es: seq<Event>, ps: seq<TwoPass.Pending>)
    requires NewLine(nl) && TwoPass.Fits(Listed(es), ps) && Together(es, ps)
    requires TwoPass.Patched(m, t, Listed(es), ps).Some?
    ensures var late := Lates(m, t, es, ps);
      && (forall i :: 0 <= i < |ps| ==> late[i].k + |late[i].bytes| <= |es|)
      && PatchAll(nl, es, Lines(nl, 0, es), late) == Some(Lines(nl, 0, ReplaceAll(es, late)))
      && Some(Listed(ReplaceAll(es, late))) == TwoPass.Patched(m, t, Listed(es), ps)
  {
    LatesFit(m, t, es, ps);
    ListingShowsImage(m, t, es, ps);
    PatchedListing(nl, es, es, Lates(m, t, es, ps));
  }

  // ---------- the listing of a program ----------

  /** What is listed in front of the columns of a statement and behind them: line numbers, the text of
      lines, and the dashes of columns that are not used. */
  datatype Note = Note(front: seq<Event>, back: seq<Event>)

  predicate TextOnly(es: seq<Event>) {
    forall i :: 0 <= i < |es| ==> es[i].Other?
  }

  predicate Texts(notes: seq<Note>) {
    forall i :: 0 <= i < |notes| ==> TextOnly(notes[i].front) && TextOnly(notes[i].back)
  }

  /** The listing of pass one over some statements, with the columns of every byte they write. */
  function ListRun(m: TwoPass.Machine, st: TwoPass.State, es: seq<Event>, ss: seq<TwoPass.Stmt>,
      notes: seq<Note>): seq<Event>
    requires |notes| == |ss| && forall s :: s in ss ==> TwoPass.Matched(s)
    decreases |ss|
  {
    if ss == [] then es
    else
      var st1 := TwoPass.Exec(m, TwoPass.FirstPass(m), st, ss[0]);
      TwoPass.ExecExtends(m, st, ss[0]);
      ListRun(m, st1, es + ListStep(st1.out[|st.out|..], notes[0]), ss[1..], notes[1..])
  }

  function ListStep(bytes: seq<byte>, note: Note): seq<Event> {
    note.front + (Outputs(bytes) + note.back)
  }

  lemma {:induction false} NoneListed(es: seq<Event>)
    requires TextOnly(es)
    ensures Listed(es) == []
    decreases |es|
  {
    if es != [] { NoneListed(es[1..]); }
  }

  lemma StepListed(bytes: seq<byte>, note: Note)
    requires TextOnly(note.front) && TextOnly(note.back)
    ensures Listed(ListStep(bytes, note)) == bytes
  {
    ListedAppend(note.front, Outputs(bytes) + note.back);
    ListedAppend(Outputs(bytes), note.back);
    ListedOutputs(bytes);
    NoneListed(note.front);
    NoneListed(note.back);
  }

  /** The place of a byte does not depend on what comes later. */
  lemma {:induction false} PlaceStays(a: seq<Event>, b: seq<Event>, at: nat)
    requires at < |Listed(a)|
    ensures Place(a + b, at) == Place(a, at)
    decreases |a|
  {
    assert (a + b)[0] == a[0] && (a + b)[1..] == a[1..] + b;
    if !a[0].Output? {
      PlaceStays(a[1..], b, at);
    } else if at > 0 {
      PlaceStays(a[1..], b, at - 1);
    }
  }

  lemma {:induction false} PlaceBehind(a: seq<Event>, b: seq<Event>, at: nat)
    requires |Listed(a)| <= at < |Listed(a)| + |Listed(b)|
    ensures Place(a + b, at) == |a| + Place(b, at - |Listed(a)|)
    decreases |a|
  {
    if a == [] {
      assert a + b == b;
    } else {
      assert (a + b)[0] == a[0] && (a + b)[1..] == a[1..] + b;
      PlaceBehind(a[1..], b, if a[0].Output? then at - 1 else at);
    }
  }

  lemma {:induction false} PlaceOutput(bytes: seq<byte>, at: nat)
    requires at < |bytes|
    ensures Place(Outputs(bytes), at) == at
    decreases |bytes|
  {
    assert Outputs(bytes)[1..] == Outputs(bytes[1..]);
    if at > 0 { PlaceOutput(bytes[1..], at - 1); }
  }

  /** The bytes of a statement stand side by side. */
  lemma PlaceInStep(bytes: seq<byte>, note: Note, at: nat, n: nat)
    requires TextOnly(note.front) && at + n <= |bytes| && n > 0
    ensures HoldsAt(ListStep(bytes, note), Place(ListStep(bytes, note), at), n)
  {
    var a, c := note.front, note.back;
    NoneListed(a);
    ListedAppend(Outputs(bytes), c);
    ListedOutputs(bytes);
    PlaceBehind(a, Outputs(bytes) + c, at);
    PlaceStays(Outputs(bytes), c, at);
    PlaceOutput(bytes, at);
  }

  lemma {:induction false} ListRunIs(m: TwoPass.Machine, st: TwoPass.State, es: seq<Event>, ss: seq<TwoPass.Stmt>,
                                     notes: seq<Note>)
    requires |notes| == |ss| && (forall s :: s in ss ==> TwoPass.Matched(s)) && Texts(notes)
    requires Listed(es) == st.out && Together(es, st.pending) && TwoPass.Fits(st.out, st.pending)
    ensures var st', es' := TwoPass.Run(m, TwoPass.FirstPass(m), st, ss), ListRun(m, st, es, ss, notes);
      Listed(es') == st'.out && Together(es', st'.pending) && TwoPass.Fits(st'.out, st'.pending)
    decreases |ss|
  {
    if ss != [] {
      var st1 := TwoPass.Exec(m, TwoPass.FirstPass(m), st, ss[0]);
      TwoPass.ExecExtends(m, st, ss[0]);
      StepIsListed(st, st1, es, notes[0]);
      ListRunIs(m, st1, es + ListStep(st1.out[|st.out|..], notes[0]), ss[1..], notes[1..]);
    }
  }

  lemma StepIsListed(st: TwoPass.State, st1: TwoPass.State, es: seq<Event>, note: Note)
    requires TwoPass.Extends(st, st1) && TextOnly(note.front) && TextOnly(note.back)
    requires Listed(es) == st.out && Together(es, st.pending) && TwoPass.Fits(st.out, st.pending)
    ensures var es1 := es + ListStep(st1.out[|st.out|..], note);
      Listed(es1) == st1.out && Together(es1, st1.pending) && TwoPass.Fits(st1.out, st1.pending)
  {
    var bytes := st1.out[|st.out|..];
    StepListed(bytes, note);
    ListedAppend(es, ListStep(bytes, note));
    assert st.out + bytes == st1.out;
    forall k | 0 <= k < |st1.pending|
      ensures HoldsAt(es + ListStep(bytes, note), Place(es + ListStep(bytes, note), st1.pending[k].at),
                      TwoPass.Width(st1.pending[k].kind))
      ensures st1.pending[k].at + TwoPass.Width(st1.pending[k].kind) <= |st1.out|
    {
      var p := st1.pending[k];
      if k < |st.pending| {
        assert p == st.pending[k];
        StaysTogether(es, ListStep(bytes, note), p);
      } else {
        ComesTogether(es, bytes, note, p);
      }
    }
  }

  lemma StaysTogether(es: seq<Event>, step: seq<Event>, p: TwoPass.Pending)
    requires HoldsAt(es, Place(es, p.at), TwoPass.Width(p.kind)) && p.at + TwoPass.Width(p.kind) <= |Listed(es)|
    ensures HoldsAt(es + step, Place(es + step, p.at), TwoPass.Width(p.kind))
  {
    PlaceStays(es, step, p.at);
  }

  lemma ComesTogether(es: seq<Event>, bytes: seq<byte>, note: Note, p: TwoPass.Pending)
    requires TextOnly(note.front) && TextOnly(note.back)
    requires TwoPass.StandsIn(p, |Listed(es)|, |Listed(es)| + |bytes|)
    ensures HoldsAt(es + ListStep(bytes, note), Place(es + ListStep(bytes, note), p.at), TwoPass.Width(p.kind))
  {
    StepListed(bytes, note);
    PlaceBehind(es, ListStep(bytes, note), p.at);
    PlaceInStep(bytes, note, p.at - |Listed(es)|, TwoPass.Width(p.kind));
  }

  /** For every program that assembles without an error: the listing written in pass one, patched from the
      queue in pass two, lists the image. */
  lemma ListingOfProgram(nl: string, m: TwoPass.Machine, ss: seq<TwoPass.Stmt>, notes: seq<Note>)
    requires NewLine(nl) && |notes| == |ss| && (forall s :: s in ss ==> TwoPass.Matched(s)) && Texts(notes)
    ensures var st := TwoPass.Run(m, TwoPass.FirstPass(m), TwoPass.START, ss);
      var t := TwoPass.TablesOf(st);
      var es := ListRun(m, TwoPass.START, [], ss, notes);
      && TwoPass.Queued(st)
      && (TwoPass.Good(m, t, st) ==> Shows(nl, m, t, es, st.pending, TwoPass.Patched(m, t, st.out, st.pending).value))
  {
    var st := TwoPass.Run(m, TwoPass.FirstPass(m), TwoPass.START, ss);
    var t := TwoPass.TablesOf(st);
    ListRunIs(m, TwoPass.START, [], ss, notes);
    if TwoPass.Good(m, t, st) {
      ListingOfImage(nl, m, t, ListRun(m, TwoPass.START, [], ss, notes), st.pending);
    }
  }

  /** All patches succeed, and the listing becomes that of events whose bytes are the image. */
  ghost predicate Shows(nl: string, m: TwoPass.Machine, t: TwoPass.Tables, es: seq<Event>, ps: seq<TwoPass.Pending>,
                        image: seq<byte>)
  {
    var late := Lates(m, t, es, ps);
    && (forall i :: 0 <= i < |ps| ==> late[i].k + |late[i].bytes| <= |es|)
    && PatchAll(nl, es, Lines(nl, 0, es), late) == Some(Lines(nl, 0, ReplaceAll(es, late)))
    && Listed(ReplaceAll(es, late)) == image
  }

  // ---------- the code ----------

  class ListingBuffer {
    const nl: string
    var text: string
    var offset: nat
    var width: nat

    constructor (nl: string)
      ensures this.nl == nl && text == "" && offset == 0 && width == 0
    {
      this.nl, text, offset, width := nl, "", 0, 0;
    }

    /** Pass one inserts at the offset, which stays at the end. */
    method Insert(t: string)
      requires offset == |text|
      modifies this`text, this`offset
      ensures text == old(text) + t && offset == |text|
    {
      text := text[..offset] + t + text[offset..];
      offset := offset + |t|;
    }

    /** The listing part of write_out in pass one. */
    method ListByte(b: byte)
      requires offset == |text|
      modifies this
      ensures offset == |text| && text == old(text) + Written(nl, old(width), Output(b))
      ensures width == NextWidth(old(width), Output(b))
    {
      if width >= COLUMNS {
        width := 0;
        Insert(Margin(nl));
        Reassociate(old(text), Margin(nl), Column(b));
      }
      Insert(Column(b));
      width := width + 1;
    }

    /** A run of pass one. */
    method ListAll(es: seq<Event>)
      requires offset == |text|
      modifies this
      ensures offset == |text| && text == old(text) + Lines(nl, old(width), es)
    {
      var i := 0;
      assert es[0..] == es;
      while i < |es|
        invariant 0 <= i <= |es| && offset == |text|
        invariant text + Lines(nl, width, es[i..]) == old(text) + Lines(nl, old(width), es)
      {
        ghost var before, w := text, Written(nl, width, es[i]);
        ghost var rest := Lines(nl, NextWidth(width, es[i]), es[i + 1..]);
        assert es[i..][1..] == es[i + 1..];
        Reassociate(before, w, rest);
        match es[i] {
          case Output(b) => ListByte(b);
          case Other(t, after) => Insert(t); width := after;
        }
        assert text == before + w;
        i := i + 1;
      }
    }

    /** The listing part of write_out in pass two. */
    method OverwriteByte(b: byte)
      requires offset <= |text| && ColumnAt(text, offset) + 3 <= |text|
      modifies this
      ensures text == Overwrite(old(text), ColumnAt(old(text), old(offset)), Column(b))
      ensures offset == ColumnAt(old(text), old(offset)) + 3
    {
      if offset < |text| && LineBreak(text[offset]) {
        while offset < |text| && Space(text[offset])
          invariant offset <= |text| && text == old(text)
          invariant SkipSpaces(text, offset) == SkipSpaces(old(text), old(offset))
        {
          offset := offset + 1;
        }
      }
      text := Overwrite(text, offset, Column(b));
      offset := offset + 3;
      width := width + 1;
    }

    /** One argument of pass two, from the offset saved for it. */
    method PatchArgument(saved: nat, bytes: seq<byte>)
      requires saved <= |text| && Patch(text, saved, bytes).Some?
      modifies this
      ensures Patch(old(text), saved, bytes) == Some(text)
    {
      offset := saved;
      var i := 0;
      assert bytes[0..] == bytes;
      while i < |bytes|
        invariant 0 <= i <= |bytes| && offset <= |text|
        invariant Patch(text, offset, bytes[i..]) == Patch(old(text), saved, bytes)
      {
        assert bytes[i..][1..] == bytes[i + 1..];
        OverwriteByte(bytes[i]);
        i := i + 1;
      }
    }

    /** The arguments of pass two, in the order of the list. */
    method PatchList(offsets: seq<nat>, ps: seq<Late>, ghost original: seq<Event>)
      requires NewLine(nl) && text == Lines(nl, 0, original) && |offsets| == |ps|
      requires forall i :: 0 <= i < |ps| ==> ps[i].k + |ps[i].bytes| <= |original| && Holds(original, ps[i])
      requires forall i :: 0 <= i < |ps| ==> offsets[i] == Saved(nl, original, ps[i])
      modifies this
      ensures text == Lines(nl, 0, ReplaceAll(original, ps))
    {
      ghost var es := original;
      var i := 0;
      assert ps[0..] == ps;
      while i < |ps|
        invariant 0 <= i <= |ps| && SameShape(original, es) && text == Lines(nl, 0, es)
        invariant ReplaceAll(es, ps[i..]) == ReplaceAll(original, ps)
      {
        assert ps[i..][1..] == ps[i + 1..] && Holds(original, ps[i]);
        PatchOne(nl, original, es, ps[i]);
        PatchArgument(offsets[i], ps[i].bytes);
        es := Replace(es, ps[i]);
        i := i + 1;
      }
    }
  }
}
