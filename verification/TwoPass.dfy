/** Two-pass assembly: pass one leaves placeholders for operands it cannot evaluate yet, pass two
    writes them when all labels are known. */
module TwoPass {
  import opened Bytes
  import opened Arithmetic
  import opened Scanner

  // ---------- arguments ----------

  datatype ArgType = Num8 | Num16 | AddrOffset | IndexOffset | BitNum | Rst

  function LowByte(v: int): byte {
    v % 256
  }

  /** The bytes write_arg writes, and whether it reports no error. */
  datatype Written = Written(bytes: seq<byte>, ok: bool)

  predicate RestartAddress(v: int) {
    v in [0x00, 0x08, 0x10, 0x18, 0x20, 0x28, 0x30, 0x38]
  }

  function OrByte(a: nat, b: byte): byte {
    LowByte(Bitwise(Either, a, b, 8))
  }

  function ArgBytes(v: int, kind: ArgType, orValue: byte, pc: int): Written {
    match kind
    case Num8 => Written([LowByte(v)], true)
    case Num16 => Written([LowByte(v), LowByte(v / 256)], true)
    case AddrOffset => SmallOffset(v % 0x10000 - (pc % 0x10000 + 2))
    case IndexOffset => SmallOffset(v)
    case BitNum => if 0 <= v <= 7 then Written([OrByte(8 * v, orValue)], true) else Written([OrByte(0, orValue)], false)
    case Rst => if RestartAddress(v) then Written([LowByte(v + 0xC7)], true) else Written([], false)
  }

  function SmallOffset(d: int): Written {
    if -128 <= d <= 127 then Written([LowByte(d)], true) else Written([0], false)
  }

  /** How many bytes an argument takes. */
  function Width(kind: ArgType): nat {
    if kind.Num16? then 2 else 1
  }

  lemma ArgWidth(v: int, kind: ArgType, orValue: byte, pc: int)
    ensures var w := ArgBytes(v, kind, orValue, pc); w.ok || !kind.Rst? ==> |w.bytes| == Width(kind)
  {
  }

  // ---------- states ----------

  /** An expression put off to pass two, with everything it is evaluated and written with. */
  datatype Pending = Pending(pc: int, current: nat, at: nat, kind: ArgType, orValue: byte, text: string)

  /** program_counter, the output, the labels, the local labels, the list for pass two, and whether
      no error has been reported. In pass one curr_reusable is the number of local labels. */
  datatype State = State(pc: int, out: seq<byte>, labels: map<string, int>, locals: seq<int>,
                         pending: seq<Pending>, ok: bool)

  /** How expressions are evaluated and expanded, and under which name a label is stored. */
  datatype Machine = Machine(parse: (Env, string) -> Outcome, expand: (map<string, int>, string) -> string,
                             fold: string -> string)

  function Lookup(labels: map<string, int>): string -> Option<int> {
    name => if name in labels then Some(labels[name]) else None
  }

  function EnvAt(labels: map<string, int>, locals: seq<int>, pc: int, current: nat): Env {
    Env(Lookup(labels), _ => false, pc, locals, current, MATH_DEFS)
  }

  function EnvOf(st: State): Env {
    EnvAt(st.labels, st.locals, st.pc, |st.locals|)
  }

  function Put(st: State, w: Written): State {
    st.(out := st.out + w.bytes, ok := st.ok && w.ok)
  }

  function Fail(st: State): State {
    st.(ok := false)
  }

  function Advance(st: State, n: int): State {
    st.(pc := Wrap(st.pc + n))
  }

  // ---------- add_pass_two_expr ----------

  /** Errors that leave an expression to pass two. */
  predicate PutsOff(e: Error) {
    e == LabelNotFound || e == LocalForwardRef
  }

  /** An index offset may be blank, and a plus in front of it is not part of the expression. */
  predicate BlankOffset(kind: ArgType, text: string) {
    kind.IndexOffset? && text == ""
  }

  function Trim(kind: ArgType, text: string): string {
    if kind.IndexOffset? && text != "" && text[0] == '+' then text[1..] else text
  }

  function Later(m: Machine, st: State, kind: ArgType, orValue: byte, text: string): Pending {
    Pending(st.pc, |st.locals|, |st.out|, kind, orValue, m.expand(st.labels, text))
  }

  function Placeholder(st: State, kind: ArgType): Written {
    ArgBytes(0, if kind.AddrOffset? then Num8 else kind, 0, st.pc)
  }

  function Emit(m: Machine, st: State, kind: ArgType, orValue: byte, text: string): State {
    if BlankOffset(kind, text) then Put(st, ArgBytes(0, kind, 0, st.pc))
    else EmitText(m, st, kind, orValue, Trim(kind, text))
  }

  function EmitText(m: Machine, st: State, kind: ArgType, orValue: byte, t: string): State {
    match m.parse(EnvOf(st), t)
    case Done(v, _) => Put(st, ArgBytes(v, kind, orValue, st.pc))
    case Failed(e) =>
      if PutsOff(e) then Put(st.(pending := st.pending + [Later(m, st, kind, orValue, t)]), Placeholder(st, kind))
      else Fail(st)
  }

  // ---------- statements ----------

  /** An entry of an opcode's table: the letters of its arguments, its data, what follows the
      arguments, and its size. */
  datatype Opcode = Opcode(letters: string, data: seq<byte>, endData: Option<byte>, size: nat)

  datatype Item = Chars(bytes: seq<byte>) | Value(text: string)

  datatype Stmt =
    | Name(name: string)                      // a label of its own
    | LocalName                               // _
    | Equate(name: string, text: string)      // name = text
    | Org(text: string)
    | Data(kind: ArgType, items: seq<Item>)   // .db and .dw
    | Fill(size: string, value: Option<string>)
    | Instruction(op: Opcode, args: seq<string>)

  /** What writes an operand. */
  type Writer = (State, ArgType, byte, string) -> State

  function KindOf(letter: char): ArgType {
    match letter
    case '*' => Num16
    case '%' => AddrOffset
    case '@' => IndexOffset
    case '#' => Rst
    case _ => Num8
  }

  /** The arguments in their order; a bit number waits for the end data. */
  function WriteArgs(w: Writer, st: State, letters: string, args: seq<string>): State
    requires |letters| == |args|
    decreases |letters|
  {
    if letters == "" then st
    else WriteArgs(w, if letters[0] == '^' then st else w(st, KindOf(letters[0]), 0, args[0]), letters[1..], args[1..])
  }

  function BitText(letters: string, args: seq<string>): Option<string>
    requires |letters| == |args|
  {
    if letters == "" then None
    else
      var later := BitText(letters[1..], args[1..]);
      if later.Some? then later else if letters[0] == '^' then Some(args[0]) else None
  }

  function WriteInstruction(w: Writer, st: State, op: Opcode, args: seq<string>): State
    requires |op.letters| == |args|
  {
    var st1 := WriteArgs(w, Put(st, Written(Reverse(op.data), true)), op.letters, args);
    match op.endData
    case None => st1
    case Some(end) =>
      match BitText(op.letters, args)
      case None => Put(st1, Written([end], true))
      case Some(text) => w(st1, BitNum, end, text)
  }

  /** Whether an operand of .db or .dw is neither written nor put off. */
  predicate Rejected(m: Machine, st: State, text: string) {
    var r := m.parse(EnvOf(st), text);
    r.Failed? && !PutsOff(r.error)
  }

  function WriteItem(m: Machine, w: Writer, st: State, kind: ArgType, item: Item): State {
    match item
    case Chars(bytes) => Advance(Put(st, Written(bytes, true)), |bytes|)
    case Value(text) => if Rejected(m, st, text) then Fail(st) else Advance(w(st, kind, 0, text), Width(kind))
  }

  function WriteItems(m: Machine, w: Writer, st: State, kind: ArgType, items: seq<Item>): State
    decreases |items|
  {
    if items == [] then st else WriteItems(m, w, WriteItem(m, w, st, kind, items[0]), kind, items[1..])
  }

  /** A value that must be known in pass one; parse_num leaves zero on an error. */
  function Now(m: Machine, st: State, text: string): (int, bool) {
    match m.parse(EnvOf(st), text)
    case Done(v, _) => (v, true)
    case Failed(_) => (0, false)
  }

  function FillBytes(m: Machine, st: State, size: string, value: Option<string>): State {
    var (n, ok1) := Now(m, st, size);
    var (v, ok2) := if value.None? then (0, true) else Now(m, st, value.value);
    var st1 := st.(ok := st.ok && ok1 && ok2);
    if n < 0 then Fail(st1) else Put(Advance(st1, n), Written(Repeat(LowByte(v), n), true))
  }

  function SetOrigin(m: Machine, st: State, text: string): State {
    var (v, ok) := Now(m, st, text);
    if ok && v >= 0 then st.(pc := v) else Fail(st)
  }

  function SetLabel(m: Machine, st: State, name: string, v: int): State {
    st.(labels := st.labels[m.fold(name) := v])
  }

  function Assign(m: Machine, st: State, name: string, text: string): State {
    var st1 := SetLabel(m, st, name, st.pc);
    var (v, ok) := Now(m, st1, text);
    if ok then SetLabel(m, st1, name, v) else Fail(st1)
  }

  /** A statement as the matching of directives and arguments leaves it. */
  predicate Matched(s: Stmt) {
    && (s.Instruction? ==> |s.op.letters| == |s.args|)
    && (s.Data? ==> s.kind.Num8? || s.kind.Num16?)
  }

  function Exec(m: Machine, w: Writer, st: State, s: Stmt): State
    requires Matched(s)
  {
    match s
    case Name(name) => SetLabel(m, st, name, st.pc)
    case LocalName => st.(locals := st.locals + [st.pc])
    case Equate(name, text) => Assign(m, st, name, text)
    case Org(text) => SetOrigin(m, st, text)
    case Data(kind, items) => WriteItems(m, w, st, kind, items)
    case Fill(size, value) => FillBytes(m, st, size, value)
    case Instruction(op, args) => Advance(WriteInstruction(w, st, op, args), op.size)
  }

  function Run(m: Machine, w: Writer, st: State, ss: seq<Stmt>): State
    requires forall s :: s in ss ==> Matched(s)
    decreases |ss|
  {
    if ss == [] then st else Run(m, w, Exec(m, w, st, ss[0]), ss[1..])
  }

  /** run_first_pass writes operands with add_pass_two_expr. */
  function FirstPass(m: Machine): Writer {
    (st: State, kind: ArgType, orValue: byte, text: string) => Emit(m, st, kind, orValue, text)
  }

  // ---------- run_second_pass ----------

  /** The tables after pass one. */
  datatype Tables = Tables(labels: map<string, int>, locals: seq<int>)

  /** The value of a put-off expression and the bytes it is written with. A restart is looked up a
      second time with 0xC7 already added to it. */
  function LateBytes(m: Machine, t: Tables, p: Pending): Written {
    match m.parse(EnvAt(t.labels, t.locals, p.pc, p.current), p.text)
    case Failed(_) => Written([], false)
    case Done(v, _) =>
      if p.kind.Rst? then (if RestartAddress(v) then ArgBytes(v + 0xC7, Rst, p.orValue, p.pc) else Written([], false))
      else ArgBytes(v, p.kind, p.orValue, p.pc)
  }

  predicate Fits(image: seq<byte>, ps: seq<Pending>) {
    forall k :: 0 <= k < |ps| ==> ps[k].at + Width(ps[k].kind) <= |image|
  }

  lemma LateFits(m: Machine, t: Tables, p: Pending)
    ensures |LateBytes(m, t, p).bytes| <= Width(p.kind)
    ensures LateBytes(m, t, p).ok ==> |LateBytes(m, t, p).bytes| == Width(p.kind) && !p.kind.Rst?
  {
  }

  /** The image after the list has been gone through, or nothing if an error was reported. */
  function Patched(m: Machine, t: Tables, image: seq<byte>, ps: seq<Pending>): (r: Option<seq<byte>>)
    requires Fits(image, ps)
    ensures r.Some? ==> |r.value| == |image|
    decreases |ps|
  {
    if ps == [] then Some(image)
    else
      var p := ps[|ps| - 1];
      LateFits(m, t, p);
      match Patched(m, t, image, ps[..|ps| - 1])
      case None => None
      case Some(before) =>
        if LateBytes(m, t, p).ok then Some(Overwrite(before, p.at, LateBytes(m, t, p).bytes)) else None
  }

  /** A restart that is put off always ends in an error: its value is refused once 0xC7 is added. */
  lemma {:induction false} PutOffRestartFails(m: Machine, t: Tables, image: seq<byte>, ps: seq<Pending>, k: nat)
    requires Fits(image, ps) && k < |ps| && ps[k].kind.Rst?
    ensures Patched(m, t, image, ps) == None
    decreases |ps|
  {
    LateFits(m, t, ps[|ps| - 1]);
    if k < |ps| - 1 {
      PutOffRestartFails(m, t, image, ps[..|ps| - 1], k);
    }
  }

  // ---------- the reference ----------

  /** A single pass that knows what pass two will know: an operand that cannot be evaluated yet has
      the value its expanded text will have then. */
  function Resolve(m: Machine, t: Tables, st: State, text: string): Option<int> {
    match m.parse(EnvOf(st), text)
    case Done(v, _) => Some(v)
    case Failed(e) =>
      if !PutsOff(e) then None else
        match m.parse(EnvAt(t.labels, t.locals, st.pc, |st.locals|), m.expand(st.labels, text))
        case Done(v, _) => Some(v)
        case Failed(_) => None
  }

  function Direct(m: Machine, t: Tables, st: State, kind: ArgType, orValue: byte, text: string): State {
    if BlankOffset(kind, text) then Put(st, ArgBytes(0, kind, 0, st.pc))
    else DirectText(m, t, st, kind, orValue, Trim(kind, text))
  }

  function DirectText(m: Machine, t: Tables, st: State, kind: ArgType, orValue: byte, text: string): State {
    PutValue(st, Resolve(m, t, st, text), kind, orValue, st.pc)
  }

  function PutValue(st: State, v: Option<int>, kind: ArgType, orValue: byte, pc: int): State {
    if v.None? then Fail(st) else Put(st, ArgBytes(v.value, kind, orValue, pc))
  }

  function SinglePass(m: Machine, t: Tables): Writer {
    (st: State, kind: ArgType, orValue: byte, text: string) => Direct(m, t, st, kind, orValue, text)
  }

  // ---------- patching gives the reference ----------

  ghost predicate Queued(st: State) {
    Fits(st.out, st.pending)
  }

  ghost predicate Good(m: Machine, t: Tables, st: State)
    requires Queued(st)
  {
    st.ok && Patched(m, t, st.out, st.pending).Some?
  }

  predicate NoRestart(ps: seq<Pending>) {
    forall k :: 0 <= k < |ps| ==> !ps[k].kind.Rst?
  }

  /** Both go well together, unless a restart has been put off; and if all goes well, the reference
      stands where pass one stands, with its output patched. */
  ghost predicate Synced(m: Machine, t: Tables, st: State, ref: State)
    requires Queued(st)
  {
    && (Good(m, t, st) <==> ref.ok && NoRestart(st.pending))
    && (Good(m, t, st) ==> ref == st.(out := Patched(m, t, st.out, st.pending).value, pending := ref.pending))
  }

  /** Synced after a step, and whatever went wrong before is still wrong. */
  ghost predicate Follows(m: Machine, t: Tables, st: State, ref: State, st': State, ref': State)
    requires Queued(st)
  {
    && Queued(st') && Synced(m, t, st', ref') && st.pending <= st'.pending
    && (Good(m, t, st') ==> Good(m, t, st)) && (ref'.ok ==> ref.ok)
  }

  /** What is written behind the image does not disturb the patches. */
  lemma {:induction false} PatchedAppend(m: Machine, t: Tables, image: seq<byte>, more: seq<byte>, ps: seq<Pending>)
    requires Fits(image, ps)
    ensures Fits(image + more, ps)
    ensures var r := Patched(m, t, image, ps);
      Patched(m, t, image + more, ps) == if r.Some? then Some(r.value + more) else None
    decreases |ps|
  {
    if ps != [] {
      var p := ps[|ps| - 1];
      PatchedAppend(m, t, image, more, ps[..|ps| - 1]);
      LateFits(m, t, p);
      var r := Patched(m, t, image, ps[..|ps| - 1]);
      if r.Some? && LateBytes(m, t, p).ok {
        OverwriteAppend(r.value, p.at, LateBytes(m, t, p).bytes, more);
      }
    }
  }

  lemma OverwriteAppend(image: seq<byte>, at: nat, bytes: seq<byte>, more: seq<byte>)
    requires at + |bytes| <= |image|
    ensures Overwrite(image + more, at, bytes) == Overwrite(image, at, bytes) + more
  {
  }

  /** A placeholder at the end is overwritten exactly. */
  lemma OverwriteEnd(image: seq<byte>, held: seq<byte>, bytes: seq<byte>)
    requires |held| == |bytes|
    ensures Overwrite(image + held, |image|, bytes) == image + bytes
  {
  }

  lemma PutFollows(m: Machine, t: Tables, st: State, ref: State, w: Written)
    requires Queued(st) && Synced(m, t, st, ref)
    ensures Follows(m, t, st, ref, Put(st, w), Put(ref, w))
  {
    PatchedAppend(m, t, st.out, w.bytes, st.pending);
  }

  /** An expression put off reserves its bytes, and pass two overwrites exactly those. */
  lemma PutOffFollows(m: Machine, t: Tables, st: State, ref: State, p: Pending, held: Written)
    requires Queued(st) && Synced(m, t, st, ref)
    requires p.at == |st.out| && |held.bytes| == Width(p.kind) && held.ok
    ensures Follows(m, t, st, ref, Put(st.(pending := st.pending + [p]), held), Put(ref, LateBytes(m, t, p)))
  {
    var st' := Put(st.(pending := st.pending + [p]), held);
    var w := LateBytes(m, t, p);
    PatchedAppend(m, t, st.out, held.bytes, st.pending);
    assert Queued(st');
    assert st'.pending[..|st'.pending| - 1] == st.pending;
    LateFits(m, t, p);
    assert NoRestart(st'.pending) <==> NoRestart(st.pending) && !p.kind.Rst? by {
      assert st'.pending[|st.pending|] == p;
      assert forall k :: 0 <= k < |st.pending| ==> st'.pending[k] == st.pending[k];
    }
    var before := Patched(m, t, st.out, st.pending);
    if before.Some? && w.ok {
      OverwriteEnd(before.value, held.bytes, w.bytes);
    }
  }

  /** An operand, written or put off, keeps the queue in order and repairs nothing. */
  ghost predicate Keeps(m: Machine, t: Tables, st: State, st': State)
    requires Queued(st)
  {
    Queued(st') && st.pending <= st'.pending && (Good(m, t, st') ==> Good(m, t, st))
  }

  lemma PutKeeps(m: Machine, t: Tables, st: State, w: Written)
    requires Queued(st)
    ensures Keeps(m, t, st, Put(st, w))
  {
    PatchedAppend(m, t, st.out, w.bytes, st.pending);
  }

  lemma PutOffKeeps(m: Machine, t: Tables, st: State, p: Pending, held: Written)
    requires Queued(st) && p.at == |st.out| && |held.bytes| == Width(p.kind)
    ensures Keeps(m, t, st, Put(st.(pending := st.pending + [p]), held))
  {
    var st' := Put(st.(pending := st.pending + [p]), held);
    PatchedAppend(m, t, st.out, held.bytes, st.pending);
    assert st'.pending[..|st'.pending| - 1] == st.pending;
  }

  lemma TextKeeps(m: Machine, t: Tables, st: State, kind: ArgType, orValue: byte, text: string)
    requires Queued(st)
    ensures Keeps(m, t, st, EmitText(m, st, kind, orValue, text))
  {
    match m.parse(EnvOf(st), text) {
      case Done(v, _) => PutKeeps(m, t, st, ArgBytes(v, kind, orValue, st.pc));
      case Failed(e) =>
        if PutsOff(e) {
          PlaceholderFits(st, kind);
          PutOffKeeps(m, t, st, Later(m, st, kind, orValue, text), Placeholder(st, kind));
        }
    }
  }

  /** What has gone wrong before stays wrong. */
  lemma BadFollows(m: Machine, t: Tables, st: State, ref: State, st': State, ref': State)
    requires Queued(st) && Synced(m, t, st, ref) && !Good(m, t, st) && Keeps(m, t, st, st') && (ref'.ok ==> ref.ok)
    ensures Follows(m, t, st, ref, st', ref')
  {
    assert NoRestart(st'.pending) ==> NoRestart(st.pending) by {
      assert forall k :: 0 <= k < |st.pending| ==> st.pending[k] == st'.pending[k];
    }
  }

  lemma EmitFollows(m: Machine, t: Tables, st: State, ref: State, kind: ArgType, orValue: byte, text: string)
    requires Queued(st) && Synced(m, t, st, ref)
    ensures Follows(m, t, st, ref, Emit(m, st, kind, orValue, text), Direct(m, t, ref, kind, orValue, text))
  {
    if !BlankOffset(kind, text) {
      TextFollows(m, t, st, ref, kind, orValue, Trim(kind, text));
    } else if Good(m, t, st) {
      PutFollows(m, t, st, ref, ArgBytes(0, kind, 0, st.pc));
    } else {
      PutKeeps(m, t, st, ArgBytes(0, kind, 0, st.pc));
      BadFollows(m, t, st, ref, Put(st, ArgBytes(0, kind, 0, st.pc)), Put(ref, ArgBytes(0, kind, 0, ref.pc)));
    }
  }

  lemma TextFollows(m: Machine, t: Tables, st: State, ref: State, kind: ArgType, orValue: byte, text: string)
    requires Queued(st) && Synced(m, t, st, ref)
    ensures Follows(m, t, st, ref, EmitText(m, st, kind, orValue, text), DirectText(m, t, ref, kind, orValue, text))
  {
    if Good(m, t, st) {
      SameDirect(m, t, st, ref, kind, orValue, text);
      match m.parse(EnvOf(st), text) {
        case Done(v, _) => PutFollows(m, t, st, ref, ArgBytes(v, kind, orValue, st.pc));
        case Failed(e) => if PutsOff(e) { LaterFollows(m, t, st, ref, kind, orValue, text); }
      }
    } else {
      TextKeeps(m, t, st, kind, orValue, text);
      BadFollows(m, t, st, ref, EmitText(m, st, kind, orValue, text), DirectText(m, t, ref, kind, orValue, text));
    }
  }

  /** As long as all goes well the reference sees what pass one sees. */
  lemma SameDirect(m: Machine, t: Tables, st: State, ref: State, kind: ArgType, orValue: byte, text: string)
    requires Queued(st) && Synced(m, t, st, ref) && Good(m, t, st)
    ensures DirectText(m, t, ref, kind, orValue, text) == PutValue(ref, Resolve(m, t, st, text), kind, orValue, st.pc)
  {
    assert ref.labels == st.labels && ref.locals == st.locals && ref.pc == st.pc;
  }

  lemma LaterFollows(m: Machine, t: Tables, st: State, ref: State, kind: ArgType, orValue: byte, text: string)
    requires Queued(st) && Synced(m, t, st, ref) && Good(m, t, st)
    requires var r := m.parse(EnvOf(st), text); r.Failed? && PutsOff(r.error)
    ensures Follows(m, t, st, ref, EmitText(m, st, kind, orValue, text),
                    PutValue(ref, Resolve(m, t, st, text), kind, orValue, st.pc))
  {
    var p := Later(m, st, kind, orValue, text);
    PlaceholderFits(st, kind);
    PutOffFollows(m, t, st, ref, p, Placeholder(st, kind));
    LateIsResolved(m, t, st, kind, orValue, text);
  }

  lemma PlaceholderFits(st: State, kind: ArgType)
    ensures Placeholder(st, kind).ok && |Placeholder(st, kind).bytes| == Width(kind)
  {
  }

  /** Pass two gives a put-off operand the value the reference gives it; a restart it cannot write. */
  lemma LateIsResolved(m: Machine, t: Tables, st: State, kind: ArgType, orValue: byte, text: string)
    requires var r := m.parse(EnvOf(st), text); r.Failed? && PutsOff(r.error)
    ensures var w := LateBytes(m, t, Later(m, st, kind, orValue, text));
      var v := Resolve(m, t, st, text);
      if kind.Rst? then !w.ok else if v.None? then !w.ok else w == ArgBytes(v.value, kind, orValue, st.pc)
  {
  }

  lemma FollowsOn(m: Machine, t: Tables, a: State, ra: State, b: State, rb: State, c: State, rc: State)
    requires Queued(a) && Follows(m, t, a, ra, b, rb) && Follows(m, t, b, rb, c, rc)
    ensures Follows(m, t, a, ra, c, rc)
  {
  }

  lemma {:induction false} ArgsFollow(m: Machine, t: Tables, st: State, ref: State, letters: string, args: seq<string>)
    requires Queued(st) && Synced(m, t, st, ref) && |letters| == |args|
    ensures Follows(m, t, st, ref, WriteArgs(FirstPass(m), st, letters, args),
        WriteArgs(SinglePass(m, t), ref, letters, args))
    decreases |letters|
  {
    if letters != "" {
      if letters[0] == '^' {
        ArgsFollow(m, t, st, ref, letters[1..], args[1..]);
      } else {
        var kind := KindOf(letters[0]);
        var st1, ref1 := Emit(m, st, kind, 0, args[0]), Direct(m, t, ref, kind, 0, args[0]);
        EmitFollows(m, t, st, ref, kind, 0, args[0]);
        ArgsFollow(m, t, st1, ref1, letters[1..], args[1..]);
        FollowsOn(m, t, st, ref, st1, ref1, WriteArgs(FirstPass(m), st1, letters[1..], args[1..]),
            WriteArgs(SinglePass(m, t), ref1, letters[1..], args[1..]));
      }
    }
  }

  lemma InstructionFollows(m: Machine, t: Tables, st: State, ref: State, op: Opcode, args: seq<string>)
    requires Queued(st) && Synced(m, t, st, ref) && |op.letters| == |args|
    ensures Follows(m, t, st, ref, WriteInstruction(FirstPass(m), st, op, args),
        WriteInstruction(SinglePass(m, t), ref, op, args))
  {
    var w := Written(Reverse(op.data), true);
    PutFollows(m, t, st, ref, w);
    ArgsFollow(m, t, Put(st, w), Put(ref, w), op.letters, args);
    var st1 := WriteArgs(FirstPass(m), Put(st, w), op.letters, args);
    var ref1 := WriteArgs(SinglePass(m, t), Put(ref, w), op.letters, args);
    if op.endData.Some? {
      var bit := BitText(op.letters, args);
      if bit.None? {
        PutFollows(m, t, st1, ref1, Written([op.endData.value], true));
      } else {
        EmitFollows(m, t, st1, ref1, BitNum, op.endData.value, bit.value);
      }
    }
  }

  lemma ItemFollows(m: Machine, t: Tables, st: State, ref: State, kind: ArgType, item: Item)
    requires Queued(st) && Synced(m, t, st, ref)
    ensures Follows(m, t, st, ref, WriteItem(m, FirstPass(m), st, kind, item),
        WriteItem(m, SinglePass(m, t), ref, kind, item))
  {
    match item {
      case Chars(bytes) =>
        PutFollows(m, t, st, ref, Written(bytes, true));
        AdvanceFollows(m, t, st, ref, Put(st, Written(bytes, true)), Put(ref, Written(bytes, true)), |bytes|);
      case Value(text) =>
        var st1, ref1 := Emit(m, st, kind, 0, text), Direct(m, t, ref, kind, 0, text);
        EmitFollows(m, t, st, ref, kind, 0, text);
        AdvanceFollows(m, t, st, ref, st1, ref1, Width(kind));
    }
  }

  lemma AdvanceFollows(m: Machine, t: Tables, st: State, ref: State, st1: State, ref1: State, n: int)
    requires Queued(st) && Follows(m, t, st, ref, st1, ref1)
    ensures Follows(m, t, st, ref, Advance(st1, n), Advance(ref1, n))
  {
  }

  lemma {:induction false} ItemsFollow(m: Machine, t: Tables, st: State, ref: State, kind: ArgType, items: seq<Item>)
    requires Queued(st) && Synced(m, t, st, ref)
    ensures Follows(m, t, st, ref, WriteItems(m, FirstPass(m), st, kind, items),
        WriteItems(m, SinglePass(m, t), ref, kind, items))
    decreases |items|
  {
    if items != [] {
      var st1, ref1 := WriteItem(m, FirstPass(m), st, kind, items[0]),
        WriteItem(m, SinglePass(m, t), ref, kind, items[0]);
      ItemFollows(m, t, st, ref, kind, items[0]);
      ItemsFollow(m, t, st1, ref1, kind, items[1..]);
      FollowsOn(m, t, st, ref, st1, ref1, WriteItems(m, FirstPass(m), st1, kind, items[1..]),
          WriteItems(m, SinglePass(m, t), ref1, kind, items[1..]));
    }
  }

  lemma FillFollows(m: Machine, t: Tables, st: State, ref: State, size: string, value: Option<string>)
    requires Queued(st) && Synced(m, t, st, ref)
    ensures Follows(m, t, st, ref, FillBytes(m, st, size, value), FillBytes(m, ref, size, value))
  {
    var (n, ok1) := Now(m, st, size);
    var (v, ok2) := if value.None? then (0, true) else Now(m, st, value.value);
    if ok1 && ok2 && n >= 0 {
      PutFollows(m, t, Advance(st, n), Advance(ref, n), Written(Repeat(LowByte(v), n), true));
    }
  }

  lemma ExecFollows(m: Machine, t: Tables, st: State, ref: State, s: Stmt)
    requires Queued(st) && Synced(m, t, st, ref) && Matched(s)
    ensures Follows(m, t, st, ref, Exec(m, FirstPass(m), st, s), Exec(m, SinglePass(m, t), ref, s))
  {
    match s {
      case Data(kind, items) => ItemsFollow(m, t, st, ref, kind, items);
      case Fill(size, value) => FillFollows(m, t, st, ref, size, value);
      case Instruction(op, args) => InstructionFollows(m, t, st, ref, op, args);
      case _ =>
    }
  }

  lemma {:induction false} RunFollows(m: Machine, t: Tables, st: State, ref: State, ss: seq<Stmt>)
    requires Queued(st) && Synced(m, t, st, ref) && forall s :: s in ss ==> Matched(s)
    ensures Follows(m, t, st, ref, Run(m, FirstPass(m), st, ss), Run(m, SinglePass(m, t), ref, ss))
    decreases |ss|
  {
    if ss != [] {
      var st1, ref1 := Exec(m, FirstPass(m), st, ss[0]), Exec(m, SinglePass(m, t), ref, ss[0]);
      ExecFollows(m, t, st, ref, ss[0]);
      RunFollows(m, t, st1, ref1, ss[1..]);
      FollowsOn(m, t, st, ref, st1, ref1, Run(m, FirstPass(m), st1, ss[1..]), Run(m, SinglePass(m, t), ref1, ss[1..]));
    }
  }

  const START := State(0, [], map[], [], [], true)

  function TablesOf(st: State): Tables {
    Tables(st.labels, st.locals)
  }

  /** The two passes report no error exactly when the reference reports none and no restart was put
      off; and then the patched image is the one the reference writes in a single pass. */
  lemma TwoPassesAreOne(m: Machine, ss: seq<Stmt>)
    requires forall s :: s in ss ==> Matched(s)
    ensures var st := Run(m, FirstPass(m), START, ss);
      var t := TablesOf(st);
      var ref := Run(m, SinglePass(m, t), START, ss);
      && Queued(st) && (Good(m, t, st) <==> ref.ok && NoRestart(st.pending))
      && (Good(m, t, st) ==> Patched(m, t, st.out, st.pending) == Some(ref.out) && TablesOf(ref) == t)
  {
    var t := TablesOf(Run(m, FirstPass(m), START, ss));
    RunFollows(m, t, START, START, ss);
  }

  // ---------- the output grows at its end ----------

  /** Bytes are only added, and what is newly put off stands in them. */
  ghost predicate Extends(st: State, st': State) {
    && st.out <= st'.out && st.pending <= st'.pending
    && forall k :: |st.pending| <= k < |st'.pending| ==> StandsIn(st'.pending[k], |st.out|, |st'.out|)
  }

  predicate StandsIn(p: Pending, from: nat, to: nat) {
    from <= p.at && p.at + Width(p.kind) <= to
  }

  lemma ExtendsOn(a: State, b: State, c: State)
    requires Extends(a, b) && Extends(b, c)
    ensures Extends(a, c)
  {
    forall k | |a.pending| <= k < |c.pending| ensures StandsIn(c.pending[k], |a.out|, |c.out|) {
      if k < |b.pending| { assert c.pending[k] == b.pending[k]; }
    }
  }

  lemma EmitExtends(m: Machine, st: State, kind: ArgType, orValue: byte, text: string)
    ensures Extends(st, Emit(m, st, kind, orValue, text))
  {
    PlaceholderFits(st, kind);
  }

  lemma {:induction false} ArgsExtend(m: Machine, st: State, letters: string, args: seq<string>)
    requires |letters| == |args|
    ensures Extends(st, WriteArgs(FirstPass(m), st, letters, args))
    decreases |letters|
  {
    if letters != "" {
      var st1 := if letters[0] == '^' then st else Emit(m, st, KindOf(letters[0]), 0, args[0]);
      EmitExtends(m, st, KindOf(letters[0]), 0, args[0]);
      ArgsExtend(m, st1, letters[1..], args[1..]);
      ExtendsOn(st, st1, WriteArgs(FirstPass(m), st1, letters[1..], args[1..]));
    }
  }

  lemma InstructionExtends(m: Machine, st: State, op: Opcode, args: seq<string>)
    requires |op.letters| == |args|
    ensures Extends(st, WriteInstruction(FirstPass(m), st, op, args))
  {
    var st1 := Put(st, Written(Reverse(op.data), true));
    var st2 := WriteArgs(FirstPass(m), st1, op.letters, args);
    ArgsExtend(m, st1, op.letters, args);
    ExtendsOn(st, st1, st2);
    var bit := BitText(op.letters, args);
    if op.endData.Some? && bit.Some? {
      EmitExtends(m, st2, BitNum, op.endData.value, bit.value);
    }
    ExtendsOn(st, st2, WriteInstruction(FirstPass(m), st, op, args));
  }

  lemma {:induction false} ItemsExtend(m: Machine, st: State, kind: ArgType, items: seq<Item>)
    ensures Extends(st, WriteItems(m, FirstPass(m), st, kind, items))
    decreases |items|
  {
    if items != [] {
      var st1 := WriteItem(m, FirstPass(m), st, kind, items[0]);
      if items[0].Value? { EmitExtends(m, st, kind, 0, items[0].text); }
      ItemsExtend(m, st1, kind, items[1..]);
      ExtendsOn(st, st1, WriteItems(m, FirstPass(m), st1, kind, items[1..]));
    }
  }

  /** So does every statement of pass one. */
  lemma ExecExtends(m: Machine, st: State, s: Stmt)
    requires Matched(s)
    ensures Extends(st, Exec(m, FirstPass(m), st, s))
  {
    match s {
      case Data(kind, items) => ItemsExtend(m, st, kind, items);
      case Instruction(op, args) => InstructionExtends(m, st, op, args);
      case _ =>
    }
  }

  // ---------- output and program counter in step ----------

  function ArgsWidth(letters: string): nat {
    if letters == "" then 0 else (if letters[0] == '^' then 0 else Width(KindOf(letters[0]))) + ArgsWidth(letters[1..])
  }

  function EncodedSize(letters: string, data: nat, hasEnd: bool): nat {
    data + ArgsWidth(letters) + if hasEnd then 1 else 0
  }

  predicate Consistent(op: Opcode) {
    op.size == EncodedSize(op.letters, |op.data|, op.endData.Some?)
  }

  /** An opcode entry's argument letters, number of data bytes, end data and size. */
  datatype OpcodeShape = OpcodeShape(letters: string, data: nat, hasEnd: bool, size: nat)

  /** The shapes of all entries of the opcode tables. */
  const OPCODE_SHAPES: seq<OpcodeShape> := [
    OpcodeShape("", 1, false, 1), OpcodeShape("", 2, false, 2),
    OpcodeShape("@", 2, false, 3), OpcodeShape("@", 2, true, 4), OpcodeShape("@&", 2, false, 4),
    OpcodeShape("&", 1, false, 2), OpcodeShape("&", 2, false, 3),
    OpcodeShape("*", 1, false, 3), OpcodeShape("*", 2, false, 4),
    OpcodeShape("%", 1, false, 2), OpcodeShape("#", 0, false, 1),
    OpcodeShape("^", 1, true, 2), OpcodeShape("^@", 2, true, 4)]

  function ShapeOf(op: Opcode): OpcodeShape {
    OpcodeShape(op.letters, |op.data|, op.endData.Some?, op.size)
  }

  /** Every size field is the number of bytes the entry's data, arguments and end data take. */
  lemma OpcodeSizes(k: nat)
    requires k < |OPCODE_SHAPES|
    ensures var s := OPCODE_SHAPES[k]; s.size == EncodedSize(s.letters, s.data, s.hasEnd)
  {
    var s := OPCODE_SHAPES[k];
    if |s.letters| == 2 {
      assert s.letters[1..] == [s.letters[1]] && s.letters[1..][1..] == "";
    } else if |s.letters| == 1 {
      assert s.letters[1..] == "";
    }
  }

  /** So the size of an instruction with an entry of the tables is the number of bytes it takes. */
  lemma ListedConsistent(op: Opcode)
    requires ShapeOf(op) in OPCODE_SHAPES
    ensures Consistent(op)
  {
    var k :| 0 <= k < |OPCODE_SHAPES| && OPCODE_SHAPES[k] == ShapeOf(op);
    OpcodeSizes(k);
  }

  lemma EmitGrows(m: Machine, st: State, kind: ArgType, orValue: byte, text: string)
    ensures var st' := Emit(m, st, kind, orValue, text);
      st'.pc == st.pc && (st'.ok ==> st.ok && |st'.out| == |st.out| + Width(kind))
  {
    PlaceholderFits(st, kind);
    ArgWidth(0, kind, 0, st.pc);
    var r := m.parse(EnvOf(st), Trim(kind, text));
    if r.Done? { ArgWidth(r.value, kind, orValue, st.pc); }
  }

  lemma {:induction false} ArgsGrow(m: Machine, st: State, letters: string, args: seq<string>)
    requires |letters| == |args|
    ensures var st' := WriteArgs(FirstPass(m), st, letters, args);
      st'.pc == st.pc && (st'.ok ==> st.ok && |st'.out| == |st.out| + ArgsWidth(letters))
    decreases |letters|
  {
    if letters != "" {
      var kind := KindOf(letters[0]);
      EmitGrows(m, st, kind, 0, args[0]);
      ArgsGrow(m, if letters[0] == '^' then st else Emit(m, st, kind, 0, args[0]), letters[1..], args[1..]);
    }
  }

  lemma InstructionGrows(m: Machine, st: State, op: Opcode, args: seq<string>)
    requires |op.letters| == |args| && ShapeOf(op) in OPCODE_SHAPES
    ensures var st' := WriteInstruction(FirstPass(m), st, op, args);
      st'.pc == st.pc && (st'.ok ==> st.ok && |st'.out| == |st.out| + op.size)
  {
    var st1 := Put(st, Written(Reverse(op.data), true));
    ListedConsistent(op);
    ArgsGrow(m, st1, op.letters, args);
    var bit := BitText(op.letters, args);
    if op.endData.Some? && bit.Some? {
      EmitGrows(m, WriteArgs(FirstPass(m), st1, op.letters, args), BitNum, op.endData.value, bit.value);
    }
  }

  /** Output and program counter have advanced by the same amount, in 32 bits. */
  ghost predicate InStep(st: State, st': State) {
    st'.ok ==> st.ok && st'.pc == Wrap(st.pc + (|st'.out| - |st.out|))
  }

  lemma InStepOn(a: State, b: State, c: State)
    requires InStep(a, b) && InStep(b, c)
    ensures InStep(a, c)
  {
    WrapAdd(a.pc + (|b.out| - |a.out|), |c.out| - |b.out|);
  }

  lemma {:induction false} ItemsInStep(m: Machine, st: State, kind: ArgType, items: seq<Item>)
    requires Int32(st.pc)
    ensures InStep(st, WriteItems(m, FirstPass(m), st, kind, items))
    decreases |items|
  {
    if items != [] {
      var st1 := WriteItem(m, FirstPass(m), st, kind, items[0]);
      if items[0].Value? { EmitGrows(m, st, kind, 0, items[0].text); }
      ItemsInStep(m, st1, kind, items[1..]);
      InStepOn(st, st1, WriteItems(m, FirstPass(m), st1, kind, items[1..]));
    }
  }

  /** A statement that advances the output: not .org, and an instruction as the tables have it. */
  predicate Advancing(s: Stmt) {
    !s.Org? && (s.Instruction? ==> ShapeOf(s.op) in OPCODE_SHAPES)
  }

  lemma ExecInStep(m: Machine, st: State, s: Stmt)
    requires Matched(s) && Advancing(s) && Int32(st.pc)
    ensures InStep(st, Exec(m, FirstPass(m), st, s)) && Int32(Exec(m, FirstPass(m), st, s).pc)
  {
    match s {
      case Data(kind, items) => ItemsInStep(m, st, kind, items); ItemsPc(m, st, kind, items);
      case Instruction(op, args) => InstructionGrows(m, st, op, args);
      case _ =>
    }
  }

  lemma {:induction false} ItemsPc(m: Machine, st: State, kind: ArgType, items: seq<Item>)
    requires Int32(st.pc)
    ensures Int32(WriteItems(m, FirstPass(m), st, kind, items).pc)
    decreases |items|
  {
    if items != [] {
      if items[0].Value? { EmitGrows(m, st, kind, 0, items[0].text); }
      ItemsPc(m, WriteItem(m, FirstPass(m), st, kind, items[0]), kind, items[1..]);
    }
  }

  /** In every error-free run without .org the program counter advances with the output. */
  lemma {:induction false} RunInStep(m: Machine, st: State, ss: seq<Stmt>)
    requires (forall s :: s in ss ==> Matched(s) && Advancing(s)) && Int32(st.pc)
    ensures InStep(st, Run(m, FirstPass(m), st, ss))
    decreases |ss|
  {
    if ss != [] {
      var st1 := Exec(m, FirstPass(m), st, ss[0]);
      ExecInStep(m, st, ss[0]);
      RunInStep(m, st1, ss[1..]);
      InStepOn(st, st1, Run(m, FirstPass(m), st1, ss[1..]));
    }
  }

  // ---------- the code ----------

  /** Bytes stored from a place on, over what is there and behind it. */
  function Store(image: seq<byte>, at: nat, bytes: seq<byte>): seq<byte>
    requires at <= |image|
  {
    image[..at] + bytes + if at + |bytes| <= |image| then image[at + |bytes|..] else []
  }

  lemma StoreMore(image: seq<byte>, at: nat, bytes: seq<byte>, b: byte)
    requires at <= |image|
    ensures at + |bytes| <= |Store(image, at, bytes)|
    ensures Store(Store(image, at, bytes), at + |bytes|, [b]) == Store(image, at, bytes + [b])
  {
  }

  class Assembler {
    const m: Machine
    var pc: int
    var image: seq<byte>
    var outPtr: nat
    var labels: map<string, int>
    var locals: seq<int>
    var current: nat
    var exprList: seq<Pending>
    var ok: bool

    constructor (m: Machine)
      ensures this.m == m && InPassOne() && Abstract() == START
    {
      this.m := m;
      pc, image, outPtr, labels, locals, current, exprList, ok := 0, [], 0, map[], [], 0, [], true;
    }

    /** In pass one the output grows at its end, and the last local label is the current one. */
    ghost predicate InPassOne()
      reads this
    {
      outPtr == |image| && current == |locals|
    }

    ghost function Abstract(): State
      reads this
    {
      State(pc, image, labels, locals, exprList, ok)
    }

    /** write_out. */
    method WriteOut(b: byte)
      requires outPtr <= |image|
      modifies this`image, this`outPtr
      ensures image == Store(old(image), old(outPtr), [b]) && outPtr == old(outPtr) + 1
      ensures outPtr <= |image|
    {
      if outPtr < |image| {
        image := image[outPtr := b];
      } else {
        image := image + [b];
      }
      outPtr := outPtr + 1;
    }

    method WriteAll(bytes: seq<byte>)
      requires outPtr <= |image|
      modifies this`image, this`outPtr
      ensures image == Store(old(image), old(outPtr), bytes) && outPtr == old(outPtr) + |bytes|
      ensures outPtr <= |image|
    {
      var i := 0;
      assert Store(image, outPtr, []) == image;
      while i < |bytes|
        invariant 0 <= i <= |bytes| && outPtr == old(outPtr) + i && outPtr <= |image|
        invariant image == Store(old(image), old(outPtr), bytes[..i])
      {
        StoreMore(old(image), old(outPtr), bytes[..i], bytes[i]);
        assert bytes[..i + 1] == bytes[..i] + [bytes[i]];
        WriteOut(bytes[i]);
        i := i + 1;
      }
      assert bytes[..i] == bytes;
    }

    /** write_arg. */
    method WriteArg(value: int, kind: ArgType, orValue: byte)
      requires outPtr <= |image|
      modifies this`image, this`outPtr, this`ok
      ensures var w := ArgBytes(value, kind, orValue, pc);
        && image == Store(old(image), old(outPtr), w.bytes) && outPtr == old(outPtr) + |w.bytes|
        && outPtr <= |image| && ok == (old(ok) && w.ok)
    {
      var v := value;
      match kind {
        case Num8 =>
          WriteAll([LowByte(v)]);
        case Rst =>
          if RestartAddress(v) {
            WriteAll([LowByte(v + 0xC7)]);
          } else {
            ok := false;
            assert Store(image, outPtr, []) == image;
          }
        case Num16 =>
          WriteAll([LowByte(v), LowByte(v / 256)]);
        case AddrOffset =>
          v := v % 0x10000;
          v := v - (pc % 0x10000 + 2);
          if v < -128 || v > 127 {
            ok := false;
            v := 0;
          }
          WriteAll([LowByte(v)]);
        case IndexOffset =>
          if v > 127 || v < -128 {
            ok := false;
            v := 0;
          }
          WriteAll([LowByte(v)]);
        case BitNum =>
          if v < 0 || v > 7 {
            ok := false;
            v := 0;
          }
          WriteAll([OrByte(8 * v, orValue)]);
      }
    }

    /** add_pass_two_expr. */
    method AddPassTwoExpr(text: string, kind: ArgType, orValue: byte)
      requires InPassOne()
      modifies this`image, this`outPtr, this`ok, this`exprList
      ensures InPassOne() && Abstract() == Emit(m, old(Abstract()), kind, orValue, text)
    {
      var t := text;
      if kind == IndexOffset {
        if t == "" {
          WriteArg(0, IndexOffset, 0);
          return;
        } else if t[0] == '+' {
          t := t[1..];
        }
      }
      assert t == Trim(kind, text);
      WriteOrPutOff(t, kind, orValue);
    }

    /** The rest of it, for a text that is there. */
    method WriteOrPutOff(t: string, kind: ArgType, orValue: byte)
      requires InPassOne()
      modifies this`image, this`outPtr, this`ok, this`exprList
      ensures InPassOne() && Abstract() == EmitText(m, old(Abstract()), kind, orValue, t)
    {
      match m.parse(EnvAt(labels, locals, pc, current), t) {
        case Done(v, _) =>
          WriteArg(v, kind, orValue);
        case Failed(e) =>
          if PutsOff(e) {
            exprList := exprList + [Pending(pc, current, outPtr, kind, orValue, m.expand(labels, t))];
            WriteArg(0, if kind == AddrOffset then Num8 else kind, 0);
          } else {
            ok := false;
          }
      }
    }

    /** The instruction's data, from the last byte of the table entry to the first. */
    method WriteData(data: seq<byte>)
      requires InPassOne()
      modifies this`image, this`outPtr
      ensures InPassOne() && Abstract() == Put(old(Abstract()), Written(Reverse(data), true))
    {
      var i := |data| - 1;
      assert data[|data|..] == [];
      while i >= 0
        invariant -1 <= i < |data| && InPassOne()
        invariant image == old(image) + Reverse(data[i + 1..])
      {
        ReverseStep(data, i);
        WriteOut(data[i]);
        i := i - 1;
      }
      assert data[0..] == data;
    }

    /** write_instruction_data. */
    method WriteInstructionData(op: Opcode, args: seq<string>)
      requires InPassOne() && |op.letters| == |args|
      modifies this`image, this`outPtr, this`ok, this`exprList
      ensures InPassOne() && Abstract() == WriteInstruction(FirstPass(m), old(Abstract()), op, args)
    {
      WriteData(op.data);
      var bit := WriteArguments(op.letters, args);
      if op.endData.Some? {
        if bit.Some? {
          AddPassTwoExpr(bit.value, BitNum, op.endData.value);
        } else {
          WriteOut(op.endData.value);
        }
      }
    }

    method WriteArguments(letters: string, args: seq<string>) returns (bit: Option<string>)
      requires InPassOne() && |letters| == |args|
      modifies this`image, this`outPtr, this`ok, this`exprList
      ensures InPassOne() && Abstract() == WriteArgs(FirstPass(m), old(Abstract()), letters, args)
      ensures bit == BitText(letters, args)
    {
      bit := None;
      var i := 0;
      assert letters[0..] == letters && args[0..] == args;
      while i < |letters|
        invariant 0 <= i <= |letters| && InPassOne()
        invariant WriteArgs(FirstPass(m), Abstract(), letters[i..], args[i..])
          == WriteArgs(FirstPass(m), old(Abstract()), letters, args)
        invariant BitText(letters, args)
          == var later := BitText(letters[i..], args[i..]); if later.Some? then later else bit
      {
        assert letters[i..][1..] == letters[i + 1..] && args[i..][1..] == args[i + 1..];
        if letters[i] == '^' {
          bit := Some(args[i]);
        } else {
          AddPassTwoExpr(args[i], KindOf(letters[i]), 0);
        }
        i := i + 1;
      }
    }

    /** parse_emit_string for .db and .dw. */
    method EmitString(kind: ArgType, items: seq<Item>)
      requires InPassOne() && (kind.Num8? || kind.Num16?)
      modifies this`image, this`outPtr, this`ok, this`exprList, this`pc
      ensures InPassOne() && Abstract() == WriteItems(m, FirstPass(m), old(Abstract()), kind, items)
    {
      var i := 0;
      assert items[0..] == items;
      while i < |items|
        invariant 0 <= i <= |items| && InPassOne()
        invariant WriteItems(m, FirstPass(m), Abstract(), kind, items[i..])
          == WriteItems(m, FirstPass(m), old(Abstract()), kind, items)
      {
        assert items[i..][1..] == items[i + 1..];
        EmitItem(kind, items[i]);
        i := i + 1;
      }
    }

    method EmitItem(kind: ArgType, item: Item)
      requires InPassOne() && (kind.Num8? || kind.Num16?)
      modifies this`image, this`outPtr, this`ok, this`exprList, this`pc
      ensures InPassOne() && Abstract() == WriteItem(m, FirstPass(m), old(Abstract()), kind, item)
    {
      match item {
        case Chars(bytes) =>
          WriteAll(bytes);
          pc := Wrap(pc + |bytes|);
        case Value(text) =>
          var r := m.parse(EnvAt(labels, locals, pc, current), text);
          if r.Failed? && !PutsOff(r.error) {
            ok := false;
          } else {
            AddPassTwoExpr(text, kind, 0);
            pc := Wrap(pc + if kind.Num16? then 2 else 1);
          }
      }
    }

    /** .fill and .block. */
    method FillBlock(size: string, value: Option<string>)
      requires InPassOne()
      modifies this`image, this`outPtr, this`ok, this`pc
      ensures InPassOne() && Abstract() == FillBytes(m, old(Abstract()), size, value)
    {
      var n := ParseNow(size);
      var v := 0;
      if value.Some? {
        v := ParseNow(value.value);
      }
      if n < 0 {
        ok := false;
        return;
      }
      pc := Wrap(pc + n);
      WriteAll(Repeat(LowByte(v), n));
    }

    /** parse_num with its errors reported at once; zero on an error. */
    method ParseNow(text: string) returns (v: int)
      requires InPassOne()
      modifies this`ok
      ensures var (value, parsed) := Now(m, old(Abstract()), text); v == value && ok == (old(ok) && parsed)
    {
      match m.parse(EnvAt(labels, locals, pc, current), text) {
        case Done(value, _) =>
          v := value;
        case Failed(_) =>
          v := 0;
          ok := false;
      }
    }

    /** One statement of pass one. */
    method Statement(s: Stmt)
      requires InPassOne() && Matched(s)
      modifies this
      ensures InPassOne() && Abstract() == Exec(m, FirstPass(m), old(Abstract()), s)
    {
      match s {
        case Name(name) =>
          labels := labels[m.fold(name) := pc];
        case LocalName =>
          locals := locals + [pc];
          current := current + 1;
        case Equate(name, text) =>
          labels := labels[m.fold(name) := pc];
          var r := m.parse(EnvAt(labels, locals, pc, current), text);
          if r.Done? {
            labels := labels[m.fold(name) := r.value];
          } else {
            ok := false;
          }
        case Org(text) =>
          var r := m.parse(EnvAt(labels, locals, pc, current), text);
          if r.Done? && r.value >= 0 {
            pc := r.value;
          } else {
            ok := false;
          }
        case Data(kind, items) =>
          EmitString(kind, items);
        case Fill(size, value) =>
          FillBlock(size, value);
        case Instruction(op, args) =>
          WriteInstructionData(op, args);
          pc := Wrap(pc + op.size);
      }
    }

    /** run_first_pass. */
    method RunFirstPass(ss: seq<Stmt>)
      requires InPassOne() && forall s :: s in ss ==> Matched(s)
      modifies this
      ensures InPassOne() && Abstract() == Run(m, FirstPass(m), old(Abstract()), ss)
    {
      var i := 0;
      assert ss[0..] == ss;
      while i < |ss|
        invariant 0 <= i <= |ss| && InPassOne()
        invariant Run(m, FirstPass(m), Abstract(), ss[i..]) == Run(m, FirstPass(m), old(Abstract()), ss)
      {
        assert ss[i..][1..] == ss[i + 1..];
        Statement(ss[i]);
        i := i + 1;
      }
    }

    /** run_second_pass: the list is gone through in order, and the output position is restored. */
    method RunSecondPass()
      requires Fits(image, exprList) && outPtr <= |image|
      modifies this
      ensures var r := Patched(m, Tables(labels, locals), old(image), old(exprList));
        ok == (old(ok) && r.Some?) && (r.Some? ==> image == r.value)
      ensures outPtr == old(outPtr) && exprList == [] && labels == old(labels) && locals == old(locals)
    {
      var savedOutPtr := outPtr;
      ghost var t := Tables(labels, locals);
      ghost var ps := exprList;
      var k := 0;
      assert ps[0..] == ps;
      while exprList != []
        invariant 0 <= k <= |ps| && exprList == ps[k..] && labels == old(labels) && locals == old(locals)
        invariant outPtr <= |image| == |old(image)|
        invariant ok == (old(ok) && Patched(m, t, old(image), ps[..k]).Some?)
        invariant Patched(m, t, old(image), ps[..k]).Some? ==> image == Patched(m, t, old(image), ps[..k]).value
        decreases |exprList|
      {
        var p := exprList[0];
        assert p == ps[k] && ps[..k + 1][..k] == ps[..k] && exprList[1..] == ps[k + 1..];
        PatchOne(p);
        exprList := exprList[1..];
        k := k + 1;
      }
      assert ps[..k] == ps;
      outPtr := savedOutPtr;
    }

    /** The evaluation of one expression of the list, and its bytes written over its placeholder. */
    method PatchOne(p: Pending)
      requires p.at + Width(p.kind) <= |image| && outPtr <= |image|
      modifies this`pc, this`current, this`outPtr, this`image, this`ok
      ensures outPtr <= |image| == |old(image)|
      ensures var w := LateBytes(m, Tables(labels, locals), p);
        && ok == (old(ok) && w.ok)
        && (w.ok ==> p.at + |w.bytes| <= |image| && image == Overwrite(old(image), p.at, w.bytes))
    {
      pc := p.pc;
      current := p.current;
      match m.parse(EnvAt(labels, locals, pc, current), p.text) {
        case Done(value, _) =>
          if p.kind == Rst {
            assert Store(image, outPtr, []) == image;
            if RestartAddress(value) {
              WriteArg(value + 0xC7, Rst, p.orValue);
            } else {
              ok := false;
            }
          } else {
            ArgWidth(value, p.kind, p.orValue, pc);
            outPtr := p.at;
            WriteArg(value, p.kind, p.orValue);
          }
        case Failed(_) =>
          ok := false;
      }
    }
  }

  lemma ReverseStep(data: seq<byte>, i: nat)
    requires i < |data|
    ensures Reverse(data[i..]) == Reverse(data[i + 1..]) + [data[i]]
  {
    assert data[i..][1..] == data[i + 1..];
  }
}
