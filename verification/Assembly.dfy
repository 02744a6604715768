/** The two passes with the assembler's own evaluator: the image is the one a single pass writes that
    knows every label from the start. */
module Assembly {
  import opened Bytes
  import opened Arithmetic
  import opened Scanner
  import opened Parser
  import opened Expansion
  import opened TwoPass

  /** What is done to a name before it is stored or looked up. */
  type Fold = string -> string

  /** strup: the fold of the default mode. With names case-sensitive nothing is done to them. */
  function Uppered(name: string): string {
    seq(|name|, i requires 0 <= i < |name| => Upper(name[i]))
  }

  /** set_case_sensitive: by default names are not case-sensitive. */
  function FoldOf(caseSensitive: bool): Fold {
    if caseSensitive then (name: string) => name else (name: string) => Uppered(name)
  }

  function Folded(fold: Fold, env: Env): Env {
    env.(labels := name => env.labels(fold(name)))
  }

  function NamesOf(fold: Fold, labels: map<string, int>): Names {
    Names(map[], labels, fold)
  }

  /** parse_num and expand_expr, with no macros defined. */
  function Spasm(fold: Fold): Machine {
    Machine((env: Env, s: string) => ParseNum(Folded(fold, env), s),
            (labels: map<string, int>, s: string) => ExpandExpr(NamesOf(fold, labels), s), fold)
  }

  // ---------- knowing more labels ----------

  /** The late environment knows what the early one knows, and perhaps more. */
  ghost predicate Grows(early: Env, late: Env) {
    && early.pc == late.pc && early.current == late.current && early.locals <= late.locals
    && (forall name :: early.labels(name).Some? ==> late.labels(name) == early.labels(name))
    && (forall name :: !early.macros(name) && !late.macros(name))
  }

  predicate Final(v: Value) {
    v.Known? || !PutsOff(v.error)
  }

  /** A value, or an error that is not for lack of a label, is the same later. */
  lemma {:induction false} EvalGrows(early: Env, late: Env, e: Expr, depth: nat)
    requires Grows(early, late)
    ensures Final(Eval(early, e, depth)) ==> Eval(late, e, depth) == Eval(early, e, depth)
    decreases e
  {
    match e {
      case Leaf(_) =>
      case Prefix(_, operand) => EvalGrows(early, late, operand, depth);
      case Paren(_, inner, _) => if depth + 1 < RECURSION_LIMIT { EvalGrows(early, late, inner, depth + 1); }
      case Bin(left, _, _, _, _, right) =>
        EvalGrows(early, late, left, depth);
        EvalGrows(early, late, right, depth);
    }
  }

  lemma {:induction false} EvalSame(a: Env, b: Env, e: Expr, depth: nat)
    requires a.pc == b.pc && a.current == b.current && a.locals == b.locals
    requires forall name :: a.labels(name) == b.labels(name) && a.macros(name) == b.macros(name)
    ensures Eval(a, e, depth) == Eval(b, e, depth)
    decreases e
  {
    match e {
      case Leaf(_) =>
      case Prefix(_, operand) => EvalSame(a, b, operand, depth);
      case Paren(_, inner, _) => if depth + 1 < RECURSION_LIMIT { EvalSame(a, b, inner, depth + 1); }
      case Bin(left, _, _, _, _, right) =>
        EvalSame(a, b, left, depth);
        EvalSame(a, b, right, depth);
    }
  }

  // ---------- fewer labels to expand ----------

  lemma SettledFewer(fold: Fold, labels: map<string, int>, early: map<string, int>, s: string)
    requires Settled(NamesOf(fold, labels), s) && Within(early, labels)
    ensures Settled(NamesOf(fold, early), s)
  {
    var ps := Taken(s, 0);
    forall k | 0 <= k < |ps| && ps[k].Word? ensures NamesOf(fold, early).Unknown(ps[k].name) {
      assert NamesOf(fold, labels).Unknown(ps[k].name);
    }
  }

  lemma {:induction false} TransparentFewer(fold: Fold, labels: map<string, int>, early: map<string, int>, e: Expr)
    requires Transparent(NamesOf(fold, labels), e) && Within(early, labels)
    ensures Transparent(NamesOf(fold, early), e)
    decreases e
  {
    match e {
      case Leaf(a) => ExpandableFewer(fold, labels, early, a);
      case Prefix(_, operand) => TransparentFewer(fold, labels, early, operand);
      case Paren(_, inner, _) => TransparentFewer(fold, labels, early, inner);
      case Bin(left, _, _, text, _, right) =>
        TransparentFewer(fold, labels, early, left);
        TransparentFewer(fold, labels, early, right);
        SettledFewer(fold, labels, early, text);
    }
  }

  lemma ExpandableFewer(fold: Fold, labels: map<string, int>, early: map<string, int>, a: Atom)
    requires Proper(a) && Expandable(NamesOf(fold, labels), a) && Within(early, labels)
    ensures Expandable(NamesOf(fold, early), a)
  {
    if !(a.Label? && NamesOf(fold, labels).Labelled(a.name)) {
      SettledFewer(fold, labels, early, Spell(a));
    } else if !NamesOf(fold, early).Labelled(a.name) {
      RunSettled(NamesOf(fold, early), a.name);
    }
  }

  predicate Within(early: map<string, int>, labels: map<string, int>) {
    forall l :: l in early ==> l in labels && labels[l] == early[l]
  }

  // ---------- operands ----------

  /** The text is a printed tree, perhaps between blanks, on which expansion with these labels is transparent. */
  ghost predicate Readable(fold: Fold, labels: map<string, int>, text: string) {
    exists lead: string, e: Expr, trail: string :: ReadsAs(fold, labels, text, lead, e, trail)
  }

  ghost predicate ReadsAs(fold: Fold, labels: map<string, int>, text: string, lead: string, e: Expr, trail: string) {
    && Printable(MATH_DEFS, e, '\0') && Transparent(NamesOf(fold, labels), e)
    && AllBlank(lead) && AllBlank(trail) && text == Padded(lead, e, trail)
  }

  /** The value of an operand when every label is known. */
  function KnownValue(fold: Fold, t: Tables, st: State, text: string): Option<int> {
    match ParseNum(Folded(fold, EnvAt(t.labels, t.locals, st.pc, |st.locals|)), text)
    case Done(v, _) => Some(v)
    case Failed(_) => None
  }

  /** An operand has the value it has when every label is known from the start. */
  lemma ResolveIsKnown(fold: Fold, t: Tables, st: State, text: string)
    requires Within(st.labels, t.labels) && st.locals <= t.locals && Readable(fold, t.labels, text)
    ensures Resolve(Spasm(fold), t, st, text) == KnownValue(fold, t, st, text)
  {
    var lead, e, trail :| ReadsAs(fold, t.labels, text, lead, e, trail);
    var early, late := Folded(fold, EnvOf(st)), Folded(fold, EnvAt(t.labels, t.locals, st.pc, |st.locals|));
    ParsePadded(early, lead, e, trail);
    ParsePadded(late, lead, e, trail);
    EvalGrows(early, late, e, 0);
    if !Final(Eval(early, e, 0)) {
      PutOffIsKnown(fold, t, st, late, lead, e, trail);
    }
  }

  lemma PutOffIsKnown(fold: Fold, t: Tables, st: State, late: Env, lead: string, e: Expr, trail: string)
    requires Within(st.labels, t.labels) && ReadsAs(fold, t.labels, Padded(lead, e, trail), lead, e, trail)
    requires late == Folded(fold, EnvAt(t.labels, t.locals, st.pc, |st.locals|))
    ensures var s := ExpandExpr(NamesOf(fold, st.labels), Padded(lead, e, trail));
      ParseNum(late, s) == Answer(late, e, |s|)
  {
    var n := NamesOf(fold, st.labels);
    TransparentFewer(fold, t.labels, st.labels, e);
    PutOffMeans(n, late, lead, e, trail);
    EvalSame(Overlay(n, late), late, e, 0);
  }

  function KnownOperand(fold: Fold, t: Tables, st: State, kind: ArgType, orValue: byte, text: string): State {
    if BlankOffset(kind, text) then Put(st, ArgBytes(0, kind, 0, st.pc)) else
      match KnownValue(fold, t, st, Trim(kind, text))
      case None => TwoPass.Fail(st)
      case Some(v) => Put(st, ArgBytes(v, kind, orValue, st.pc))
  }

  /** A single pass that knows every label, local ones included, from the start. */
  function KnowingPass(fold: Fold, t: Tables): Writer {
    (st: State, kind: ArgType, orValue: byte, text: string) => KnownOperand(fold, t, st, kind, orValue, text)
  }

  // ---------- tables do not depend on operands ----------

  ghost predicate SameTables(a: State, b: State) {
    a.pc == b.pc && a.labels == b.labels && a.locals == b.locals
  }

  /** A writer of operands leaves the tables and the program counter alone. */
  ghost predicate Quiet(w: Writer) {
    forall st: State, kind: ArgType, orValue: byte, text: string :: SameTables(w(st, kind, orValue, text), st)
  }

  lemma EmitTables(m: Machine, st: State, kind: ArgType, orValue: byte, text: string)
    ensures SameTables(Emit(m, st, kind, orValue, text), st)
  {
  }

  lemma FirstPassQuiet(fold: Fold)
    ensures Quiet(FirstPass(Spasm(fold)))
  {
    forall st: State, kind: ArgType, orValue: byte, text: string
      ensures SameTables(FirstPass(Spasm(fold))(st, kind, orValue, text), st)
    {
      EmitTables(Spasm(fold), st, kind, orValue, text);
    }
  }

  lemma DirectTables(m: Machine, t: Tables, st: State, kind: ArgType, orValue: byte, text: string)
    ensures SameTables(Direct(m, t, st, kind, orValue, text), st)
  {
  }

  lemma SinglePassQuiet(fold: Fold, t: Tables)
    ensures Quiet(SinglePass(Spasm(fold), t))
  {
    forall st: State, kind: ArgType, orValue: byte, text: string
      ensures SameTables(SinglePass(Spasm(fold), t)(st, kind, orValue, text), st)
    {
      DirectTables(Spasm(fold), t, st, kind, orValue, text);
    }
  }

  lemma {:induction false} ArgsTables(w: Writer, st: State, letters: string, args: seq<string>)
    requires Quiet(w) && |letters| == |args|
    ensures SameTables(WriteArgs(w, st, letters, args), st)
    decreases |letters|
  {
    if letters != "" {
      ArgsTables(w, if letters[0] == '^' then st else w(st, KindOf(letters[0]), 0, args[0]), letters[1..], args[1..]);
    }
  }

  lemma {:induction false} ItemsTables(m: Machine, w1: Writer, w2: Writer, a: State, b: State, kind: ArgType,
                                       items: seq<Item>)
    requires Quiet(w1) && Quiet(w2) && SameTables(a, b)
    ensures SameTables(WriteItems(m, w1, a, kind, items), WriteItems(m, w2, b, kind, items))
    decreases |items|
  {
    if items != [] {
      ItemsTables(m, w1, w2, WriteItem(m, w1, a, kind, items[0]), WriteItem(m, w2, b, kind, items[0]), kind,
          items[1..]);
    }
  }

  lemma ExecTables(m: Machine, w1: Writer, w2: Writer, a: State, b: State, s: Stmt)
    requires Quiet(w1) && Quiet(w2) && SameTables(a, b) && Matched(s)
    ensures SameTables(Exec(m, w1, a, s), Exec(m, w2, b, s))
  {
    match s {
      case Data(kind, items) => ItemsTables(m, w1, w2, a, b, kind, items);
      case Instruction(op, args) =>
        ArgsTables(w1, Put(a, Written(Reverse(op.data), true)), op.letters, args);
        ArgsTables(w2, Put(b, Written(Reverse(op.data), true)), op.letters, args);
      case _ =>
    }
  }

  lemma {:induction false} RunTables(m: Machine, w1: Writer, w2: Writer, a: State, b: State, ss: seq<Stmt>)
    requires Quiet(w1) && Quiet(w2) && SameTables(a, b) && forall s :: s in ss ==> Matched(s)
    ensures SameTables(Run(m, w1, a, ss), Run(m, w2, b, ss))
    decreases |ss|
  {
    if ss != [] {
      ExecTables(m, w1, w2, a, b, ss[0]);
      RunTables(m, w1, w2, Exec(m, w1, a, ss[0]), Exec(m, w2, b, ss[0]), ss[1..]);
    }
  }

  // ---------- labels defined once ----------

  /** The label a statement sets, under the name it is stored with. */
  function LabelOf(fold: Fold, s: Stmt): seq<string> {
    match s
    case Name(name) => [fold(name)]
    case Equate(name, _) => [fold(name)]
    case _ => []
  }

  function Defines(fold: Fold, ss: seq<Stmt>): seq<string> {
    if ss == [] then [] else LabelOf(fold, ss[0]) + Defines(fold, ss[1..])
  }

  ghost predicate Fresh(names: seq<string>, labels: map<string, int>) {
    && (forall i, j :: 0 <= i < j < |names| ==> names[i] != names[j])
    && (forall i :: 0 <= i < |names| ==> names[i] !in labels)
  }

  /** A statement sets no label but those it defines, and local labels are only added. */
  lemma ExecDefines(m: Machine, w: Writer, st: State, s: Stmt)
    requires Quiet(w) && Matched(s)
    ensures var st' := Exec(m, w, st, s);
      && st.locals <= st'.locals
      && (forall l :: l in st.labels && l !in LabelOf(m.fold, s) ==> l in st'.labels && st'.labels[l] == st.labels[l])
      && (forall l :: l in st'.labels ==> l in st.labels || l in LabelOf(m.fold, s))
  {
    match s {
      case Data(kind, items) => ItemsKeep(m, w, st, kind, items);
      case Instruction(op, args) => ArgsTables(w, Put(st, Written(Reverse(op.data), true)), op.letters, args);
      case _ =>
    }
  }

  lemma {:induction false} ItemsKeep(m: Machine, w: Writer, st: State, kind: ArgType, items: seq<Item>)
    requires Quiet(w)
    ensures var st' := WriteItems(m, w, st, kind, items); st'.labels == st.labels && st'.locals == st.locals
    decreases |items|
  {
    if items != [] {
      ItemsKeep(m, w, WriteItem(m, w, st, kind, items[0]), kind, items[1..]);
    }
  }

  /** A label defined once keeps the value it first gets. */
  lemma {:induction false} LabelsKeep(m: Machine, w: Writer, st: State, ss: seq<Stmt>)
    requires Quiet(w) && (forall s :: s in ss ==> Matched(s)) && Fresh(Defines(m.fold, ss), st.labels)
    ensures Within(st.labels, Run(m, w, st, ss).labels) && st.locals <= Run(m, w, st, ss).locals
    decreases |ss|
  {
    if ss != [] {
      var st1 := Exec(m, w, st, ss[0]);
      ExecDefines(m, w, st, ss[0]);
      DefinesFirst(m.fold, ss, st.labels, st1.labels);
      LabelsKeep(m, w, st1, ss[1..]);
    }
  }

  lemma DefinesFirst(fold: Fold, ss: seq<Stmt>, labels: map<string, int>, labels1: map<string, int>)
    requires ss != [] && Fresh(Defines(fold, ss), labels)
    requires forall l :: l in labels1 ==> l in labels || l in LabelOf(fold, ss[0])
    ensures Fresh(Defines(fold, ss[1..]), labels1) && forall l :: l in LabelOf(fold, ss[0]) ==> l !in labels
  {
    FreshSplit(LabelOf(fold, ss[0]), Defines(fold, ss[1..]), labels);
  }

  lemma FreshSplit(a: seq<string>, b: seq<string>, labels: map<string, int>)
    requires Fresh(a + b, labels)
    ensures Fresh(a, labels) && Fresh(b, labels)
    ensures forall i, j :: 0 <= i < |a| && 0 <= j < |b| ==> a[i] != b[j]
  {
    var c := a + b;
    assert forall i :: 0 <= i < |a| ==> c[i] == a[i];
    assert forall j :: 0 <= j < |b| ==> c[|a| + j] == b[j];
  }

  // ---------- the main result ----------

  ghost predicate ReadableOperand(fold: Fold, labels: map<string, int>, kind: ArgType, text: string) {
    BlankOffset(kind, text) || Readable(fold, labels, Trim(kind, text))
  }

  function ArgKind(letter: char): ArgType {
    if letter == '^' then BitNum else KindOf(letter)
  }

  ghost predicate ReadableArgs(fold: Fold, labels: map<string, int>, letters: string, args: seq<string>) {
    |letters| == |args| && forall i :: 0 <= i < |args| ==> ReadableOperand(fold, labels, ArgKind(letters[i]), args[i])
  }

  ghost predicate ReadableItems(fold: Fold, labels: map<string, int>, kind: ArgType, items: seq<Item>) {
    forall i :: 0 <= i < |items| && items[i].Value? ==> ReadableOperand(fold, labels, kind, items[i].text)
  }

  ghost predicate ReadableStmt(fold: Fold, labels: map<string, int>, s: Stmt) {
    && (s.Data? ==> ReadableItems(fold, labels, s.kind, s.items))
    && (s.Instruction? ==> ReadableArgs(fold, labels, s.op.letters, s.args))
  }

  ghost predicate Inside(t: Tables, st: State) {
    Within(st.labels, t.labels) && st.locals <= t.locals
  }

  lemma OperandIsKnown(fold: Fold, t: Tables, st: State, kind: ArgType, orValue: byte, text: string)
    requires Inside(t, st) && ReadableOperand(fold, t.labels, kind, text)
    ensures Direct(Spasm(fold), t, st, kind, orValue, text) == KnownOperand(fold, t, st, kind, orValue, text)
    ensures Inside(t, KnownOperand(fold, t, st, kind, orValue, text))
  {
    if !BlankOffset(kind, text) {
      ResolveIsKnown(fold, t, st, Trim(kind, text));
    }
  }

  lemma {:induction false} ArgsAreKnown(fold: Fold, t: Tables, st: State, letters: string, args: seq<string>)
    requires Inside(t, st) && ReadableArgs(fold, t.labels, letters, args)
    ensures WriteArgs(SinglePass(Spasm(fold), t), st, letters, args)
      == WriteArgs(KnowingPass(fold, t), st, letters, args)
    ensures Inside(t, WriteArgs(KnowingPass(fold, t), st, letters, args))
    decreases |letters|
  {
    if letters != "" {
      var kind := KindOf(letters[0]);
      assert ReadableOperand(fold, t.labels, ArgKind(letters[0]), args[0]);
      if letters[0] != '^' { OperandIsKnown(fold, t, st, kind, 0, args[0]); }
      var next := if letters[0] == '^' then st else KnownOperand(fold, t, st, kind, 0, args[0]);
      ArgsAreKnown(fold, t, next, letters[1..], args[1..]);
    }
  }

  lemma {:induction false} BitIsReadable(fold: Fold, labels: map<string, int>, letters: string, args: seq<string>)
    requires ReadableArgs(fold, labels, letters, args)
    ensures var bit := BitText(letters, args); bit.Some? ==> ReadableOperand(fold, labels, BitNum, bit.value)
    decreases |letters|
  {
    if letters != "" {
      assert ReadableOperand(fold, labels, ArgKind(letters[0]), args[0]);
      BitIsReadable(fold, labels, letters[1..], args[1..]);
    }
  }

  lemma InstructionIsKnown(fold: Fold, t: Tables, st: State, op: Opcode, args: seq<string>)
    requires Inside(t, st) && ReadableArgs(fold, t.labels, op.letters, args)
    ensures WriteInstruction(SinglePass(Spasm(fold), t), st, op, args)
      == WriteInstruction(KnowingPass(fold, t), st, op, args)
  {
    var st1 := Put(st, Written(Reverse(op.data), true));
    ArgsAreKnown(fold, t, st1, op.letters, args);
    BitIsReadable(fold, t.labels, op.letters, args);
    var bit := BitText(op.letters, args);
    if op.endData.Some? && bit.Some? {
      OperandIsKnown(fold, t, WriteArgs(KnowingPass(fold, t), st1, op.letters, args), BitNum, op.endData.value,
          bit.value);
    }
  }

  lemma ItemIsKnown(fold: Fold, t: Tables, st: State, kind: ArgType, item: Item)
    requires Inside(t, st) && (item.Value? ==> ReadableOperand(fold, t.labels, kind, item.text))
    ensures var st' := WriteItem(Spasm(fold), KnowingPass(fold, t), st, kind, item);
      WriteItem(Spasm(fold), SinglePass(Spasm(fold), t), st, kind, item) == st' && Inside(t, st')
  {
    if item.Value? { OperandIsKnown(fold, t, st, kind, 0, item.text); }
    SameItem(Spasm(fold), SinglePass(Spasm(fold), t), KnowingPass(fold, t), t, st, kind, item);
  }

  lemma SameItem(m: Machine, w1: Writer, w2: Writer, t: Tables, st: State, kind: ArgType, item: Item)
    requires Inside(t, st)
    requires item.Value? ==> w1(st, kind, 0, item.text) == w2(st, kind, 0, item.text)
    requires item.Value? ==> Inside(t, w2(st, kind, 0, item.text))
    ensures WriteItem(m, w1, st, kind, item) == WriteItem(m, w2, st, kind, item)
    ensures Inside(t, WriteItem(m, w2, st, kind, item))
  {
  }

  lemma {:induction false} ItemsAreKnown(fold: Fold, t: Tables, st: State, kind: ArgType, items: seq<Item>)
    requires Inside(t, st) && ReadableItems(fold, t.labels, kind, items)
    ensures WriteItems(Spasm(fold), SinglePass(Spasm(fold), t), st, kind, items)
      == WriteItems(Spasm(fold), KnowingPass(fold, t), st, kind, items)
    decreases |items|
  {
    if items != [] {
      ItemIsKnown(fold, t, st, kind, items[0]);
      ItemsAreKnown(fold, t, WriteItem(Spasm(fold), KnowingPass(fold, t), st, kind, items[0]), kind, items[1..]);
    }
  }

  lemma ExecIsKnown(fold: Fold, t: Tables, st: State, s: Stmt)
    requires Inside(t, st) && Matched(s) && ReadableStmt(fold, t.labels, s)
    ensures Exec(Spasm(fold), SinglePass(Spasm(fold), t), st, s) == Exec(Spasm(fold), KnowingPass(fold, t), st, s)
  {
    match s {
      case Data(kind, items) => ItemsAreKnown(fold, t, st, kind, items);
      case Instruction(op, args) => InstructionIsKnown(fold, t, st, op, args);
      case _ =>
    }
  }

  lemma {:induction false} RunIsKnown(fold: Fold, t: Tables, st: State, ss: seq<Stmt>)
    requires forall s :: s in ss ==> Matched(s) && ReadableStmt(fold, t.labels, s)
    requires Fresh(Defines(fold, ss), st.labels)
    requires t == TablesOf(Run(Spasm(fold), SinglePass(Spasm(fold), t), st, ss))
    ensures Run(Spasm(fold), SinglePass(Spasm(fold), t), st, ss) == Run(Spasm(fold), KnowingPass(fold, t), st, ss)
    decreases |ss|
  {
    if ss != [] {
      var w := SinglePass(Spasm(fold), t);
      var st1 := Exec(Spasm(fold), w, st, ss[0]);
      SinglePassQuiet(fold, t);
      LabelsKeep(Spasm(fold), w, st, ss);
      ExecIsKnown(fold, t, st, ss[0]);
      ExecDefines(Spasm(fold), w, st, ss[0]);
      DefinesFirst(fold, ss, st.labels, st1.labels);
      RunIsKnown(fold, t, st1, ss[1..]);
    }
  }

  /** Every operand is an expression on which expansion with the labels of the whole program is transparent. */
  ghost predicate ReadableProgram(fold: Fold, ss: seq<Stmt>)
    requires forall s :: s in ss ==> Matched(s)
  {
    var t := TablesOf(Run(Spasm(fold), FirstPass(Spasm(fold)), START, ss));
    forall s :: s in ss ==> ReadableStmt(fold, t.labels, s)
  }

  /** For a program whose operands are expressions and whose labels are defined once, the two passes
      report no error exactly when a single pass that knows every label from the start reports none
      and no restart was put off; and then the patched image is that pass's output. */
  lemma AsIfKnown(fold: Fold, ss: seq<Stmt>)
    requires (forall s :: s in ss ==> Matched(s)) && Fresh(Defines(fold, ss), map[])
    requires ReadableProgram(fold, ss)
    ensures var st := Run(Spasm(fold), FirstPass(Spasm(fold)), START, ss);
      var t := TablesOf(st);
      var known := Run(Spasm(fold), KnowingPass(fold, t), START, ss);
      && Queued(st) && TablesOf(known) == t
      && (Good(Spasm(fold), t, st) <==> known.ok && NoRestart(st.pending))
      && (Good(Spasm(fold), t, st) ==> Patched(Spasm(fold), t, st.out, st.pending) == Some(known.out))
  {
    var st := Run(Spasm(fold), FirstPass(Spasm(fold)), START, ss);
    var t := TablesOf(st);
    FirstPassQuiet(fold);
    SinglePassQuiet(fold, t);
    RunTables(Spasm(fold), FirstPass(Spasm(fold)), SinglePass(Spasm(fold), t), START, START, ss);
    TwoPassesAreOne(Spasm(fold), ss);
    RunIsKnown(fold, t, START, ss);
  }

  /** Both passes over a program. */
  method Assemble(caseSensitive: bool, ss: seq<Stmt>) returns (image: seq<byte>, ok: bool)
    requires (forall s :: s in ss ==> Matched(s)) && Fresh(Defines(FoldOf(caseSensitive), ss), map[])
    requires ReadableProgram(FoldOf(caseSensitive), ss)
    ensures var fold := FoldOf(caseSensitive);
      var st := Run(Spasm(fold), FirstPass(Spasm(fold)), START, ss);
      var known := Run(Spasm(fold), KnowingPass(fold, TablesOf(st)), START, ss);
      (ok <==> known.ok && NoRestart(st.pending)) && (ok ==> image == known.out)
  {
    var fold := FoldOf(caseSensitive);
    var assembler := new Assembler(Spasm(fold));
    assembler.RunFirstPass(ss);
    AsIfKnown(fold, ss);
    assembler.RunSecondPass();
    return assembler.image, assembler.ok;
  }
}
