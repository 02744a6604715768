/** The expression evaluator: a recursive parser without precedence, against the values of the
    expression trees it reads. */
module Parser {
  import opened Bytes
  import opened Arithmetic
  import opened Scanner

  const RECURSION_LIMIT := 20

  /** A text as the evaluator sees it: the sign and the parenthesis at a place, the start of an
      expression, the number or name at a place and the operator behind a value. */
  datatype Text = Text(size: nat, sign: nat -> Sign, paren: nat -> bool, start: nat -> Option<nat>,
                       single: nat -> Outcome, next: (nat, nat) -> Next)

  function Scan(env: Env, s: string): Text {
    Text(|s|, (i: nat) => SignAt(s, i), (i: nat) => Ch(s, i) == '(', (i: nat) => Start(s, i),
         (i: nat) => Single(env, s, i), (i: nat, depth: nat) => NextOperator(env.table, s, i, depth))
  }

  /** Reading goes forward and stays in the text. */
  ghost predicate Sound(g: Text) {
    && (forall i: nat :: !g.sign(i).NoSign? ==> i < g.size)
    && (forall i: nat :: g.paren(i) ==> i < g.size)
    && (forall i: nat :: g.start(i).Some? ==> i <= g.start(i).value < g.size)
    && (forall i: nat :: g.single(i).Done? ==> i < g.single(i).rest <= g.size)
    && (forall i: nat, depth: nat :: g.next(i, depth).More? ==> i <= g.next(i, depth).rest < g.size)
    && (forall i: nat, depth: nat :: i <= g.size && g.next(i, depth).Stop? ==> i <= g.next(i, depth).rest <= g.size)
  }

  lemma ScanSound(env: Env, s: string)
    ensures Sound(Scan(env, s))
  {
  }

  // ---------- parse_num_full ----------

  function Signed(sign: Sign, v: int): int {
    match sign
    case NoSign => v
    case Minus => Negate(v)
    case Tilde => Complement(v)
  }

  function WithSign(sign: Sign, r: Outcome): Outcome {
    if r.Done? then Done(Signed(sign, r.value), r.rest) else r
  }

  /** parse_num_full, entered with parse_depth before it is counted up. */
  function Full(g: Text, i: nat, depth: nat, parseDepth: nat): (r: Outcome)
    requires Sound(g) && i <= g.size
    ensures r.Done? ==> i <= r.rest <= g.size
    decreases g.size - i, 3
  {
    if parseDepth + 1 > RECURSION_LIMIT then Failed(RecursionLimit)
    else if g.start(i).None? then Failed(ValueExpected)
    else Terms(g, g.start(i).value, depth, parseDepth + 1, None, 0)
  }

  /** A sign and an operand. */
  function Operand(g: Text, i: nat, depth: nat, parseDepth: nat): (r: Outcome)
    requires Sound(g) && i <= g.size
    ensures r.Done? ==> i < r.rest <= g.size
    decreases g.size - i, 1
  {
    var j := if g.sign(i).NoSign? then i else i + 1;
    WithSign(g.sign(i), if g.paren(j) then Full(g, j + 1, depth + 1, parseDepth) else g.single(j))
  }

  /** One turn of the loop and those after it, with the total and the operator before the operand. */
  function Terms(g: Text, i: nat, depth: nat, parseDepth: nat, op: Option<Op>, total: int): (r: Outcome)
    requires Sound(g) && i <= g.size
    ensures r.Done? ==> i <= r.rest <= g.size
    decreases g.size - i, 2
  {
    match Operand(g, i, depth, parseDepth)
    case Failed(e) => Failed(e)
    case Done(v, rest) =>
      match Combine(op, total, v)
      case None => Failed(Undefined)
      case Some(t) => Go(g, g.next(rest, depth), depth, parseDepth, t)
  }

  function Combine(op: Option<Op>, total: int, v: int): Option<int> {
    match op
    case None => Some(v)
    case Some(o) => Apply(o, total, v)
  }

  /** Behind a value, with the total so far. */
  function Go(g: Text, next: Next, depth: nat, parseDepth: nat, total: int): (r: Outcome)
    requires Sound(g) && (!next.Wrong? ==> next.rest <= g.size)
    ensures r.Done? ==> !next.Wrong? && next.rest <= r.rest <= g.size
    decreases if next.More? then g.size - next.rest else 0, 4
  {
    match next
    case Stop(rest) => Done(total, rest)
    case Wrong(e) => Failed(e)
    case More(op, rest) => Terms(g, rest, depth, parseDepth, Some(op), total)
  }

  function ParseNum(env: Env, s: string): Outcome {
    ScanSound(env, s);
    Full(Scan(env, s), 0, 0, 0)
  }

  // ---------- expression trees ----------

  /** A tree with its layout: blanks may stand around operators and inside parentheses. */
  datatype Expr =
    | Leaf(atom: Atom)
    | Prefix(sign: Sign, operand: Expr)
    | Paren(lead: string, inner: Expr, trail: string)
    | Bin(left: Expr, before: string, op: Op, text: string, after: string, right: Expr)

  /** The value of a tree that stands inside depth parentheses: strictly from left to right, the
      first error wins, and the recursion limit is an error of the parenthesis that exceeds it. */
  function Eval(env: Env, e: Expr, depth: nat): Value {
    match e
    case Leaf(atom) => AtomValue(env, atom)
    case Prefix(sign, operand) =>
      (match Eval(env, operand, depth)
       case Known(v) => Known(Signed(sign, v))
       case Bad(error) => Bad(error))
    case Paren(_, inner, _) => if depth + 1 >= RECURSION_LIMIT then Bad(RecursionLimit) else Eval(env, inner, depth + 1)
    case Bin(left, _, op, _, _, right) =>
      var a := Eval(env, left, depth);
      if a.Bad? then a else Applied(op, a.value, Eval(env, right, depth))
  }

  function Applied(op: Op, a: int, b: Value): Value {
    match b
    case Bad(_) => b
    case Known(v) =>
      match Apply(op, a, v)
      case None => Bad(Undefined)
      case Some(r) => Known(r)
  }

  // ---------- how trees stand in a text ----------

  function Length(e: Expr): nat {
    match e
    case Leaf(atom) => |Spell(atom)|
    case Prefix(_, operand) => 1 + Length(operand)
    case Paren(lead, inner, trail) => 2 + |lead| + Length(inner) + |trail|
    case Bin(left, before, _, text, after, right) => Length(left) + |before| + |text| + |after| + Length(right)
  }

  /** Where the right operand of an operator at i stands, and what is inside a parenthesis at i. */
  function RightPlace(i: nat, e: Expr): nat
    requires e.Bin?
  {
    i + Length(e.left) + |e.before| + |e.text| + |e.after|
  }

  function InnerPlace(i: nat, e: Expr): nat
    requires e.Paren?
  {
    i + 1 + |e.lead|
  }

  /** A minus before these would be read as part of a local label. */
  predicate TakesMinus(e: Expr) {
    e.Leaf? && (e.atom.NextLocal? || e.atom.Behind?)
  }

  /** The tree stands at i. */
  predicate At(t: Table, s: string, i: nat, e: Expr)
    decreases e
  {
    && NodeAt(t, s, i, e)
    && match e
       case Leaf(_) => true
       case Prefix(_, operand) => At(t, s, i + 1, operand)
       case Paren(_, inner, _) => At(t, s, InnerPlace(i, e), inner)
       case Bin(left, _, _, _, _, right) => At(t, s, i, left) && At(t, s, RightPlace(i, e), right)
  }

  /** One node of it: a right operand and what a sign stands before are atoms or in parentheses. */
  predicate NodeAt(t: Table, s: string, i: nat, e: Expr) {
    match e
    case Leaf(atom) => LeafAt(s, i, atom)
    case Prefix(sign, operand) =>
      && (operand.Leaf? || operand.Paren?)
      && ((sign.Minus? && Ch(s, i) == '-' && !TakesMinus(operand)) || (sign.Tilde? && Ch(s, i) == '~'))
    case Paren(lead, inner, trail) => ParenAt(s, i, lead, Length(inner), trail)
    case Bin(left, before, op, text, after, right) =>
      (op, text) in t && !right.Bin? && OperatorAt(s, i + Length(left), before, text, after)
  }

  predicate ParenAt(s: string, i: nat, lead: string, n: nat, trail: string) {
    var end := i + 1 + |lead| + n;
    Ch(s, i) == '(' && BlanksAt(s, i + 1, lead) && BlanksAt(s, end, trail) && Ch(s, end + |trail|) == ')'
  }

  lemma {:induction false} ExprOpens(t: Table, s: string, i: nat, e: Expr)
    requires At(t, s, i, e)
    ensures i < |s| && Opens(s[i])
    decreases e
  {
    if e.Leaf? {
      AtomOpens(s, i, e.atom);
    } else if e.Bin? {
      ExprOpens(t, s, i, e.left);
    }
  }

  lemma PrefixSign(t: Table, s: string, i: nat, e: Expr)
    requires e.Prefix? && At(t, s, i, e)
    ensures SignAt(s, i) == e.sign
  {
    if e.sign.Minus? && e.operand.Leaf? {
      var a := e.operand.atom;
      AtomOpens(s, i + 1, a);
      if a.Label? {
        NameIs(Env(_ => None, _ => false, 0, [], 0, []), s, i + 1, a);
      }
    }
  }

  lemma {:induction false} AtFits(t: Table, s: string, i: nat, e: Expr)
    requires At(t, s, i, e)
    ensures i < i + Length(e) <= |s|
    decreases e
  {
    match e {
      case Leaf(a) => AtomOpens(s, i, a);
      case Prefix(_, operand) => AtFits(t, s, i + 1, operand);
      case Paren(_, inner, _) => AtFits(t, s, InnerPlace(i, e), inner);
      case Bin(left, _, _, _, _, right) =>
        AtFits(t, s, i, left);
        AtFits(t, s, RightPlace(i, e), right);
    }
  }

  // ---------- the evaluator on trees ----------

  /** The tree as the evaluator meets it from place i on. */
  ghost predicate Placed(env: Env, g: Text, i: nat, e: Expr)
    decreases e
  {
    && Shape(env, g, i, e)
    && match e
       case Leaf(_) => true
       case Prefix(_, operand) => Placed(env, g, i + 1, operand)
       case Paren(_, inner, _) => Placed(env, g, InnerPlace(i, e), inner)
       case Bin(left, _, _, _, _, right) => Placed(env, g, i, left) && Placed(env, g, RightPlace(i, e), right)
  }

  /** One node of it. */
  ghost predicate Shape(env: Env, g: Text, i: nat, e: Expr) {
    && i < i + Length(e) <= g.size
    && match e
       case Leaf(a) => g.sign(i).NoSign? && !g.paren(i) && g.single(i) == Reading(AtomValue(env, a), i + Length(e))
       case Prefix(sign, operand) => !sign.NoSign? && g.sign(i) == sign && g.sign(i + 1).NoSign? && !operand.Bin?
       case Paren(_, inner, _) =>
         var j := InnerPlace(i, e);
         g.sign(i).NoSign? && g.paren(i) && g.start(i + 1) == Some(j) && Closed(g, j + Length(inner), i + Length(e))
       case Bin(left, _, op, _, _, right) => !right.Bin? && Linked(g, i + Length(left), op, RightPlace(i, e))
  }

  ghost predicate Linked(g: Text, i: nat, op: Op, m: nat) {
    forall depth: nat :: g.next(i, depth) == More(op, m)
  }

  ghost predicate Closed(g: Text, end: nat, behind: nat) {
    forall depth: nat :: ClosedAt(g, end, depth, behind)
  }

  /** The expression in parentheses ends, and what comes next is what comes behind the parenthesis. */
  ghost predicate ClosedAt(g: Text, end: nat, depth: nat, behind: nat) {
    g.next(end, depth + 1).Stop? && SameNext(g, g.next(end, depth + 1).rest, behind)
  }

  ghost predicate SameNext(g: Text, i: nat, j: nat) {
    forall depth: nat :: g.next(i, depth) == g.next(j, depth)
  }

  lemma {:induction false} AtPlaced(env: Env, s: string, i: nat, e: Expr)
    requires Ordered(env.table) && At(env.table, s, i, e)
    ensures Placed(env, Scan(env, s), i, e)
    decreases e
  {
    AtShape(env, s, i, e);
    match e {
      case Leaf(_) =>
      case Prefix(_, operand) => AtPlaced(env, s, i + 1, operand);
      case Paren(_, inner, _) => AtPlaced(env, s, InnerPlace(i, e), inner);
      case Bin(left, _, _, _, _, right) =>
        AtPlaced(env, s, i, left);
        AtPlaced(env, s, RightPlace(i, e), right);
    }
  }

  lemma AtShape(env: Env, s: string, i: nat, e: Expr)
    requires Ordered(env.table) && At(env.table, s, i, e)
    ensures Shape(env, Scan(env, s), i, e)
  {
    AtFits(env.table, s, i, e);
    match e {
      case Leaf(a) =>
        LeafShape(env, s, i, a);
      case Prefix(_, _) =>
        PrefixShape(env, s, i, e);
      case Paren(_, inner, _) =>
        InnerOpens(env.table, s, InnerPlace(i, e), inner);
        ParenShape(env, s, i, e);
      case Bin(_, _, _, _, _, right) =>
        InnerOpens(env.table, s, RightPlace(i, e), right);
        BinShape(env, s, i, e);
    }
  }

  lemma InnerOpens(t: Table, s: string, i: nat, e: Expr)
    requires At(t, s, i, e)
    ensures Opens(Ch(s, i)) && Length(e) > 0
  {
    AtFits(t, s, i, e);
    ExprOpens(t, s, i, e);
  }

  lemma PrefixShape(env: Env, s: string, i: nat, e: Expr)
    requires e.Prefix? && At(env.table, s, i, e) && i < i + Length(e) <= |s|
    ensures Shape(env, Scan(env, s), i, e)
  {
    PrefixSign(env.table, s, i, e);
    NoDoubleSign(env, s, i + 1, e.operand);
  }

  lemma LeafShape(env: Env, s: string, i: nat, a: Atom)
    requires LeafAt(s, i, a) && i < i + |Spell(a)| <= |s|
    ensures Shape(env, Scan(env, s), i, Leaf(a))
  {
    AtomOpens(s, i, a);
    LeafSign(s, i, a);
    AtomIs(env, s, i, a);
  }

  lemma BinShape(env: Env, s: string, i: nat, e: Expr)
    requires Ordered(env.table) && e.Bin? && NodeAt(env.table, s, i, e) && i < i + Length(e) <= |s|
    requires Opens(Ch(s, RightPlace(i, e)))
    ensures Shape(env, Scan(env, s), i, e)
  {
    LinkFound(env, s, i + Length(e.left), e.before, e.op, e.text, e.after);
  }

  lemma NoDoubleSign(env: Env, s: string, i: nat, e: Expr)
    requires At(env.table, s, i, e) && (e.Leaf? || e.Paren?)
    ensures Scan(env, s).sign(i).NoSign?
  {
    if e.Leaf? { LeafSign(s, i, e.atom); }
  }

  lemma ParenShape(env: Env, s: string, i: nat, e: Expr)
    requires Ordered(env.table) && e.Paren? && ParenAt(s, i, e.lead, Length(e.inner), e.trail) && i + Length(e) <= |s|
    requires Opens(Ch(s, InnerPlace(i, e))) && Length(e.inner) > 0
    ensures Shape(env, Scan(env, s), i, e)
  {
    var j := InnerPlace(i, e);
    var end, behind := j + Length(e.inner), i + Length(e);
    assert end + |e.trail| + 1 == behind;
    BlanksSkipped(s, i + 1, e.lead);
    StartFound(env, s, i + 1, j);
    CloseFound(env, s, end, e.trail, behind);
    SignParen(env, s, i);
    ParenFacts(env, Scan(env, s), i, e, j, end, behind);
  }

  lemma ParenFacts(env: Env, g: Text, i: nat, e: Expr, j: nat, end: nat, behind: nat)
    requires e.Paren? && j == InnerPlace(i, e) && end == j + Length(e.inner) && behind == i + Length(e) <= g.size
    requires g.sign(i).NoSign? && g.paren(i) && g.start(i + 1) == Some(j) && Closed(g, end, behind)
    ensures Shape(env, g, i, e)
  {
  }

  lemma SignParen(env: Env, s: string, i: nat)
    requires Ch(s, i) == '('
    ensures Scan(env, s).sign(i).NoSign? && Scan(env, s).paren(i)
  {
  }

  lemma StartFound(env: Env, s: string, i: nat, j: nat)
    requires SkipBlanks(s, i) == j < |s| && Opens(s[j])
    ensures Scan(env, s).start(i) == Some(j)
  {
    assert Ch(s, j) != '\0';
  }

  lemma CloseFound(env: Env, s: string, end: nat, trail: string, behind: nat)
    requires Ordered(env.table) && BlanksAt(s, end, trail) && Ch(s, end + |trail|) == ')' && behind == end + |trail| + 1
    ensures Closed(Scan(env, s), end, behind)
  {
    forall depth: nat ensures ClosedAt(Scan(env, s), end, depth, behind) {
      CloseIs(env.table, s, end, trail, depth + 1);
      RunTwice(s, behind, SkipBlanks(s, behind), Blank);
      BlanksSame(env, s, SkipBlanks(s, behind), behind);
    }
  }

  lemma BlanksSame(env: Env, s: string, i: nat, j: nat)
    requires SkipBlanks(s, i) == SkipBlanks(s, j)
    ensures SameNext(Scan(env, s), i, j)
  {
    forall depth: nat ensures NextOperator(env.table, s, i, depth) == NextOperator(env.table, s, j, depth) {
      NextBlanks(env.table, s, i, j, depth);
    }
  }

  lemma LinkFound(env: Env, s: string, i: nat, before: string, op: Op, text: string, after: string)
    requires Ordered(env.table) && (op, text) in env.table && OperatorAt(s, i, before, text, after)
    requires Opens(Ch(s, i + |before| + |text| + |after|))
    ensures Linked(Scan(env, s), i, op, i + |before| + |text| + |after|)
  {
    forall depth: nat ensures NextOperator(env.table, s, i, depth) == More(op, i + |before| + |text| + |after|) {
      NextIs(env.table, s, i, before, op, text, after, depth);
    }
  }

  /** A reading with the tree's value, behind which the same comes as behind the tree. */
  ghost predicate Gives(g: Text, r: Outcome, v: Value, rest: nat) {
    match v
    case Bad(error) => r == Failed(error)
    case Known(value) => r.Done? && r.value == value && r.rest <= g.size && SameNext(g, r.rest, rest)
  }

  /** What is done in front of the next operator with a value, or with an error. */
  function Going(g: Text, v: Value, i: nat, depth: nat, parseDepth: nat): Outcome
    requires Sound(g) && i <= g.size
  {
    match v
    case Bad(error) => Failed(error)
    case Known(value) => Go(g, g.next(i, depth), depth, parseDepth, value)
  }

  lemma {:induction false} OperandIs(env: Env, g: Text, i: nat, e: Expr, depth: nat, parseDepth: nat)
    requires Sound(g) && Placed(env, g, i, e) && !e.Bin? && parseDepth > 0
    ensures Gives(g, Operand(g, i, depth, parseDepth), Eval(env, e, parseDepth - 1), i + Length(e))
    decreases e, 2
  {
    match e {
      case Leaf(_) =>
      case Prefix(_, operand) =>
        OperandIs(env, g, i + 1, operand, depth, parseDepth);
      case Paren(_, _, _) =>
        ParenIs(env, g, i, e, depth, parseDepth);
    }
  }

  lemma {:induction false} ParenIs(env: Env, g: Text, i: nat, e: Expr, depth: nat, parseDepth: nat)
    requires Sound(g) && Placed(env, g, i, e) && e.Paren? && parseDepth > 0
    ensures Gives(g, Operand(g, i, depth, parseDepth), Eval(env, e, parseDepth - 1), i + Length(e))
    decreases e, 1
  {
    if parseDepth < RECURSION_LIMIT {
      ChainIs(env, g, InnerPlace(i, e), e.inner, depth + 1, parseDepth + 1);
      ParenGives(env, g, i, e, depth, parseDepth, Eval(env, e.inner, parseDepth));
    }
  }

  lemma ParenGives(env: Env, g: Text, i: nat, e: Expr, depth: nat, parseDepth: nat, v: Value)
    requires Sound(g) && e.Paren? && Shape(env, g, i, e) && 0 < parseDepth < RECURSION_LIMIT
    requires var j := InnerPlace(i, e);
      j <= j + Length(e.inner) <= g.size
      && Terms(g, j, depth + 1, parseDepth + 1, None, 0) == Going(g, v, j + Length(e.inner), depth + 1, parseDepth + 1)
    ensures Gives(g, Operand(g, i, depth, parseDepth), v, i + Length(e))
  {
    assert ClosedAt(g, InnerPlace(i, e) + Length(e.inner), depth, i + Length(e));
  }

  /** A tree is evaluated up to the next operator, with its value as the total. */
  lemma {:induction false} ChainIs(env: Env, g: Text, i: nat, e: Expr, depth: nat, parseDepth: nat)
    requires Sound(g) && Placed(env, g, i, e) && parseDepth > 0
    ensures Terms(g, i, depth, parseDepth, None, 0)
      == Going(g, Eval(env, e, parseDepth - 1), i + Length(e), depth, parseDepth)
    decreases e, 3
  {
    if e.Bin? {
      LinkIs(env, g, i, e, depth, parseDepth);
    } else {
      OperandIs(env, g, i, e, depth, parseDepth);
      TurnIs(g, i, depth, parseDepth, None, 0, Eval(env, e, parseDepth - 1), i + Length(e));
    }
  }

  lemma {:induction false} LinkIs(env: Env, g: Text, i: nat, e: Expr, depth: nat, parseDepth: nat)
    requires Sound(g) && e.Bin? && Shape(env, g, i, e) && parseDepth > 0
    requires Placed(env, g, i, e.left) && Placed(env, g, RightPlace(i, e), e.right)
    ensures var a := Eval(env, e.left, parseDepth - 1);
      Terms(g, i, depth, parseDepth, None, 0)
      == Going(g, if a.Bad? then a else Applied(e.op, a.value, Eval(env, e.right, parseDepth - 1)),
               i + Length(e), depth,
               parseDepth)
    decreases e, 2
  {
    var m, end := RightPlace(i, e), i + Length(e);
    ChainIs(env, g, i, e.left, depth, parseDepth);
    OperandIs(env, g, m, e.right, depth, parseDepth);
    assert m + Length(e.right) == end;
    LinkGives(g, i, i + Length(e.left), m, end, depth, parseDepth, e.op,
              Eval(env, e.left, parseDepth - 1), Eval(env, e.right, parseDepth - 1));
  }

  /** A left part up to its operator, the operator, and the right operand. */
  lemma LinkGives(g: Text, i: nat, j: nat, m: nat, end: nat, depth: nat, parseDepth: nat, op: Op, a: Value, b: Value)
    requires Sound(g) && i <= g.size && j <= g.size && m <= g.size && end <= g.size && Linked(g, j, op, m)
    requires Terms(g, i, depth, parseDepth, None, 0) == Going(g, a, j, depth, parseDepth)
    requires Gives(g, Operand(g, m, depth, parseDepth), b, end)
    ensures Terms(g, i, depth, parseDepth, None, 0)
      == Going(g, if a.Bad? then a else Applied(op, a.value, b), end, depth, parseDepth)
  {
    if a.Known? {
      TurnIs(g, m, depth, parseDepth, Some(op), a.value, b, end);
    }
  }

  /** One turn of the loop, once the operand's value is known. */
  lemma TurnIs(g: Text, i: nat, depth: nat, parseDepth: nat, op: Option<Op>, total: int, v: Value, rest: nat)
    requires Sound(g) && i <= g.size && rest <= g.size && Gives(g, Operand(g, i, depth, parseDepth), v, rest)
    ensures Terms(g, i, depth, parseDepth, op, total)
      == Going(g, if op.None? then v else Applied(op.value, total, v), rest, depth, parseDepth)
  {
  }

  // ---------- the main results ----------

  /** The place behind a tree at i. */
  function After(i: nat, e: Expr): nat {
    i + Length(e)
  }

  /** And behind the blanks that follow it. */
  function TextEnd(s: string, i: nat, e: Expr): nat {
    SkipBlanks(s, After(i, e))
  }

  /** A text that holds an expression between blanks and before the end of the code line. */
  predicate Holds(t: Table, s: string, e: Expr, i: nat) {
    i == SkipBlanks(s, 0) && At(t, s, i, e) && EndOfCode(Ch(s, TextEnd(s, i, e)))
  }

  /** A tree's value, or the error that its evaluation meets first. */
  function Answer(env: Env, e: Expr, rest: nat): Outcome {
    Reading(Eval(env, e, 0), rest)
  }

  /** parse_num gives the tree's value, or the error that its evaluation meets first. */
  lemma ParseNumIs(env: Env, s: string, e: Expr, i: nat)
    requires Ordered(env.table) && Holds(env.table, s, e, i)
    ensures ParseNum(env, s) == Answer(env, e, TextEnd(s, i, e))
  {
    HoldsWhole(env, s, e, i);
    PlacedText(env, s, e, i, TextEnd(s, i, e));
  }

  lemma HoldsWhole(env: Env, s: string, e: Expr, i: nat)
    requires Holds(env.table, s, e, i)
    ensures Whole(Scan(env, s), i, e, TextEnd(s, i, e))
  {
    InnerOpens(env.table, s, i, e);
    WholeText(env, s, i, e, TextEnd(s, i, e));
  }

  lemma WholeText(env: Env, s: string, i: nat, e: Expr, end: nat)
    requires i == SkipBlanks(s, 0) && Opens(Ch(s, i)) && end == SkipBlanks(s, After(i, e)) && EndOfCode(Ch(s, end))
    ensures Whole(Scan(env, s), i, e, end)
  {
    StartFound(env, s, 0, i);
    EndFound(env, s, After(i, e), 0, end);
  }

  lemma EndFound(env: Env, s: string, j: nat, depth: nat, end: nat)
    requires end == SkipBlanks(s, j) && EndOfCode(Ch(s, end))
    ensures Scan(env, s).next(j, depth) == Stop(end)
  {
  }

  lemma PlacedText(env: Env, s: string, e: Expr, i: nat, end: nat)
    requires Ordered(env.table) && At(env.table, s, i, e) && Whole(Scan(env, s), i, e, end)
    ensures ParseNum(env, s) == Answer(env, e, end)
  {
    AtPlaced(env, s, i, e);
    TextIs(env, s, e, i, end);
  }

  /** The text is over behind the tree. */
  ghost predicate Whole(g: Text, i: nat, e: Expr, end: nat) {
    g.start(0) == Some(i) && g.next(After(i, e), 0) == Stop(end)
  }

  lemma TextIs(env: Env, s: string, e: Expr, i: nat, end: nat)
    requires Placed(env, Scan(env, s), i, e) && Whole(Scan(env, s), i, e, end)
    ensures ParseNum(env, s) == Answer(env, e, end)
  {
    ScanSound(env, s);
    WholeIs(env, Scan(env, s), i, e, end);
  }

  lemma WholeIs(env: Env, g: Text, i: nat, e: Expr, end: nat)
    requires Sound(g) && Placed(env, g, i, e) && Whole(g, i, e, end)
    ensures Full(g, 0, 0, 0) == Answer(env, e, end)
  {
    ChainIs(env, g, i, e, 0, 1);
  }

  /** How deep parentheses nest. */
  function Nesting(e: Expr): nat {
    match e
    case Leaf(_) => 0
    case Prefix(_, operand) => Nesting(operand)
    case Paren(_, inner, _) => 1 + Nesting(inner)
    case Bin(left, _, _, _, _, right) => if Nesting(left) > Nesting(right) then Nesting(left) else Nesting(right)
  }

  /** The value of a tree with no limit on nesting. */
  function Meaning(env: Env, e: Expr): Value {
    match e
    case Leaf(atom) => AtomValue(env, atom)
    case Prefix(sign, operand) =>
      (match Meaning(env, operand)
       case Known(v) => Known(Signed(sign, v))
       case Bad(error) => Bad(error))
    case Paren(_, inner, _) => Meaning(env, inner)
    case Bin(left, _, op, _, _, right) =>
      var a := Meaning(env, left);
      if a.Bad? then a else Applied(op, a.value, Meaning(env, right))
  }

  lemma {:induction false} EvalWithin(env: Env, e: Expr, depth: nat)
    ensures depth + Nesting(e) < RECURSION_LIMIT ==> Eval(env, e, depth) == Meaning(env, e)
    ensures depth < RECURSION_LIMIT <= depth + Nesting(e) ==> Eval(env, e, depth).Bad?
    decreases e
  {
    match e {
      case Leaf(_) =>
      case Prefix(_, operand) => EvalWithin(env, operand, depth);
      case Paren(_, inner, _) => EvalWithin(env, inner, depth + 1);
      case Bin(left, _, _, _, _, right) =>
        EvalWithin(env, left, depth);
        EvalWithin(env, right, depth);
    }
  }

  /** An expression evaluates exactly when its tree has a value and no part stands in more than
      nineteen parentheses, and then to that value. */
  lemma ParseNumMeans(env: Env, s: string, e: Expr, i: nat)
    requires env.table == MATH_DEFS && Holds(env.table, s, e, i)
    ensures ParseNum(env, s).Done? <==> Meaning(env, e).Known? && Nesting(e) <= 19
    ensures ParseNum(env, s).Done? ==> ParseNum(env, s).value == Meaning(env, e).value
  {
    MathDefsOrdered();
    ParseNumWithin(env, s, e, i);
  }

  lemma ParseNumWithin(env: Env, s: string, e: Expr, i: nat)
    requires Ordered(env.table) && Holds(env.table, s, e, i)
    ensures ParseNum(env, s).Done? <==> Meaning(env, e).Known? && Nesting(e) <= 19
    ensures ParseNum(env, s).Done? ==> ParseNum(env, s).value == Meaning(env, e).value
  {
    var r := ParseNum(env, s);
    assert r == Answer(env, e, TextEnd(s, i, e)) by {
      ParseNumIs(env, s, e, i);
    }
    EvalWithin(env, e, 0);
  }

  // ---------- printing ----------

  function Render(e: Expr): string {
    match e
    case Leaf(atom) => Spell(atom)
    case Prefix(sign, operand) => [if sign.Minus? then '-' else '~'] + Render(operand)
    case Paren(lead, inner, trail) => "(" + (lead + (Render(inner) + (trail + ")")))
    case Bin(left, before, _, text, after, right) => Render(left) + (before + (text + (after + Render(right))))
  }

  predicate AllBlank(t: string) {
    forall i :: 0 <= i < |t| ==> Blank(t[i])
  }

  /** A tree that can be printed in front of character c: no atom runs into what follows it, and a
      minus is not printed where it would be read as part of a local label. */
  predicate Printable(t: Table, e: Expr, c: char) {
    match e
    case Leaf(atom) => Proper(atom) && EndsBefore(atom, c)
    case Prefix(sign, operand) =>
      && (operand.Leaf? || operand.Paren?) && Printable(t, operand, c)
      && (sign.Tilde? || (sign.Minus? && !TakesMinus(operand)))
    case Paren(lead, inner, trail) => AllBlank(lead) && AllBlank(trail) && Printable(t, inner, (trail + ")")[0])
    case Bin(left, before, op, text, after, right) =>
      && (op, text) in t && text != "" && !right.Bin? && AllBlank(before) && AllBlank(after)
      && Printable(t, left, (before + text)[0]) && Printable(t, right, c)
  }

  lemma {:induction false} RenderLength(e: Expr)
    ensures |Render(e)| == Length(e)
    decreases e
  {
    match e {
      case Leaf(_) =>
      case Prefix(_, operand) => RenderLength(operand);
      case Paren(_, inner, _) => RenderLength(inner);
      case Bin(left, _, _, _, _, right) =>
        RenderLength(left);
        RenderLength(right);
    }
  }

  lemma {:induction false} RenderAt(t: Table, s: string, i: nat, e: Expr)
    requires TextAt(s, i, Render(e)) && Printable(t, e, Ch(s, i + |Render(e)|))
    ensures At(t, s, i, e)
    decreases e, 1
  {
    match e {
      case Leaf(_) =>
      case Prefix(_, _) => RenderPrefix(t, s, i, e, Ch(s, i + |Render(e)|));
      case Paren(_, _, _) => RenderParen(t, s, i, e);
      case Bin(_, _, _, _, _, _) => RenderBin(t, s, i, e, Ch(s, i + |Render(e)|));
    }
  }

  lemma {:induction false} RenderPrefix(t: Table, s: string, i: nat, e: Expr, c: char)
    requires e.Prefix? && TextAt(s, i, Render(e)) && Printable(t, e, c) && c == Ch(s, i + |Render(e)|)
    ensures At(t, s, i, e)
    decreases e, 0
  {
    PrefixText(s, i, e);
    RenderAt(t, s, i + 1, e.operand);
  }

  lemma {:induction false} RenderParen(t: Table, s: string, i: nat, e: Expr)
    requires e.Paren? && TextAt(s, i, Render(e)) && Printable(t, e, Ch(s, i + |Render(e)|))
    ensures At(t, s, i, e)
    decreases e, 0
  {
    ParenText(s, i, e);
    RenderAt(t, s, InnerPlace(i, e), e.inner);
  }

  lemma {:induction false} RenderBin(t: Table, s: string, i: nat, e: Expr, c: char)
    requires e.Bin? && TextAt(s, i, Render(e)) && Printable(t, e, c) && c == Ch(s, i + |Render(e)|)
    ensures At(t, s, i, e)
    decreases e, 0
  {
    assert NodeAt(t, s, i, e) by {
      BinText(s, i, e);
    }
    assert At(t, s, i, e.left) by {
      BinText(s, i, e);
      RenderAt(t, s, i, e.left);
    }
    assert At(t, s, RightPlace(i, e), e.right) by {
      BinText(s, i, e);
      RenderAt(t, s, RightPlace(i, e), e.right);
    }
  }

  lemma PrefixText(s: string, i: nat, e: Expr)
    requires e.Prefix? && TextAt(s, i, Render(e))
    ensures Ch(s, i) == (if e.sign.Minus? then '-' else '~') && TextAt(s, i + 1, Render(e.operand))
    ensures Ch(s, i + 1 + |Render(e.operand)|) == Ch(s, i + |Render(e)|)
  {
    TextSplit(s, i, [if e.sign.Minus? then '-' else '~'], Render(e.operand));
    FirstChar(s, i, Render(e));
    assert i + 1 + |Render(e.operand)| == i + |Render(e)|;
  }

  lemma ParenText(s: string, i: nat, e: Expr)
    requires e.Paren? && TextAt(s, i, Render(e)) && AllBlank(e.lead) && AllBlank(e.trail)
    ensures ParenAt(s, i, e.lead, Length(e.inner), e.trail) && TextAt(s, InnerPlace(i, e), Render(e.inner))
    ensures Ch(s, InnerPlace(i, e) + |Render(e.inner)|) == (e.trail + ")")[0]
  {
    var end := e.trail + ")";
    var body := Render(e.inner) + end;
    var j := InnerPlace(i, e);
    RenderLength(e.inner);
    FirstChar(s, i, Render(e));
    TextSplit(s, i, "(", e.lead + body);
    TextSplit(s, i + 1, e.lead, body);
    TextSplit(s, j, Render(e.inner), end);
    FirstChar(s, j + Length(e.inner), end);
    TextSplit(s, j + Length(e.inner), e.trail, ")");
    FirstChar(s, j + Length(e.inner) + |e.trail|, ")");
  }

  lemma BinText(s: string, i: nat, e: Expr)
    requires e.Bin? && TextAt(s, i, Render(e)) && e.text != "" && AllBlank(e.before) && AllBlank(e.after)
    ensures TextAt(s, i, Render(e.left)) && OperatorAt(s, i + Length(e.left), e.before, e.text, e.after)
    ensures TextAt(s, RightPlace(i, e), Render(e.right))
    ensures Ch(s, RightPlace(i, e) + |Render(e.right)|) == Ch(s, i + |Render(e)|)
    ensures Ch(s, i + |Render(e.left)|) == (e.before + e.text)[0]
  {
    RenderLength(e.left);
    FiveTexts(s, i, Render(e.left), e.before, e.text, e.after, Render(e.right));
    RightEnd(i, e);
  }

  lemma FiveTexts(s: string, i: nat, left: string, a: string, b: string, c: string, d: string)
    requires TextAt(s, i, left + (a + (b + (c + d)))) && b != ""
    ensures TextAt(s, i, left) && TextAt(s, i + |left|, a) && TextAt(s, i + |left| + |a|, b)
    ensures TextAt(s, i + |left| + |a| + |b|, c) && TextAt(s, i + |left| + |a| + |b| + |c|, d)
    ensures Ch(s, i + |left|) == (a + b)[0]
  {
    TextSplit(s, i, left, a + (b + (c + d)));
    FourTexts(s, i + |left|, a, b, c, d);
  }

  lemma RightEnd(i: nat, e: Expr)
    requires e.Bin?
    ensures RightPlace(i, e) + |Render(e.right)| == i + |Render(e)|
  {
    RenderLength(e.left);
  }

  lemma FourTexts(s: string, i: nat, a: string, b: string, c: string, d: string)
    requires TextAt(s, i, a + (b + (c + d))) && b != ""
    ensures TextAt(s, i, a) && TextAt(s, i + |a|, b) && TextAt(s, i + |a| + |b|, c) && TextAt(s, i + |a| + |b| + |c|, d)
    ensures Ch(s, i) == (a + b)[0]
  {
    FirstChar(s, i, a + (b + (c + d)));
    TextSplit(s, i, a, b + (c + d));
    TextSplit(s, i + |a|, b, c + d);
    TextSplit(s, i + |a| + |b|, c, d);
  }

  lemma {:induction false} PrintableOpens(t: Table, e: Expr, c: char)
    requires Printable(t, e, c)
    ensures Render(e) != "" && !Blank(Render(e)[0])
    decreases e
  {
    match e {
      case Leaf(a) => assert Proper(a);
      case Prefix(_, _) =>
      case Paren(_, _, _) =>
      case Bin(left, before, _, text, _, _) => PrintableOpens(t, left, (before + text)[0]);
    }
  }

  /** A printed tree between blanks. */
  function Padded(lead: string, e: Expr, trail: string): string {
    lead + (Render(e) + trail)
  }

  /** What cannot belong to a name may stand behind any tree. */
  lemma {:induction false} PrintableBefore(t: Table, e: Expr, c: char, d: char)
    requires Printable(t, e, c) && !NameChar(d)
    ensures Printable(t, e, d)
    decreases e
  {
    match e {
      case Leaf(_) =>
      case Prefix(_, operand) => PrintableBefore(t, operand, c, d);
      case Paren(_, _, _) =>
      case Bin(_, _, _, _, _, right) => PrintableBefore(t, right, c, d);
    }
  }

  /** Printing a tree between blanks and evaluating the text gives the tree's value, or the error its
      evaluation meets first, for all trees. */
  lemma ParsePadded(env: Env, lead: string, e: Expr, trail: string)
    requires env.table == MATH_DEFS && Printable(env.table, e, '\0') && AllBlank(lead) && AllBlank(trail)
    ensures var s := Padded(lead, e, trail); ParseNum(env, s) == Answer(env, e, |s|)
  {
    MathDefsOrdered();
    PaddedHolds(env.table, lead, e, trail);
    ParseNumIs(env, Padded(lead, e, trail), e, |lead|);
  }

  lemma PaddedHolds(t: Table, lead: string, e: Expr, trail: string)
    requires Printable(t, e, '\0') && AllBlank(lead) && AllBlank(trail)
    ensures var s := Padded(lead, e, trail); Holds(t, s, e, |lead|) && TextEnd(s, |lead|, e) == |s|
  {
    var s, body := Padded(lead, e, trail), Render(e);
    RenderLength(e);
    PrintableOpens(t, e, '\0');
    BlanksAround(s, lead, body, trail);
    PrintableBefore(t, e, '\0', Ch(s, |lead| + |body|));
    RenderAt(t, s, |lead|, e);
  }

  lemma BlanksAround(s: string, lead: string, body: string, trail: string)
    requires s == lead + (body + trail) && AllBlank(lead) && AllBlank(trail) && body != "" && !Blank(body[0])
    ensures SkipBlanks(s, 0) == |lead| && TextAt(s, |lead|, body)
    ensures SkipBlanks(s, |lead| + |body|) == |s| && !NameChar(Ch(s, |lead| + |body|))
  {
    ThreeTexts(s, lead, body, trail);
    FirstChar(s, |lead|, body);
    BlanksSkipped(s, 0, lead);
    BlanksToEnd(s, |lead| + |body|, trail);
  }

  lemma ThreeTexts(s: string, a: string, b: string, c: string)
    requires s == a + (b + c)
    ensures TextAt(s, 0, a) && TextAt(s, |a|, b) && TextAt(s, |a| + |b|, c) && |s| == |a| + |b| + |c|
  {
    TextSelf(s);
    TextSplit(s, 0, a, b + c);
    TextSplit(s, |a|, b, c);
  }

  lemma BlanksToEnd(s: string, i: nat, trail: string)
    requires TextAt(s, i, trail) && AllBlank(trail) && i + |trail| == |s|
    ensures SkipBlanks(s, i) == |s| && !NameChar(Ch(s, i))
  {
    FirstChar(s, i, trail);
    BlanksSkipped(s, i, trail);
  }

  lemma TextSelf(s: string)
    ensures TextAt(s, 0, s)
  {
  }

  lemma PaddedNot(e: Expr)
    ensures Padded("", e, "") == Render(e)
  {
  }

  lemma ParsePrinted(env: Env, e: Expr)
    requires env.table == MATH_DEFS && Printable(env.table, e, '\0')
    ensures ParseNum(env, Render(e)) == Answer(env, e, |Render(e)|)
  {
    ParsePadded(env, "", e, "");
    PaddedNot(e);
  }

  // ---------- the code ----------

  class Evaluator {
    const env: Env
    const s: string
    var parseDepth: nat
    ghost const g: Text

    constructor (env: Env, s: string)
      ensures Valid() && this.env == env && this.s == s
    {
      this.env, this.s, parseDepth := env, s, 0;
      g := Scan(env, s);
      ScanSound(env, s);
    }

    method ConvertRun(i: nat, end: nat, base: nat, rest: nat) returns (r: Outcome)
      requires i <= end <= |s|
      ensures r == Numeral(s, i, end, base, rest)
    {
      var acc, j := 0, i;
      while j < end
        invariant i <= j <= end
        invariant Convert(s, j, end, base, acc) == Convert(s, i, end, base, 0)
      {
        if DigitValue(s[j]) >= base {
          return Failed(InvalidDigit);
        }
        acc := Wrap(acc * base + DigitValue(s[j]));
        j := j + 1;
      }
      r := Done(acc, rest);
    }

    /** The local label cases of parse_single_num. */
    method ParseLocal(i: nat) returns (r: Outcome)
      requires Ch(s, i) == '+' || Ch(s, i) == '-'
      ensures r == Single(env, s, i)
    {
      if s[i] == '+' {
        var j := SkipRun(s, i, c => c == '+');
        if Ch(s, j) != '_' {
          return Failed(LocalSyntax);
        }
        return LocalAt(env, env.current - 1 + (j - i), j + 1);
      }
      var j, back := i + 1, env.current - 1;
      while j < |s| && s[j] == '-' && back > 0
        invariant i < j && StepBack(s, j, back) == StepBack(s, i + 1, env.current - 1)
      {
        j, back := j + 1, back - 1;
      }
      if Ch(s, j) != '_' {
        return Failed(LocalSyntax);
      }
      r := LocalAt(env, back, j + 1);
    }

    /** A number with a mark in front, or the program counter. */
    method ParseMarked(i: nat) returns (r: Outcome)
      requires Ch(s, i) == '$' || Ch(s, i) == '%'
      ensures r == Single(env, s, i)
    {
      if s[i] == '$' && !HexDigitChar(Ch(s, i + 1)) {
        return Done(env.pc, i + 1);
      }
      var j := SkipRun(s, i + 1, Alnum);
      r := ConvertRun(i + 1, j, if s[i] == '$' then 16 else 2, j);
    }

    method ParseSuffixed(i: nat) returns (r: Outcome)
      requires Digit(Ch(s, i))
      ensures r == Suffixed(s, i)
    {
      var j := SkipRun(s, i, Alnum);
      match Upper(s[j - 1]) {
        case 'H' => r := ConvertRun(i, j - 1, 16, j);
        case 'B' => r := ConvertRun(i, j - 1, 2, j);
        case 'D' => r := ConvertRun(i, j - 1, 10, j);
        case _ => r := ConvertRun(i, j, 10, j);
      }
    }

    method ParseName(i: nat) returns (r: Outcome)
      requires i < |s|
      ensures r == Named(env, s, i)
    {
      var j := SkipRun(s, i, NameChar);
      var name := s[i..j];
      if name == "_" {
        return LocalAt(env, env.current, j);
      }
      var known := env.labels(name);
      if known.Some? {
        return Done(known.value, j);
      }
      r := Failed(if env.macros(name) then Unmodelled else LabelNotFound);
    }

    /** The character literals of parse_single_num. */
    method ParseCharacter(i: nat) returns (r: Outcome)
      ensures r == Quoted(s, i)
    {
      var at, value := i + 1, Some(CharValue(Ch(s, i + 1)));
      if Ch(s, at) == '\\' {
        at := at + 1;
        match Upper(Ch(s, at)) {
          case 'N' => value := Some(10);
          case '0' => value := Some(0);
          case 'R' => value := Some(13);
          case 'T' => value := Some(9);
          case '#' => value := None;
          case _ => value := Some(CharValue(Ch(s, at)));
        }
      }
      if at >= |s| || value.None? {
        return Failed(Unmodelled);
      }
      at := at + 1;
      if Ch(s, at) == '\'' {
        at := at + 1;
      }
      r := Done(value.value, at);
    }

    /** parse_single_num. */
    method ParseSingleNum(i: nat) returns (r: Outcome)
      ensures r == Single(env, s, i)
    {
      var c := Ch(s, i);
      if c == '+' || c == '-' {
        r := ParseLocal(i);
      } else if c == '$' || c == '%' {
        r := ParseMarked(i);
      } else if c == '\'' {
        r := ParseCharacter(i);
      } else if Alpha(c) || c == '_' {
        r := ParseName(i);
      } else if Digit(c) {
        r := ParseSuffixed(i);
      } else {
        r := Failed(BadValuePrefix);
      }
    }

    /** The search through the operator table. */
    method FindOperator(i: nat) returns (k: nat)
      ensures k == FirstMatch(env.table, s, i, 0)
    {
      k := 0;
      while k < |env.table| && !TextAt(s, i, env.table[k].1)
        invariant k <= |env.table| && FirstMatch(env.table, s, i, k) == FirstMatch(env.table, s, i, 0)
      {
        k := k + 1;
      }
    }

    /** One try: what is found, unless it is an extra parenthesis to go on behind. */
    method TryOperator(i: nat, depth: nat) returns (extra: Option<nat>, next: Next)
      ensures extra.None? ==> next == NextOperator(env.table, s, i, depth)
      ensures extra.Some? ==> i < extra.value <= |s|
      ensures extra.Some? ==> NextOperator(env.table, s, extra.value, depth) == NextOperator(env.table, s, i, depth)
    {
      var j := SkipRun(s, i, Blank);
      if EndOfCode(Ch(s, j)) {
        return None, Stop(j);
      }
      var k := FindOperator(j);
      if k < |env.table| {
        var m := SkipRun(s, j + |env.table[k].1|, Blank);
        return None, OperandPlace(s, env.table[k].0, m);
      }
      if s[j] != ')' {
        return None, Wrong(OperatorExpected);
      }
      if depth > 0 {
        var m := SkipRun(s, j + 1, Blank);
        return None, Stop(m);
      }
      return Some(j + 1), Wrong(OperatorExpected);
    }

    /** The code from the label get_op to the end of the loop's body. */
    method GetOperator(i: nat, depth: nat) returns (next: Next)
      ensures next == NextOperator(env.table, s, i, depth)
    {
      var at := i;
      while true
        invariant NextOperator(env.table, s, at, depth) == NextOperator(env.table, s, i, depth)
        decreases |s| - at
      {
        var extra, found := TryOperator(at, depth);
        if extra.None? {
          return found;
        }
        at := extra.value;
      }
    }

    /** The sign in front of an operand and where the operand starts. */
    method ParseSign(i: nat) returns (sign: Sign)
      ensures sign == SignAt(s, i)
    {
      sign := NoSign;
      if Ch(s, i) == '~' {
        sign := Tilde;
      } else if Ch(s, i) == '-' {
        var end := SkipRun(s, i + 1, NameChar);
        if !(Ch(s, i + 1) == '-' || (Ch(s, i + 1) == '_' && end == i + 2)) {
          sign := Minus;
        }
      }
    }

    ghost predicate Valid() {
      g == Scan(env, s) && Sound(g)
    }

    /** One operand with its sign. */
    method ParseOperand(i: nat, depth: nat) returns (r: Outcome)
      requires Valid() && i <= |s|
      modifies this`parseDepth
      ensures r == Operand(g, i, depth, old(parseDepth)) && (r.Done? ==> parseDepth == old(parseDepth))
      decreases |s| - i, 1
    {
      var sign := ParseSign(i);
      var j := if sign.NoSign? then i else i + 1;
      if Ch(s, j) == '(' {
        r := ParseNumFull(j + 1, depth + 1);
      } else {
        r := ParseSingleNum(j);
      }
      if r.Done? {
        r := Done(Signed(sign, r.value), r.rest);
      }
    }

    method FindStart(i: nat) returns (r: Option<nat>)
      requires Valid()
      ensures r == g.start(i)
    {
      var j := SkipRun(s, i, Blank);
      r := if Ch(s, j) == '\0' then None else Some(j);
    }

    /** One turn of the loop: an operand, its operation, and what comes next. */
    method ParseTurn(i: nat, depth: nat, op: Option<Op>, total: int) returns (t: int, next: Next)
      requires Valid() && i <= |s|
      modifies this`parseDepth
      ensures next.More? ==> i < next.rest <= |s|
      ensures next.Stop? ==> next.rest <= |s|
      ensures Terms(g, i, depth, old(parseDepth), op, total) == Go(g, next, depth, old(parseDepth), t)
      ensures !next.Wrong? ==> parseDepth == old(parseDepth)
      decreases |s| - i, 2
    {
      var r := ParseOperand(i, depth);
      if r.Failed? {
        return 0, Wrong(r.error);
      }
      var combined := Combine(op, total, r.value);
      if combined.None? {
        return 0, Wrong(Undefined);
      }
      t := combined.value;
      next := GetOperator(r.rest, depth);
    }

    /** parse_num_full. parse_depth is counted up on entry and down again only on success. */
    method ParseNumFull(i: nat, depth: nat) returns (r: Outcome)
      requires Valid() && i <= |s|
      modifies this`parseDepth
      ensures r == Full(g, i, depth, old(parseDepth)) && (r.Done? ==> parseDepth == old(parseDepth))
      decreases |s| - i, 3
    {
      parseDepth := parseDepth + 1;
      if parseDepth > RECURSION_LIMIT {
        return Failed(RecursionLimit);
      }
      var start := FindStart(i);
      if start.None? {
        return Failed(ValueExpected);
      }
      var at, total, op := start.value, 0, None;
      while true
        invariant i <= at <= |s| && parseDepth == old(parseDepth) + 1
        invariant Terms(g, at, depth, parseDepth, op, total) == Full(g, i, depth, old(parseDepth))
        decreases |s| - at
      {
        var next;
        total, next := ParseTurn(at, depth, op, total);
        match next {
          case Stop(rest) =>
            parseDepth := parseDepth - 1;
            return Done(total, rest);
          case Wrong(error) =>
            return Failed(error);
          case More(o, rest) =>
            op, at := Some(o), rest;
        }
      }
    }

    /** parse_num: false and the value 0 on any error. */
    method Parse() returns (ok: bool, value: int)
      requires Valid()
      modifies this`parseDepth
      ensures var r := ParseNum(env, s); ok == r.Done? && value == (if r.Done? then r.value else 0)
    {
      parseDepth := 0;
      var r := ParseNumFull(0, 0);
      return r.Done?, if r.Done? then r.value else 0;
    }
  }
}
