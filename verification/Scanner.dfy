/** What the expression evaluator reads off the text in one go: numbers, names, local labels, signs
    and operators. A place in the text is an index, as the C code's pointer is. */
module Scanner {
  import opened Bytes
  import opened Arithmetic

  datatype Error =
    | RecursionLimit | ValueExpected | BadValuePrefix | OperatorExpected | LabelNotFound
    | LocalForwardRef | LocalSyntax | InvalidDigit
    | Undefined   // C leaves the arithmetic undefined
    | Unmodelled  // a macro, eval() or getc(), a random character, or a character literal the text cuts off

  /** A value and the place behind it, or the error reported. */
  datatype Outcome = Done(value: int, rest: nat) | Failed(error: Error)

  /** The operators and their spellings, in the order they are tried. */
  type Table = seq<(Op, string)>

  /** What an expression may refer to: labels, names of macros, program_counter, the values of the
      local labels and curr_reusable; and the table of operators. */
  datatype Env = Env(labels: string -> Option<int>, macros: string -> bool, pc: int, locals: seq<int>,
                     current: nat, table: Table)

  // ---------- characters ----------

  /** The character at a place; the text ends in a zero. */
  function Ch(s: string, i: nat): char {
    if i < |s| then s[i] else '\0'
  }

  predicate Digit(c: char) {
    '0' <= c <= '9'
  }

  predicate HexDigitChar(c: char) {
    Digit(c) || 'a' <= c <= 'f' || 'A' <= c <= 'F'
  }

  predicate Alpha(c: char) {
    'a' <= c <= 'z' || 'A' <= c <= 'Z'
  }

  predicate Alnum(c: char) {
    Digit(c) || Alpha(c)
  }

  predicate NameChar(c: char) {
    Alnum(c) || c == '_' || c == '[' || c == ']' || c == '!' || c == '?' || c == '.'
  }

  predicate Blank(c: char) {
    c == ' ' || c == '\t' || c == '\U{B}' || c == '\U{C}'
  }

  predicate EndOfCode(c: char) {
    c == '\0' || c == '\n' || c == '\r' || c == ';' || c == '\\'
  }

  function Upper(c: char): char {
    if 'a' <= c <= 'z' then (c as int - 32) as char else c
  }

  /** The end of the run of characters of one class that starts at i. */
  function RunEnd(s: string, i: nat, p: char -> bool): (j: nat)
    ensures i <= j && (i <= |s| ==> j <= |s|)
    ensures forall k :: i <= k < j ==> k < |s| && p(s[k])
    ensures j < |s| ==> !p(s[j])
    decreases |s| - i
  {
    if i < |s| && p(s[i]) then RunEnd(s, i + 1, p) else i
  }

  method SkipRun(s: string, i: nat, p: char -> bool) returns (j: nat)
    ensures j == RunEnd(s, i, p)
  {
    j := i;
    while j < |s| && p(s[j])
      invariant i <= j && RunEnd(s, j, p) == RunEnd(s, i, p)
    {
      j := j + 1;
    }
  }

  function SkipBlanks(s: string, i: nat): (j: nat)
    ensures i <= j && (i <= |s| ==> j <= |s|)
    ensures !Blank(Ch(s, j))
  {
    RunEnd(s, i, Blank)
  }

  // ---------- numerals ----------

  function DigitValue(c: char): nat {
    if Digit(c) then c as int - '0' as int
    else if 'a' <= c <= 'z' then c as int - 'a' as int + 10
    else if 'A' <= c <= 'Z' then c as int - 'A' as int + 10
    else 36
  }

  /** conv_hex, conv_dec and conv_bin: an accumulator of 32 bits, or nothing on a foreign digit. */
  function Convert(s: string, i: nat, end: nat, base: nat, acc: int): (r: Option<int>)
    requires i <= end <= |s|
    decreases end - i
  {
    if i == end then Some(acc)
    else if DigitValue(s[i]) >= base then None
    else Convert(s, i + 1, end, base, Wrap(acc * base + DigitValue(s[i])))
  }

  function Numeral(s: string, i: nat, end: nat, base: nat, rest: nat): Outcome
    requires i <= end <= |s|
  {
    match Convert(s, i, end, base, 0)
    case Some(v) => Done(v, rest)
    case None => Failed(InvalidDigit)
  }

  // ---------- parse_single_num ----------

  /** The minus signs of a local label behind the first: one for each step back, down to the first. */
  function StepBack(s: string, i: nat, from: int): (r: (nat, int))
    ensures i <= r.0 && (i <= |s| ==> r.0 <= |s|) && r.1 <= from && (from >= 0 ==> r.1 >= 0)
    decreases |s| - i
  {
    if i < |s| && s[i] == '-' && from > 0 then StepBack(s, i + 1, from - 1) else (i, from)
  }

  function LocalAhead(env: Env, s: string, i: nat): Outcome {
    var j := RunEnd(s, i, c => c == '+');
    if Ch(s, j) != '_' then Failed(LocalSyntax)
    else LocalAt(env, env.current - 1 + (j - i), j + 1)
  }

  function LocalAt(env: Env, index: int, rest: nat): Outcome {
    if index >= |env.locals| then Failed(LocalForwardRef)
    else if index < 0 then Failed(LocalSyntax)
    else Done(env.locals[index], rest)
  }

  function LocalBehind(env: Env, s: string, i: nat): Outcome {
    var (j, back) := StepBack(s, i + 1, env.current - 1);
    if Ch(s, j) != '_' then Failed(LocalSyntax) else LocalAt(env, back, j + 1)
  }

  function Named(env: Env, s: string, i: nat): Outcome
    requires i < |s|
  {
    var j := RunEnd(s, i, NameChar);
    var name := s[i..j];
    if name == "_" then LocalAt(env, env.current, j) else
      match env.labels(name)
      case Some(v) => Done(v, j)
      case None => if env.macros(name) then Failed(Unmodelled) else Failed(LabelNotFound)
  }

  function Dollar(env: Env, s: string, i: nat): Outcome
    requires i < |s|
  {
    if HexDigitChar(Ch(s, i + 1)) then
      var j := RunEnd(s, i + 1, Alnum);
      Numeral(s, i + 1, j, 16, j)
    else Done(env.pc, i + 1)
  }

  function Suffixed(s: string, i: nat): Outcome
    requires i < |s| && Digit(s[i])
  {
    var j := RunEnd(s, i, Alnum);
    var last := Upper(s[j - 1]);
    if last == 'H' then Numeral(s, i, j - 1, 16, j)
    else if last == 'B' then Numeral(s, i, j - 1, 2, j)
    else if last == 'D' then Numeral(s, i, j - 1, 10, j)
    else Numeral(s, i, j, 10, j)
  }

  /** A char as an int: bytes from 0x80 on are negative. */
  function CharValue(c: char): int {
    var b := c as int % 256;
    if b < 128 then b else b - 256
  }

  /** What a character behind a backslash stands for; a # is a random number. */
  function EscapeValue(c: char): Option<int> {
    if c == 'n' || c == 'N' then Some(10)
    else if c == 'r' || c == 'R' then Some(13)
    else if c == 't' || c == 'T' then Some(9)
    else if c == '0' then Some(0)
    else if c == '#' then None
    else Some(CharValue(c))
  }

  /** A character literal; a missing quote at its end is only warned of. */
  function Quoted(s: string, i: nat): Outcome {
    var at := if Ch(s, i + 1) == '\\' then i + 2 else i + 1;
    var v := if at == i + 1 then Some(CharValue(Ch(s, at))) else EscapeValue(Ch(s, at));
    if at >= |s| || v.None? then Failed(Unmodelled)
    else Done(v.value, if Ch(s, at + 1) == '\'' then at + 2 else at + 1)
  }

  function Single(env: Env, s: string, i: nat): (r: Outcome)
    ensures r.Done? ==> i < r.rest <= |s|
  {
    var c := Ch(s, i);
    if c == '+' then LocalAhead(env, s, i)
    else if c == '-' then LocalBehind(env, s, i)
    else if c == '$' then Dollar(env, s, i)
    else if c == '%' then
      var j := RunEnd(s, i + 1, Alnum);
      Numeral(s, i + 1, j, 2, j)
    else if c == '\'' then Quoted(s, i)
    else if Alpha(c) || c == '_' then Named(env, s, i)
    else if Digit(c) then Suffixed(s, i)
    else Failed(BadValuePrefix)
  }

  // ---------- operators ----------

  /** The MathDefs table, in its order. */
  const MATH_DEFS: Table := [
    (ShiftLeft, "<<"), (ShiftRight, ">>"),
    (And, "&&"), (Or, "||"), (AtMost, "<="), (AtLeast, ">="), (Less, "<"), (Greater, ">"),
    (Equal, "=="), (Equal, "="), (NotEqual, "!="),
    (Add, "+"), (Subtract, "-"), (Multiply, "*"), (Divide, "/"), (Modulo, "%"),
    (Xor, "^"), (BitAnd, "&"), (BitOr, "|")]

  predicate TextAt(s: string, i: nat, t: string) {
    i + |t| <= |s| && forall k :: 0 <= k < |t| ==> t[k] == s[i + k]
  }

  /** The first entry from k on that stands at i. */
  function FirstMatch(t: Table, s: string, i: nat, k: nat): (r: nat)
    requires k <= |t|
    ensures k <= r <= |t|
    ensures r < |t| ==> TextAt(s, i, t[r].1)
    ensures forall j :: k <= j < r ==> !TextAt(s, i, t[j].1)
    decreases |t| - k
  {
    if k == |t| || TextAt(s, i, t[k].1) then k else FirstMatch(t, s, i, k + 1)
  }

  /** What the code finds behind a value: the end, the next operator with the place of its operand, or an error. */
  datatype Next = Stop(rest: nat) | More(op: Op, rest: nat) | Wrong(error: Error)

  function NextOperator(t: Table, s: string, i: nat, depth: nat): (r: Next)
    ensures r.Stop? ==> i <= r.rest && (i <= |s| ==> r.rest <= |s|)
    ensures r.More? ==> i <= r.rest < |s|
    decreases |s| - i
  {
    var j := SkipBlanks(s, i);
    if EndOfCode(Ch(s, j)) then Stop(j) else
      var k := FirstMatch(t, s, j, 0);
      if k < |t| then OperandPlace(s, t[k].0, SkipBlanks(s, j + |t[k].1|))
      else if s[j] == ')' then
        if depth > 0 then Stop(SkipBlanks(s, j + 1)) else NextOperator(t, s, j + 1, depth)
      else Wrong(OperatorExpected)
  }

  function OperandPlace(s: string, op: Op, i: nat): Next {
    if Ch(s, i) == '\0' then Wrong(ValueExpected) else More(op, i)
  }

  // ---------- signs ----------

  datatype Sign = NoSign | Minus | Tilde

  /** The sign in front of an operand; a minus that belongs to a local label is none. */
  function SignAt(s: string, i: nat): Sign {
    if Ch(s, i) == '~' then Tilde
    else if Ch(s, i) == '-' then
      if Ch(s, i + 1) == '-' || (Ch(s, i + 1) == '_' && RunEnd(s, i + 1, NameChar) == i + 2) then NoSign else Minus
    else NoSign
  }

  /** The first character of an expression, unless the text is over. */
  function Start(s: string, i: nat): (r: Option<nat>)
    ensures r.Some? ==> i <= r.value < |s|
  {
    var j := SkipBlanks(s, i);
    if Ch(s, j) == '\0' then None else Some(j)
  }

  // ---------- atoms ----------

  datatype Atom =
    | Decimal(digits: string)
    | Hex(digits: string)                               // $1F
    | Binary(digits: string)                            // %101
    | Suffix(base: nat, digits: string, letter: char)   // 1Fh, 101b and 12d
    | Here                                              // $
    | Label(name: string)
    | NextLocal                                         // _
    | Ahead(n: nat)                                     // +_, ++_
    | Behind(n: nat)                                    // -_, --_
    | Character(c: char)                                // 'A'
    | Escape(c: char)                                   // '\n'

  /** The value of a numeral: its digits by their places, in 32 bits. */
  function DigitsValue(digits: string, base: nat): int {
    if digits == "" then 0 else DigitsValue(digits[..|digits| - 1], base) * base + DigitValue(digits[|digits| - 1])
  }

  datatype Value = Known(value: int) | Bad(error: Error)

  function LocalValue(env: Env, index: int): Value {
    if index >= |env.locals| then Bad(LocalForwardRef)
    else if index < 0 then Bad(LocalSyntax)
    else Known(env.locals[index])
  }

  function AtomValue(env: Env, a: Atom): Value {
    match a
    case Decimal(digits) => Known(Wrap(DigitsValue(digits, 10)))
    case Hex(digits) => Known(Wrap(DigitsValue(digits, 16)))
    case Binary(digits) => Known(Wrap(DigitsValue(digits, 2)))
    case Suffix(base, digits, _) => Known(Wrap(DigitsValue(digits, base)))
    case Here => Known(env.pc)
    case Label(name) =>
      (match env.labels(name)
       case Some(v) => Known(v)
       case None => Bad(if env.macros(name) then Unmodelled else LabelNotFound))
    case NextLocal => LocalValue(env, env.current)
    case Ahead(n) => LocalValue(env, env.current + n - 1)
    case Behind(n) => LocalValue(env, env.current - n)
    case Character(c) => Known(CharValue(c))
    case Escape(c) => if EscapeValue(c).Some? then Known(EscapeValue(c).value) else Bad(Unmodelled)
  }

  // ---------- how atoms stand in a text ----------

  function Spell(a: Atom): string {
    match a
    case Decimal(digits) => digits
    case Hex(digits) => "$" + digits
    case Binary(digits) => "%" + digits
    case Suffix(_, digits, letter) => digits + [letter]
    case Here => "$"
    case Label(name) => name
    case NextLocal => "_"
    case Ahead(n) => Repeat('+', n) + "_"
    case Behind(n) => Repeat('-', n) + "_"
    case Character(c) => ['\'', c, '\'']
    case Escape(c) => ['\'', '\\', c, '\'']
  }

  predicate Digits(t: string, base: nat) {
    t != "" && forall i :: 0 <= i < |t| ==> Alnum(t[i]) && DigitValue(t[i]) < base
  }

  predicate BaseLetter(base: nat, letter: char) {
    (base == 16 && letter in "Hh") || (base == 2 && letter in "Bb") || (base == 10 && letter in "Dd")
  }

  /** An atom as a programmer can write it. */
  predicate Proper(a: Atom) {
    match a
    case Decimal(digits) => Digits(digits, 10)
    case Hex(digits) => Digits(digits, 16)
    case Binary(digits) => Digits(digits, 2)
    case Suffix(base, digits, letter) =>
      && Digits(digits, base) && Digit(digits[0])
      && BaseLetter(base, letter)
    case Here => true
    case Label(name) =>
      && name != "" && name != "_" && (Alpha(name[0]) || name[0] == '_')
      && forall i :: 0 <= i < |name| ==> NameChar(name[i])
    case NextLocal => true
    case Ahead(n) => n > 0
    case Behind(n) => n > 0
    case Character(c) => c != '\\' && c != '\0'
    case Escape(c) => c != '#' && c != '\0'
  }

  /** The character behind an atom does not belong to it. */
  predicate EndsBefore(a: Atom, c: char) {
    match a
    case Decimal(_) => !Alnum(c)
    case Hex(_) => !Alnum(c)
    case Binary(_) => !Alnum(c)
    case Suffix(_, _, _) => !Alnum(c)
    case Here => !HexDigitChar(c)
    case Label(_) => !NameChar(c)
    case NextLocal => !NameChar(c)
    case Ahead(_) => true
    case Behind(_) => !NameChar(c)
    case Character(_) => true
    case Escape(_) => true
  }

  predicate BlanksAt(s: string, i: nat, blanks: string) {
    TextAt(s, i, blanks) && forall k :: 0 <= k < |blanks| ==> Blank(blanks[k])
  }

  predicate OperatorAt(s: string, i: nat, before: string, text: string, after: string) {
    BlanksAt(s, i, before) && TextAt(s, i + |before|, text) && BlanksAt(s, i + |before| + |text|, after)
  }

  // ---------- atoms are read back ----------

  /** A run of exactly n characters of a class is found. */
  lemma {:induction false} RunIs(s: string, i: nat, n: nat, p: char -> bool)
    requires i + n <= |s| && (forall k :: i <= k < i + n ==> p(s[k])) && (i + n < |s| ==> !p(s[i + n]))
    ensures RunEnd(s, i, p) == i + n
    decreases n
  {
    if n > 0 { RunIs(s, i + 1, n - 1, p); }
  }

  lemma TextChar(s: string, i: nat, t: string, k: nat)
    requires TextAt(s, i, t) && k < |t|
    ensures s[i + k] == t[k]
  {
  }

  lemma TextSplit(s: string, i: nat, a: string, b: string)
    requires TextAt(s, i, a + b)
    ensures TextAt(s, i, a) && TextAt(s, i + |a|, b)
  {
    forall k | 0 <= k < |a| ensures a[k] == s[i + k] {
      assert (a + b)[k] == a[k];
    }
    forall k | 0 <= k < |b| ensures b[k] == s[i + |a| + k] {
      assert (a + b)[|a| + k] == b[k];
    }
  }

  /** The digits so far and the rest give the numeral's value modulo 2^32. */
  lemma {:induction false} ConvertIs(s: string, i: nat, end: nat, base: nat, done: string)
    requires i <= end <= |s| && forall k :: i <= k < end ==> DigitValue(s[k]) < base
    ensures Convert(s, i, end, base, Wrap(DigitsValue(done, base))) == Some(Wrap(DigitsValue(done + s[i..end], base)))
    decreases end - i
  {
    if i == end {
      assert done + s[i..end] == done;
    } else {
      var more := done + [s[i]];
      assert more[..|more| - 1] == done;
      WrapTimes(DigitsValue(done, base), base, DigitValue(s[i]));
      ConvertIs(s, i + 1, end, base, more);
      assert done + s[i..end] == more + s[i + 1..end];
    }
  }

  lemma NumeralIs(s: string, i: nat, digits: string, base: nat)
    requires TextAt(s, i, digits) && Digits(digits, base)
    ensures Convert(s, i, i + |digits|, base, 0) == Some(Wrap(DigitsValue(digits, base)))
  {
    forall k | i <= k < i + |digits| ensures DigitValue(s[k]) < base {
      TextChar(s, i, digits, k - i);
    }
    ConvertIs(s, i, i + |digits|, base, "");
    assert s[i..i + |digits|] == digits;
    assert "" + digits == digits;
  }

  lemma AlnumRun(s: string, i: nat, t: string)
    requires TextAt(s, i, t) && !Alnum(Ch(s, i + |t|)) && forall k :: 0 <= k < |t| ==> Alnum(t[k])
    ensures RunEnd(s, i, Alnum) == i + |t|
  {
    forall k | i <= k < i + |t| ensures Alnum(s[k]) {
      TextChar(s, i, t, k - i);
    }
    RunIs(s, i, |t|, Alnum);
  }

  function Reading(v: Value, rest: nat): Outcome {
    match v
    case Known(value) => Done(value, rest)
    case Bad(error) => Failed(error)
  }

  predicate LeafAt(s: string, i: nat, a: Atom) {
    Proper(a) && TextAt(s, i, Spell(a)) && EndsBefore(a, Ch(s, i + |Spell(a)|))
  }

  /** The base a last letter selects, and how much of the text is digits. */
  lemma LetterBase(env: Env, s: string, i: nat, end: nat, base: nat, v: int)
    requires i <= end < |s| && Digit(s[i]) && RunEnd(s, i, Alnum) == end + 1
    requires BaseLetter(base, s[end]) && Convert(s, i, end, base, 0) == Some(v)
    ensures Single(env, s, i) == Done(v, end + 1)
  {
  }

  lemma NoLetter(env: Env, s: string, i: nat, j: nat, v: int)
    requires i < j <= |s| && Digit(s[i]) && RunEnd(s, i, Alnum) == j && Digit(s[j - 1])
    requires Convert(s, i, j, 10, 0) == Some(v)
    ensures Single(env, s, i) == Done(v, j)
  {
  }

  lemma LastDigit(digits: string)
    requires Digits(digits, 10)
    ensures Digit(digits[0]) && Digit(digits[|digits| - 1])
  {
  }

  lemma DecimalIs(env: Env, s: string, i: nat, a: Atom)
    requires a.Decimal? && LeafAt(s, i, a)
    ensures Single(env, s, i) == Reading(AtomValue(env, a), i + |Spell(a)|)
  {
    var j := i + |a.digits|;
    LastDigit(a.digits);
    TextChar(s, i, a.digits, 0);
    TextChar(s, i, a.digits, |a.digits| - 1);
    AlnumRun(s, i, a.digits);
    NumeralIs(s, i, a.digits, 10);
    NoLetter(env, s, i, j, Wrap(DigitsValue(a.digits, 10)));
  }

  /** Digits behind a mark. */
  lemma MarkedDigits(s: string, i: nat, mark: char, digits: string, base: nat)
    requires TextAt(s, i, [mark] + digits) && Digits(digits, base) && !Alnum(Ch(s, i + 1 + |digits|))
    ensures Ch(s, i) == mark && TextAt(s, i + 1, digits) && RunEnd(s, i + 1, Alnum) == i + 1 + |digits|
    ensures base == 16 ==> HexDigitChar(Ch(s, i + 1))
  {
    TextChar(s, i, [mark] + digits, 0);
    TextSplit(s, i, [mark], digits);
    TextChar(s, i + 1, digits, 0);
    AlnumRun(s, i + 1, digits);
  }

  lemma HexIs(env: Env, s: string, i: nat, a: Atom)
    requires a.Hex? && LeafAt(s, i, a)
    ensures Single(env, s, i) == Reading(AtomValue(env, a), i + |Spell(a)|)
  {
    var end, v := i + 1 + |a.digits|, Wrap(DigitsValue(a.digits, 16));
    assert i + |Spell(a)| == end;
    MarkedDigits(s, i, '$', a.digits, 16);
    assert Convert(s, i + 1, end, 16, 0) == Some(v) by {
      NumeralIs(s, i + 1, a.digits, 16);
    }
    HexLeads(env, s, i, end, v);
  }

  lemma HexLeads(env: Env, s: string, i: nat, j: nat, v: int)
    requires i < j <= |s| && Ch(s, i) == '$' && HexDigitChar(Ch(s, i + 1)) && RunEnd(s, i + 1, Alnum) == j
    requires Convert(s, i + 1, j, 16, 0) == Some(v)
    ensures Single(env, s, i) == Done(v, j)
  {
  }

  lemma BinaryIs(env: Env, s: string, i: nat, a: Atom)
    requires a.Binary? && LeafAt(s, i, a)
    ensures Single(env, s, i) == Reading(AtomValue(env, a), i + |Spell(a)|)
  {
    var end, v := i + 1 + |a.digits|, Wrap(DigitsValue(a.digits, 2));
    assert i + |Spell(a)| == end;
    MarkedDigits(s, i, '%', a.digits, 2);
    assert Convert(s, i + 1, end, 2, 0) == Some(v) by {
      NumeralIs(s, i + 1, a.digits, 2);
    }
    BinaryLeads(env, s, i, end, v);
  }

  lemma BinaryLeads(env: Env, s: string, i: nat, j: nat, v: int)
    requires i < j <= |s| && Ch(s, i) == '%' && RunEnd(s, i + 1, Alnum) == j
    requires Convert(s, i + 1, j, 2, 0) == Some(v)
    ensures Single(env, s, i) == Done(v, j)
  {
  }

  lemma SuffixText(s: string, i: nat, a: Atom)
    requires a.Suffix? && LeafAt(s, i, a)
    ensures TextAt(s, i, a.digits) && Digit(Ch(s, i)) && Ch(s, i + |a.digits|) == a.letter
  {
    TextSplit(s, i, a.digits, [a.letter]);
    TextChar(s, i, a.digits, 0);
    TextChar(s, i, Spell(a), |a.digits|);
  }

  lemma SuffixIs(env: Env, s: string, i: nat, a: Atom)
    requires a.Suffix? && LeafAt(s, i, a)
    ensures Single(env, s, i) == Reading(AtomValue(env, a), i + |Spell(a)|)
  {
    var end, v := i + |a.digits|, Wrap(DigitsValue(a.digits, a.base));
    assert Convert(s, i, end, a.base, 0) == Some(v) by {
      SuffixText(s, i, a);
      NumeralIs(s, i, a.digits, a.base);
    }
    assert RunEnd(s, i, Alnum) == end + 1 by {
      SuffixRun(s, i, a);
    }
    SuffixText(s, i, a);
    LetterBase(env, s, i, end, a.base, v);
    assert i + |Spell(a)| == end + 1;
  }

  lemma SuffixRun(s: string, i: nat, a: Atom)
    requires a.Suffix? && LeafAt(s, i, a)
    ensures RunEnd(s, i, Alnum) == i + |a.digits| + 1
  {
    assert forall k :: 0 <= k < |Spell(a)| ==> Spell(a)[k] == if k < |a.digits| then a.digits[k] else a.letter;
    AlnumRun(s, i, Spell(a));
  }

  lemma NameIs(env: Env, s: string, i: nat, a: Atom)
    requires (a.Label? || a.NextLocal?) && LeafAt(s, i, a)
    ensures RunEnd(s, i, NameChar) == i + |Spell(a)|
    ensures Single(env, s, i) == Reading(AtomValue(env, a), i + |Spell(a)|)
  {
    var t := Spell(a);
    TextChar(s, i, t, 0);
    forall k | i <= k < i + |t| ensures NameChar(s[k]) {
      TextChar(s, i, t, k - i);
    }
    assert s[i..i + |t|] == t;
    RunIs(s, i, |t|, NameChar);
  }

  lemma AheadIs(env: Env, s: string, i: nat, a: Atom)
    requires a.Ahead? && LeafAt(s, i, a)
    ensures Single(env, s, i) == Reading(AtomValue(env, a), i + |Spell(a)|)
  {
    TextChar(s, i, Spell(a), a.n);
    forall k | i <= k < i + a.n ensures s[k] == '+' {
      TextChar(s, i, Spell(a), k - i);
    }
    RunIs(s, i, a.n, c => c == '+');
    assert s[i] == '+';
  }

  /** Stepping back over n more minus signs stops at the first label at the latest. */
  lemma {:induction false} StepBackIs(s: string, i: nat, n: nat, from: int)
    requires i + n < |s| && s[i + n] == '_' && forall k :: i <= k < i + n ==> s[k] == '-'
    ensures var (j, back) := StepBack(s, i, from);
      if from >= n then j == i + n && back == from - n else Ch(s, j) != '_' || (n == 0 && j == i && back == from)
    decreases n
  {
    if n > 0 && from > 0 {
      StepBackIs(s, i + 1, n - 1, from - 1);
    }
  }

  lemma BehindIs(env: Env, s: string, i: nat, a: Atom)
    requires a.Behind? && LeafAt(s, i, a)
    ensures SignAt(s, i) == NoSign
    ensures Single(env, s, i) == Reading(AtomValue(env, a), i + |Spell(a)|)
  {
    TextChar(s, i, Spell(a), a.n);
    forall k | i <= k < i + a.n ensures s[k] == '-' {
      TextChar(s, i, Spell(a), k - i);
    }
    assert s[i] == '-';
    StepBackIs(s, i + 1, a.n - 1, env.current - 1);
    if a.n == 1 {
      RunIs(s, i + 1, 1, NameChar);
    }
  }

  lemma CharacterIs(env: Env, s: string, i: nat, a: Atom)
    requires (a.Character? || a.Escape?) && LeafAt(s, i, a)
    ensures Single(env, s, i) == Reading(AtomValue(env, a), i + |Spell(a)|)
  {
    TextChar(s, i, Spell(a), 0);
    TextChar(s, i, Spell(a), 1);
    TextChar(s, i, Spell(a), 2);
    TextChar(s, i, Spell(a), |Spell(a)| - 1);
  }

  lemma AtomIs(env: Env, s: string, i: nat, a: Atom)
    requires LeafAt(s, i, a)
    ensures Single(env, s, i) == Reading(AtomValue(env, a), i + |Spell(a)|)
  {
    match a {
      case Decimal(_) => DecimalIs(env, s, i, a);
      case Hex(_) => HexIs(env, s, i, a);
      case Binary(_) => BinaryIs(env, s, i, a);
      case Suffix(_, _, _) => SuffixIs(env, s, i, a);
      case Here => TextChar(s, i, Spell(a), 0);
      case Label(_) => NameIs(env, s, i, a);
      case NextLocal => NameIs(env, s, i, a);
      case Ahead(_) => AheadIs(env, s, i, a);
      case Behind(_) => BehindIs(env, s, i, a);
      case Character(_) => CharacterIs(env, s, i, a);
      case Escape(_) => CharacterIs(env, s, i, a);
    }
  }

  /** What an operand starts with: nothing an operator could go on with, and no blank or end. */
  predicate Opens(c: char) {
    Alnum(c) || c == '_' || c == '$' || c == '%' || c == '+' || c == '-' || c == '~' || c == '('
    || c == '\''
  }

  lemma AtomOpens(s: string, i: nat, a: Atom)
    requires LeafAt(s, i, a)
    ensures i < |s| && Opens(s[i]) && s[i] != '(' && s[i] != '~'
    ensures s[i] == '-' ==> a.Behind?
    ensures s[i] == '_' ==> a.Label? || a.NextLocal?
  {
    TextChar(s, i, Spell(a), 0);
    assert a.Decimal? ==> Alnum(a.digits[0]);
    assert a.Suffix? ==> Alnum(a.digits[0]);
  }

  lemma LeafSign(s: string, i: nat, a: Atom)
    requires LeafAt(s, i, a)
    ensures SignAt(s, i) == NoSign
  {
    AtomOpens(s, i, a);
    if a.Behind? {
      var env := Env(_ => None, _ => false, 0, [], 0, []);
      BehindIs(env, s, i, a);
    }
  }

  // ---------- operators are read back ----------

  /** An operator's spelling: one or two characters that nothing else can start or continue with. */
  predicate Spelling(text: string) {
    && 1 <= |text| <= 2 && !Blank(text[0]) && !EndOfCode(text[0]) && !Alnum(text[0]) && text[0] != ')'
    && (|text| == 2 ==> text[1] == '<' || text[1] == '>' || text[1] == '=' || text[1] == '&' || text[1] == '|')
  }

  /** No entry is a beginning of a later one. */
  ghost predicate Ordered(t: Table) {
    && (forall k :: 0 <= k < |t| ==> Spelling(t[k].1))
    && forall j, k :: 0 <= j < k < |t| ==> !(t[j].1 <= t[k].1)
  }

  lemma PrefixChars(a: string, b: string)
    ensures a <= b && a != "" ==> b != "" && a[0] == b[0] && (|a| == 2 ==> |b| >= 2 && a[1] == b[1])
  {
  }

  lemma TableOrder(j: nat, k: nat)
    requires j < k < |MATH_DEFS|
    ensures !(MATH_DEFS[j].1 <= MATH_DEFS[k].1)
  {
    PrefixChars(MATH_DEFS[j].1, MATH_DEFS[k].1);
  }

  lemma TableSpelling(k: nat)
    requires k < |MATH_DEFS|
    ensures Spelling(MATH_DEFS[k].1)
  {
  }

  lemma MathDefsOrdered()
    ensures Ordered(MATH_DEFS)
  {
    forall k | 0 <= k < |MATH_DEFS| ensures Spelling(MATH_DEFS[k].1) {
      TableSpelling(k);
    }
    forall j, k | 0 <= j < k < |MATH_DEFS| ensures !(MATH_DEFS[j].1 <= MATH_DEFS[k].1) {
      TableOrder(j, k);
    }
  }

  lemma TextPrefix(s: string, i: nat, a: string, b: string)
    requires TextAt(s, i, a) && TextAt(s, i, b)
    ensures |a| <= |b| ==> a <= b
    ensures |b| == 2 ==> Ch(s, i + 1) == b[1]
  {
    if |a| <= |b| {
      assert forall k :: 0 <= k < |a| ==> a[k] == b[k];
    }
    if |b| == 2 { TextChar(s, i, b, 1); }
  }

  /** The search finds the longest operator of the table that stands at i. */
  lemma LongestMatch(t: Table, s: string, i: nat, k: nat)
    requires Ordered(t) && k < |t| && TextAt(s, i, t[k].1)
    ensures var r := FirstMatch(t, s, i, 0); r < |t| && |t[k].1| <= |t[r].1|
  {
    var r := FirstMatch(t, s, i, 0);
    TextPrefix(s, i, t[r].1, t[k].1);
  }

  /** An operator followed by a blank or an operand is the one that is found. */
  lemma OperatorIs(t: Table, s: string, i: nat, op: Op, text: string)
    requires Ordered(t) && (op, text) in t && TextAt(s, i, text)
    requires Blank(Ch(s, i + |text|)) || Opens(Ch(s, i + |text|))
    ensures var r := FirstMatch(t, s, i, 0); r < |t| && t[r] == (op, text)
  {
    var k :| 0 <= k < |t| && t[k] == (op, text);
    var r := FirstMatch(t, s, i, 0);
    LongestMatch(t, s, i, k);
    TextPrefix(s, i, text, t[r].1);
    TextPrefix(s, i, t[r].1, text);
    assert Spelling(t[r].1) && Spelling(t[k].1);
  }

  lemma NoOperator(t: Table, s: string, i: nat)
    requires Ordered(t) && Ch(s, i) == ')'
    ensures FirstMatch(t, s, i, 0) == |t|
  {
    forall k | 0 <= k < |t| ensures !TextAt(s, i, t[k].1) {
      FirstChar(s, i, t[k].1);
      assert Spelling(t[k].1);
    }
  }

  lemma FirstChar(s: string, i: nat, u: string)
    ensures TextAt(s, i, u) && u != "" ==> Ch(s, i) == u[0]
  {
    if TextAt(s, i, u) && u != "" { TextChar(s, i, u, 0); }
  }

  lemma BlanksSkipped(s: string, i: nat, blanks: string)
    requires BlanksAt(s, i, blanks) && !Blank(Ch(s, i + |blanks|))
    ensures SkipBlanks(s, i) == i + |blanks|
  {
    forall k | i <= k < i + |blanks| ensures Blank(s[k]) {
      TextChar(s, i, blanks, k - i);
    }
    RunIs(s, i, |blanks|, Blank);
  }

  lemma NextIs(t: Table, s: string, i: nat, before: string, op: Op, text: string, after: string, depth: nat)
    requires Ordered(t) && (op, text) in t && OperatorAt(s, i, before, text, after)
    requires Opens(Ch(s, i + |before| + |text| + |after|))
    ensures NextOperator(t, s, i, depth) == More(op, i + |before| + |text| + |after|)
  {
    var j := i + |before|;
    var m := j + |text| + |after|;
    assert Spelling(text) by {
      var k :| 0 <= k < |t| && t[k] == (op, text);
    }
    TextChar(s, j, text, 0);
    BlanksSkipped(s, i, before);
    BlanksSkipped(s, j + |text|, after);
    assert Blank(Ch(s, j + |text|)) || Opens(Ch(s, j + |text|)) by {
      if after != "" { TextChar(s, j + |text|, after, 0); }
    }
    OperatorIs(t, s, j, op, text);
    NextFound(t, s, i, j, op, text, m, depth);
  }

  lemma NextFound(t: Table, s: string, i: nat, j: nat, op: Op, text: string, m: nat, depth: nat)
    requires SkipBlanks(s, i) == j < |s| && !EndOfCode(s[j]) && SkipBlanks(s, j + |text|) == m < |s| && s[m] != '\0'
    requires var k := FirstMatch(t, s, j, 0); k < |t| && t[k] == (op, text)
    ensures NextOperator(t, s, i, depth) == More(op, m)
  {
  }

  lemma CloseIs(t: Table, s: string, i: nat, trail: string, depth: nat)
    requires Ordered(t) && BlanksAt(s, i, trail) && Ch(s, i + |trail|) == ')' && depth > 0
    ensures NextOperator(t, s, i, depth) == Stop(SkipBlanks(s, i + |trail| + 1))
  {
    BlanksSkipped(s, i, trail);
    NoOperator(t, s, i + |trail|);
  }

  lemma {:induction false} RunTwice(s: string, i: nat, j: nat, p: char -> bool)
    requires i <= j <= RunEnd(s, i, p)
    ensures RunEnd(s, j, p) == RunEnd(s, i, p)
    decreases j - i
  {
    if i < j { RunTwice(s, i + 1, j, p); }
  }

  /** Behind a value the blanks do not matter. */
  lemma NextBlanks(t: Table, s: string, i: nat, j: nat, depth: nat)
    requires SkipBlanks(s, i) == SkipBlanks(s, j)
    ensures NextOperator(t, s, i, depth) == NextOperator(t, s, j, depth)
  {
  }
}
