/**
 The expression language (`src/common/expr.c`): the type check done when an expression is built,
 the evaluator, and how far the first tells what the second does.

 Regular expression matching, the string form of values and the functions that modules register
 are parameters.
 */
module Expr {
  import opened Options
  import Bytes

  type int64 = i: int | Bytes.IsInt64(i)

  datatype Type = INTEGER | STRING | DATETIME | REGEXP | BOOLEAN | IP4ADDR | IP6ADDR | BINARY | UNKNOWN

  /** An undefined value still has a type tag. */
  datatype Value =
    | Undef(tag: Type)
    | Int(i: int64)
    | Str(s: string)
    | Time(t: int64)
    | Regex(re: nat)
    | Bool(b: bool)
    | Ip4(a4: seq<int>)
    | Ip6(a6: seq<int>)
    | Bin(bin: seq<int>)

  function Tag(v: Value): (t: Type)
    ensures !v.Undef? ==> t != UNKNOWN
  {
    match v
    case Undef(tag) => tag
    case Int(_) => INTEGER
    case Str(_) => STRING
    case Time(_) => DATETIME
    case Regex(_) => REGEXP
    case Bool(_) => BOOLEAN
    case Ip4(_) => IP4ADDR
    case Ip6(_) => IP6ADDR
    case Bin(_) => BINARY
  }

  datatype Unop = Neg | Not | Defined

  datatype Binop =
    | Match | NotMatch | Equal | NotEqual | Less | LessEqual | Greater | GreaterEqual | And | Or
    | Plus | Minus | Mul | Div | Mod

  datatype Expression =
    | Literal(v: Value)
    | Field(name: string)
    | Captured(n: nat)
    | Unary(uop: Unop, e: Expression)
    | Binary(bop: Binop, l: Expression, r: Expression)
    | In(x: Expression, list: seq<Expression>)
    | Call(id: nat, rettype: Type, args: seq<Expression>)

  // ----- The check when an expression is built

  function UnaryType(op: Unop, t: Type): (r: Option<Type>) {
    match op
    case Neg => if t == BOOLEAN || t == UNKNOWN then Some(BOOLEAN) else None
    case Not => if t == BOOLEAN || t == UNKNOWN then Some(BOOLEAN) else None
    case Defined => Some(BOOLEAN)
  }

  predicate Comparison(op: Binop) { op in {Less, LessEqual, Greater, GreaterEqual} }

  predicate Arithmetic(op: Binop) { op in {Minus, Mul, Div, Mod} }

  /** The static type of an operation, or `None` if it is refused. */
  function BinaryType(op: Binop, l: Type, r: Type): (t: Option<Type>) {
    var known := l != UNKNOWN && r != UNKNOWN;
    match op
    case Match => if !known || (l == REGEXP && r == STRING) || (l == STRING && r == REGEXP) then Some(BOOLEAN) else None
    case NotMatch =>
      if !known || (l == REGEXP && r == STRING) || (l == STRING && r == REGEXP) then Some(BOOLEAN) else None
    case Equal => if !known || l == r then Some(BOOLEAN) else None
    case NotEqual => if !known || l == r then Some(BOOLEAN) else None
    case And => if !known || (l == BOOLEAN && r == BOOLEAN) then Some(BOOLEAN) else None
    case Or => if !known || (l == BOOLEAN && r == BOOLEAN) then Some(BOOLEAN) else None
    case Plus =>
      if !known then Some(UNKNOWN)
      else if l == INTEGER && r == INTEGER then Some(INTEGER)
      else if l == DATETIME && r == INTEGER then Some(DATETIME)
      else if l == DATETIME && r == DATETIME then Some(INTEGER)
      else if l == STRING || r == STRING then Some(STRING)
      else None
    case Minus =>
      if !known then Some(UNKNOWN)
      else if l == INTEGER && r == INTEGER then Some(INTEGER)
      else if l == DATETIME && r == INTEGER then Some(DATETIME)
      else if l == DATETIME && r == DATETIME then Some(INTEGER)
      else None
    case _ =>
      if Comparison(op) then
        if !known || (l == r && (l == INTEGER || l == DATETIME)) then Some(BOOLEAN) else None
      else
        if !known then Some(UNKNOWN) else if l == INTEGER && r == INTEGER then Some(INTEGER) else None
  }

  /** The static type of an expression that can be built. */
  function Static(e: Expression): (t: Option<Type>)
    decreases e, 0
  {
    match e
    case Literal(v) => Some(if v.Undef? then UNKNOWN else Tag(v))
    case Field(_) => Some(UNKNOWN)
    case Captured(_) => Some(STRING)
    case Unary(op, x) => var t := Static(x); if t.None? then None else UnaryType(op, t.value)
    case Binary(op, l, r) =>
      var lt, rt := Static(l), Static(r);
      if lt.None? || rt.None? then None else BinaryType(op, lt.value, rt.value)
    case In(x, list) => if Static(x).Some? && AllStatic(list) then Some(BOOLEAN) else None
    case Call(_, t, args) => if AllStatic(args) then Some(t) else None
  }

  predicate AllStatic(es: seq<Expression>)
    decreases es, 1
  {
    forall i :: 0 <= i < |es| ==> Static(es[i]).Some?
  }

  // ----- Evaluation

  /** The record at hand, gone after a drop, and the strings captured by the last match. */
  datatype State = State(fields: Option<map<string, Value>>, captured: seq<string>)

  /** A type error stops the evaluation with an exception, as does a failure in a function or a
      missing record.  A failed assertion or a division by zero stops the program.  After an
      overflow C promises nothing. */
  datatype Outcome = Result(v: Value) | TypeError | Failed | Abort | ZeroDivision | Overflow

  /** What the evaluator does not define itself.  `stale` is the tag that happens to be in a result
      that an operation leaves untouched. */
  datatype World = World(
    call: (nat, State, seq<Value>) -> (State, Outcome),
    matches: (nat, string) -> Option<seq<string>>,
    show: Value -> string,
    stale: Expression -> Type)

  /** A string as C code sees it. */
  function Cut(s: string): (r: string) {
    if s == [] || s[0] == '\0' then [] else [s[0]] + Cut(s[1..])
  }

  /** C division truncates towards zero. */
  function Quotient(a: int, b: int): (q: int)
    requires b != 0
  {
    if a >= 0 then a / b else -((-a) / b)
  }

  const USEC: int := 1000000

  /** What the left operand decides alone. */
  function AfterLeft(op: Binop, l: Value, stale: Type): (r: Option<Outcome>) {
    match op
    case Equal => None
    case NotEqual => None
    case Plus => None
    case Or =>
      if Tag(l) != BOOLEAN then Some(TypeError)
      else if l == Bool(true) then Some(Result(Bool(true)))
      else None
    case And =>
      if l.Undef? then Some(Result(Undef(BOOLEAN)))
      else if l == Bool(false) then Some(Result(Bool(false)))
      else None
    case _ =>
      if !l.Undef? then None
      else Some(Result(Undef(if Arithmetic(op) then stale else BOOLEAN)))
  }

  function Same(l: Value, r: Value): (o: Outcome)
    requires !l.Undef? && !r.Undef?
  {
    match (l, r)
    case (Str(a), Str(b)) => Result(Bool(Cut(a) == Cut(b)))
    case (Int(a), Int(b)) => Result(Bool(a == b))
    case (Bool(a), Bool(b)) => Result(Bool(a == b))
    case (Time(a), Time(b)) => Result(Bool(a == b))
    case (Ip4(a), Ip4(b)) => Result(Bool(a == b))
    case _ => TypeError
  }

  function Compare(op: Binop, a: int, b: int): (r: bool)
    requires Comparison(op)
  {
    match op
    case Less => a < b
    case LessEqual => a <= b
    case Greater => a > b
    case _ => a >= b
  }

  function FitInt(x: int): (o: Outcome) {
    if Bytes.IsInt64(x) then Result(Int(x)) else Overflow
  }

  function FitTime(x: int): (o: Outcome) {
    if Bytes.IsInt64(x) then Result(Time(x)) else Overflow
  }

  /** A time moved by a number of seconds, which are turned into microseconds first. */
  function Moved(t: int, seconds: int, forward: bool): (o: Outcome) {
    var d := seconds * USEC;
    if Bytes.IsInt64(d) then FitTime(if forward then t + d else t - d) else Overflow
  }

  function Add(w: World, l: Value, r: Value): (o: Outcome)
    requires !l.Undef? && !r.Undef?
  {
    if l.Str? || r.Str? then
      Result(Str((if l.Str? then Cut(l.s) else Cut(w.show(l))) + (if r.Str? then Cut(r.s) else Cut(w.show(r)))))
    else match (l, r)
         case (Int(a), Int(b)) => FitInt(a + b)
         case (Time(a), Int(b)) => Moved(a, b, true)
         case (Int(a), Time(b)) => Moved(b, a, true)
         case _ => TypeError
  }

  function Subtract(l: Value, r: Value): (o: Outcome)
    requires !l.Undef? && !r.Undef?
  {
    match (l, r)
    case (Int(a), Int(b)) => FitInt(a - b)
    case (Time(a), Time(b)) => FitInt(a - b)
    case (Time(a), Int(b)) => Moved(a, b, false)
    case _ => TypeError
  }

  /** Multiplication, division and remainder. */
  function Multiply(op: Binop, l: Value, r: Value): (o: Outcome) {
    match (l, r)
    case (Int(a), Int(b)) =>
      if op == Mul then FitInt(a * b)
      else if b == 0 then ZeroDivision
      else if op == Div || !Bytes.IsInt64(Quotient(a, b)) then FitInt(Quotient(a, b))
      else FitInt(a - Quotient(a, b) * b)
    case _ => TypeError
  }

  function MatchTypes(l: Value, r: Value): (o: Outcome) {
    if l.Str? then (if r.Regex? then Result(Bool(true)) else Abort)
    else if r.Str? then (if l.Regex? then Result(Bool(true)) else Abort)
    else TypeError
  }

  function Ordered(op: Binop, l: Value, r: Value): (o: Outcome)
    requires Comparison(op)
  {
    match (l, r)
    case (Int(a), Int(b)) => Result(Bool(Compare(op, a, b)))
    case (Time(a), Time(b)) => Result(Bool(Compare(op, a, b)))
    case _ => TypeError
  }

  function Negated(o: Outcome): (n: Outcome) {
    if o.Result? && o.v.Bool? then Result(Bool(!o.v.b)) else o
  }

  /** Both operands defined.  For matches only the types are looked at here. */
  function CombineDefined(w: World, op: Binop, l: Value, r: Value): (o: Outcome)
    requires !l.Undef? && !r.Undef?
  {
    match op
    case Equal => Same(l, r)
    case NotEqual => Negated(Same(l, r))
    case Plus => Add(w, l, r)
    case And => if l.Bool? && r.Bool? then Result(Bool(l.b && r.b)) else TypeError
    case Or => if r.Bool? then Result(r) else TypeError
    case Match => MatchTypes(l, r)
    case NotMatch => MatchTypes(l, r)
    case Minus => Subtract(l, r)
    case _ => if Comparison(op) then Ordered(op, l, r) else Multiply(op, l, r)
  }

  /** One operand undefined, or both. */
  function CombineUndefined(op: Binop, l: Value, r: Value, stale: Type): (o: Outcome)
    requires l.Undef? || r.Undef?
  {
    match op
    case Equal => Result(if l.Undef? && r.Undef? then Bool(true) else Undef(BOOLEAN))
    case NotEqual => Result(if l.Undef? && r.Undef? then Bool(false) else Undef(BOOLEAN))
    case Plus =>
      if l.Str? then Result(Str(Cut(l.s)))
      else if r.Str? then Result(Str(Cut(r.s)))
      else Result(Undef(UNKNOWN))
    case Or =>
      if Tag(r) != BOOLEAN then TypeError
      else if r.Bool? then Result(r)
      else Result(Undef(BOOLEAN))
    case _ => Result(Undef(if Arithmetic(op) then stale else BOOLEAN))
  }

  /** Both operands evaluated, the left one not decisive. */
  function Combine(w: World, op: Binop, l: Value, r: Value, stale: Type): (o: Outcome) {
    if l.Undef? || r.Undef? then CombineUndefined(op, l, r, stale) else CombineDefined(w, op, l, r)
  }

  /** The match itself: its result, and the strings it captures. */
  function DoMatch(w: World, op: Binop, s: State, l: Value, r: Value): (res: (State, Outcome))
    requires (l.Str? && r.Regex?) || (l.Regex? && r.Str?)
  {
    var m := if l.Str? then w.matches(r.re, Cut(l.s)) else w.matches(l.re, Cut(r.s));
    (if m.Some? && m.value != [] then s.(captured := m.value) else s, Result(Bool(m.Some? == (op == Match))))
  }

  function UnaryResult(op: Unop, v: Value): (o: Outcome) {
    match op
    case Neg =>
      if Tag(v) != INTEGER then TypeError
      else if v.Int? then Result(v)
      else Result(Undef(INTEGER))
    case Not =>
      if v.Undef? then Result(Undef(BOOLEAN))
      else if v.Bool? then Result(Bool(!v.b))
      else TypeError
    case Defined => Result(Bool(!v.Undef?))
  }

  /** Matches forget the strings captured before. */
  function Cleared(op: Binop, s: State): (r: State) {
    if op == Match || op == NotMatch then s.(captured := []) else s
  }

  /** A binary operation, from what its operands give.  `right`, the state included, counts only
      if the left operand does not decide. */
  function Operate(w: World, op: Binop, stale: Type, left: (State, Outcome), right: (State, Outcome))
    : (res: (State, Outcome))
  {
    if !left.1.Result? then left
    else
      var early := AfterLeft(op, left.1.v, stale);
      if early.Some? then (left.0, early.value)
      else if !right.1.Result? then right
      else
        var o := Combine(w, op, left.1.v, right.1.v, stale);
        if (op == Match || op == NotMatch) && o == Result(Bool(true)) then
          DoMatch(w, op, right.0, left.1.v, right.1.v)
        else (right.0, o)
  }

  function Eval(w: World, s: State, e: Expression): (res: (State, Outcome))
    decreases e, 0
  {
    match e
    case Literal(v) => (s, Result(v))
    case Field(name) =>
      if s.fields.None? then (s, Failed)
      else (s, Result(if name in s.fields.value then s.fields.value[name] else Undef(UNKNOWN)))
    case Captured(n) => (s, Result(if n < |s.captured| then Str(s.captured[n]) else Undef(STRING)))
    case Unary(op, x) =>
      var (s1, o) := Eval(w, s, x);
      if o.Result? then (s1, UnaryResult(op, o.v)) else (s1, o)
    case Binary(op, l, r) =>
      var left := Eval(w, Cleared(op, s), l);
      Operate(w, op, w.stale(e), left, Eval(w, left.0, r))
    case In(x, list) =>
      var (s1, o) := Eval(w, s, x);
      if !o.Result? then (s1, o)
      else if o.v.Undef? then (s1, Result(Undef(BOOLEAN)))
      else Among(w, s1, o.v, list)
    case Call(id, _, args) =>
      var (s1, a) := EvalArgs(w, s, args);
      match a
      case Broken(o) => (s1, o)
      case Args(vs) => w.call(id, s1, vs)
  }

  datatype Arguments = Args(vs: seq<Value>) | Broken(o: Outcome)

  /** All arguments in order, up to the first that cannot be evaluated. */
  function EvalArgs(w: World, s: State, args: seq<Expression>): (res: (State, Arguments))
    ensures res.1.Broken? ==> !res.1.o.Result?
    decreases args, 1
  {
    if args == [] then (s, Args([]))
    else
      var (s1, o) := Eval(w, s, args[0]);
      if !o.Result? then (s1, Broken(o))
      else
        var (s2, rest) := EvalArgs(w, s1, args[1..]);
        match rest
        case Broken(b) => (s2, Broken(b))
        case Args(vs) => (s2, Args([o.v] + vs))
  }

  /** Both defined, of one type and equal. */
  predicate Equals(a: Value, b: Value) {
    if a.Str? && b.Str? then Cut(a.s) == Cut(b.s) else !b.Undef? && a == b
  }

  /** Whether a member of the list equals `v`; members behind it are not evaluated. */
  function Among(w: World, s: State, v: Value, list: seq<Expression>): (res: (State, Outcome))
    requires !v.Undef?
    decreases list, 1
  {
    if list == [] then (s, Result(Bool(false)))
    else
      var (s1, o) := Eval(w, s, list[0]);
      if !o.Result? then (s1, o)
      else if Equals(v, o.v) then (s1, Result(Bool(true)))
      else Among(w, s1, v, list[1..])
  }

  // ----- What the static type promises

  /** A defined value has the static type unless that is UNKNOWN, and a boolean expression has the
      boolean tag even when it is undefined. */
  predicate Conforms(v: Value, t: Type) {
    && (t != UNKNOWN && !v.Undef? ==> Tag(v) == t)
    && (t == BOOLEAN ==> Tag(v) == BOOLEAN)
  }

  predicate Keeps(o: Outcome, t: Type) { o.Result? ==> Conforms(o.v, t) }

  /** The registered functions return what they are declared to. */
  ghost predicate Honest(w: World, types: map<nat, Type>) {
    forall id, s, vs :: id in types ==> Keeps(w.call(id, s, vs).1, types[id])
  }

  /** Built without unary minus, and from known functions only. */
  predicate Plain(e: Expression, types: map<nat, Type>)
    decreases e, 0
  {
    match e
    case Unary(op, x) => op != Neg && Plain(x, types)
    case Binary(_, l, r) => Plain(l, types) && Plain(r, types)
    case In(x, list) => Plain(x, types) && AllPlain(list, types)
    case Call(id, t, args) => id in types && types[id] == t && AllPlain(args, types)
    case _ => true
  }

  predicate AllPlain(es: seq<Expression>, types: map<nat, Type>)
    decreases es, 1
  {
    forall i :: 0 <= i < |es| ==> Plain(es[i], types)
  }

  lemma LeftKeeps(op: Binop, l: Value, lt: Type, rt: Type, stale: Type)
    requires BinaryType(op, lt, rt).Some? && Conforms(l, lt)
    ensures AfterLeft(op, l, stale).Some? ==> Keeps(AfterLeft(op, l, stale).value, BinaryType(op, lt, rt).value)
  {
  }

  lemma DefinedKeeps(w: World, op: Binop, l: Value, r: Value)
    requires !l.Undef? && !r.Undef? && BinaryType(op, Tag(l), Tag(r)).Some?
    ensures Keeps(CombineDefined(w, op, l, r), BinaryType(op, Tag(l), Tag(r)).value)
  {
    hide Same, Multiply, Ordered, MatchTypes;
    ResultTypes(op, l, r);
  }

  lemma ResultTypes(op: Binop, l: Value, r: Value)
    requires !l.Undef? && !r.Undef?
    ensures Same(l, r).Result? ==> Same(l, r).v.Bool?
    ensures Multiply(op, l, r).Result? ==> Multiply(op, l, r).v.Int?
    ensures Comparison(op) && Ordered(op, l, r).Result? ==> Ordered(op, l, r).v.Bool?
    ensures MatchTypes(l, r).Result? ==> MatchTypes(l, r).v.Bool?
  {
  }

  lemma BooleanKeeps(w: World, op: Binop, l: Value, r: Value)
    requires !l.Undef? && !r.Undef? && op != Plus && !Arithmetic(op)
    ensures Keeps(CombineDefined(w, op, l, r), BOOLEAN)
  {
    hide Same, Multiply, Ordered, MatchTypes, Add, Subtract;
    ResultTypes(op, l, r);
  }

  lemma UndefinedKeeps(op: Binop, l: Value, r: Value, lt: Type, rt: Type, stale: Type)
    requires BinaryType(op, lt, rt).Some? && Conforms(l, lt) && Conforms(r, rt) && (l.Undef? || r.Undef?)
    requires AfterLeft(op, l, stale).None?
    ensures Keeps(CombineUndefined(op, l, r, stale), BinaryType(op, lt, rt).value)
  {
  }

  lemma UnknownOperand(op: Binop, lt: Type, rt: Type)
    requires lt == UNKNOWN || rt == UNKNOWN
    ensures BinaryType(op, lt, rt) == Some(if op == Plus || Arithmetic(op) then UNKNOWN else BOOLEAN)
  {
  }

  lemma CombineKeeps(w: World, op: Binop, l: Value, r: Value, lt: Type, rt: Type, stale: Type)
    requires BinaryType(op, lt, rt).Some? && Conforms(l, lt) && Conforms(r, rt) && AfterLeft(op, l, stale).None?
    ensures Keeps(Combine(w, op, l, r, stale), BinaryType(op, lt, rt).value)
  {
    hide CombineDefined, CombineUndefined, BinaryType, AfterLeft;
    if l.Undef? || r.Undef? {
      UndefinedKeeps(op, l, r, lt, rt, stale);
    } else if lt == UNKNOWN || rt == UNKNOWN {
      UnknownOperand(op, lt, rt);
      if op != Plus && !Arithmetic(op) {
        BooleanKeeps(w, op, l, r);
      }
    } else {
      DefinedKeeps(w, op, l, r);
    }
  }

  /** Type soundness: whatever the record, the captured strings and the functions do, the value of
      an expression without unary minus conforms to its static type. */
  lemma {:induction false} Soundness(w: World, types: map<nat, Type>, s: State, e: Expression)
    requires Honest(w, types) && Plain(e, types) && Static(e).Some?
    ensures Keeps(Eval(w, s, e).1, Static(e).value)
    decreases e, 0
  {
    hide Combine, AfterLeft, BinaryType;
    match e
    case Unary(op, x) => Soundness(w, types, s, x);
    case Binary(op, l, r) =>
      var s0 := Cleared(op, s);
      Soundness(w, types, s0, l);
      var (s1, lo) := Eval(w, s0, l);
      if lo.Result? {
        LeftKeeps(op, lo.v, Static(l).value, Static(r).value, w.stale(e));
        if AfterLeft(op, lo.v, w.stale(e)).None? {
          Soundness(w, types, s1, r);
          var (s2, ro) := Eval(w, s1, r);
          if ro.Result? {
            CombineKeeps(w, op, lo.v, ro.v, Static(l).value, Static(r).value, w.stale(e));
          }
        }
      }
    case In(x, list) =>
      var (s1, o) := Eval(w, s, x);
      if o.Result? && !o.v.Undef? {
        AmongKeeps(w, s1, o.v, list);
      }
    case _ =>
  }

  lemma {:induction false} AmongKeeps(w: World, s: State, v: Value, list: seq<Expression>)
    requires !v.Undef?
    ensures Keeps(Among(w, s, v, list).1, BOOLEAN)
    decreases |list|
  {
    if list != [] {
      AmongKeeps(w, Eval(w, s, list[0]).0, v, list[1..]);
    }
  }

  // ----- What goes wrong at run time

  /** The operations accepted for these types that no defined operands of the types satisfy. */
  predicate Misfit(op: Binop, l: Type, r: Type) {
    || ((op == Equal || op == NotEqual) && l == r && l in {REGEXP, IP6ADDR, BINARY})
    || (op == Plus && l == DATETIME && r == DATETIME)
  }

  /** For defined operands of accepted types the evaluator raises a type error exactly for the
      misfits; it never fails an assertion. */
  lemma TypeErrorIff(w: World, op: Binop, l: Value, r: Value, stale: Type)
    requires !l.Undef? && !r.Undef? && BinaryType(op, Tag(l), Tag(r)).Some?
    ensures AfterLeft(op, l, stale) != Some(TypeError)
    ensures CombineDefined(w, op, l, r) != Abort
    ensures CombineDefined(w, op, l, r) == TypeError <==> Misfit(op, Tag(l), Tag(r))
  {
  }

  predicate Clean(o: Outcome) { o != TypeError && o != Abort }

  lemma UndefinedClean(op: Binop, l: Value, r: Value, lt: Type, rt: Type, stale: Type)
    requires lt != UNKNOWN && rt != UNKNOWN && BinaryType(op, lt, rt).Some?
    requires Conforms(l, lt) && Conforms(r, rt)
    ensures AfterLeft(op, l, stale).Some? ==> Clean(AfterLeft(op, l, stale).value)
    ensures l.Undef? || r.Undef? ==> Clean(CombineUndefined(op, l, r, stale))
  {
    hide BinaryType, Cut;
    OrIsBoolean(lt, rt);
  }

  lemma OrIsBoolean(lt: Type, rt: Type)
    requires lt != UNKNOWN && rt != UNKNOWN
    ensures BinaryType(Or, lt, rt).Some? ==> lt == BOOLEAN && rt == BOOLEAN
  {
  }

  lemma CombineClean(w: World, op: Binop, l: Value, r: Value, lt: Type, rt: Type, stale: Type)
    requires lt != UNKNOWN && rt != UNKNOWN && BinaryType(op, lt, rt).Some? && !Misfit(op, lt, rt)
    requires Conforms(l, lt) && Conforms(r, rt)
    ensures AfterLeft(op, l, stale).Some? ==> Clean(AfterLeft(op, l, stale).value)
    ensures Clean(Combine(w, op, l, r, stale))
  {
    hide CombineDefined, CombineUndefined, BinaryType, AfterLeft, Misfit;
    UndefinedClean(op, l, r, lt, rt, stale);
    if !l.Undef? && !r.Undef? {
      TypeErrorIff(w, op, l, r, stale);
    }
  }

  /** Every part has a known type, and no operation is a misfit. */
  predicate Typed(e: Expression)
    requires Static(e).Some?
    decreases e, 0
  {
    && Static(e).value != UNKNOWN
    && match e
       case Unary(_, x) => Typed(x)
       case Binary(op, l, r) => Typed(l) && Typed(r) && !Misfit(op, Static(l).value, Static(r).value)
       case In(x, list) => Typed(x) && AllTyped(list)
       case Call(_, _, args) => AllTyped(args)
       case _ => true
  }

  predicate AllTyped(es: seq<Expression>)
    requires AllStatic(es)
    decreases es, 1
  {
    forall i :: 0 <= i < |es| ==> Typed(es[i])
  }

  /** The registered functions report their errors as their own. */
  ghost predicate Polite(w: World) {
    forall id, s, vs :: Clean(w.call(id, s, vs).1)
  }

  /** No type error and no failed assertion in a fully typed expression, `or` included. */
  lemma {:induction false} NoTypeErrors(w: World, types: map<nat, Type>, s: State, e: Expression)
    requires Honest(w, types) && Polite(w) && Plain(e, types) && Static(e).Some? && Typed(e)
    ensures Clean(Eval(w, s, e).1)
    decreases e, 0
  {
    hide Combine, AfterLeft, BinaryType, Misfit;
    match e
    case Unary(op, x) =>
      Soundness(w, types, s, x);
      NoTypeErrors(w, types, s, x);
    case Binary(op, l, r) =>
      var s0 := Cleared(op, s);
      Soundness(w, types, s0, l);
      NoTypeErrors(w, types, s0, l);
      var (s1, lo) := Eval(w, s0, l);
      Soundness(w, types, s1, r);
      NoTypeErrors(w, types, s1, r);
      var (s2, ro) := Eval(w, s1, r);
      if lo.Result? {
        var any := if ro.Result? then ro.v else Undef(Static(r).value);
        CombineClean(w, op, lo.v, any, Static(l).value, Static(r).value, w.stale(e));
      }
    case In(x, list) =>
      NoTypeErrors(w, types, s, x);
      var (s1, o) := Eval(w, s, x);
      if o.Result? && !o.v.Undef? {
        AmongClean(w, types, s1, o.v, list);
      }
    case Call(_, _, args) => ArgsClean(w, types, s, args);
    case _ =>
  }

  lemma {:induction false} AmongClean(w: World, types: map<nat, Type>, s: State, v: Value, list: seq<Expression>)
    requires Honest(w, types) && Polite(w) && !v.Undef? && AllPlain(list, types) && AllStatic(list) && AllTyped(list)
    ensures Clean(Among(w, s, v, list).1)
    decreases list, 1
  {
    if list != [] {
      NoTypeErrors(w, types, s, list[0]);
      AmongClean(w, types, Eval(w, s, list[0]).0, v, list[1..]);
    }
  }

  lemma {:induction false} ArgsClean(w: World, types: map<nat, Type>, s: State, args: seq<Expression>)
    requires Honest(w, types) && Polite(w) && AllPlain(args, types) && AllStatic(args) && AllTyped(args)
    ensures EvalArgs(w, s, args).1.Broken? ==> Clean(EvalArgs(w, s, args).1.o)
    decreases args, 1
  {
    if args != [] {
      NoTypeErrors(w, types, s, args[0]);
      ArgsClean(w, types, Eval(w, s, args[0]).0, args[1..]);
    }
  }

  /** A missing field makes `or` raise a type error in an accepted expression: types must be
      known. */
  lemma OrNeedsTypes(w: World)
    ensures var e := Binary(Or, Field("x"), Literal(Bool(true)));
            Static(e) == Some(BOOLEAN) && Eval(w, State(Some(map[]), []), e).1 == TypeError
  {
  }

  /** Unary minus never keeps its static type: an accepted one raises a type error or gives back
      its operand, an integer, where the check has announced a boolean. */
  lemma MinusNeverConforms(w: World, s: State, x: Expression)
    requires Static(Unary(Neg, x)).Some?
    ensures Static(Unary(Neg, x)) == Some(BOOLEAN)
    ensures var o := Eval(w, s, Unary(Neg, x)).1;
            o.Result? ==> !Conforms(o.v, BOOLEAN) && (o.v.Int? ==> Eval(w, s, x).1 == o)
  {
  }

  // ----- Laws of the operations

  /** Subtraction undoes addition, seconds are added to a time from either side, and adding moves
      up exactly for what is not negative: all of it whenever the sum, and for a time the added
      microseconds, fit 64 bits, and otherwise the sum is not defined. */
  lemma AddThenSubtract(w: World, l: Value, n: int64)
    requires l.Int? || l.Time?
    ensures Add(w, Int(n), l) == Add(w, l, Int(n))
    ensures var d := if l.Time? then n * USEC else n;
            var x := if l.Time? then l.t else l.i;
            && (Add(w, l, Int(n)) == Overflow <==> !(Bytes.IsInt64(d) && Bytes.IsInt64(x + d)))
            && (Add(w, l, Int(n)) != Overflow ==>
                  && Add(w, l, Int(n)).Result?
                  && var sum := Add(w, l, Int(n)).v;
                     && Tag(sum) == Tag(l)
                     && Subtract(sum, Int(n)) == Result(l)
                     && Subtract(sum, l) == FitInt(d)
                     && (Ordered(LessEqual, l, sum) == Result(Bool(true)) <==> n >= 0))
  {
  }

  /** Sums that are not defined: one more than the largest integer, and a time ten trillion
      seconds later. */
  lemma SumsOverflow(w: World, t: int64)
    ensures Add(w, Int(Bytes.TWO63 - 1), Int(1)) == Overflow
    ensures Add(w, Time(t), Int(10_000_000_000_000)) == Overflow
  {
  }

  /** Quotient and remainder as C has them: the remainder is smaller than the divisor and has the
      sign of the dividend.  Neither is defined for a divisor of 0, nor for the least integer
      divided by -1, and for everything else both are. */
  lemma QuotientAndRemainder(a: int64, b: int64)
    ensures Multiply(Div, Int(a), Int(b)) == ZeroDivision <==> b == 0
    ensures Multiply(Div, Int(a), Int(b)) == Overflow <==> a == -Bytes.TWO63 && b == -1
    ensures Multiply(Mod, Int(a), Int(b)).Result? <==> Multiply(Div, Int(a), Int(b)).Result?
    ensures Multiply(Div, Int(a), Int(b)).Result? ==>
      var q, m := Multiply(Div, Int(a), Int(b)).v, Multiply(Mod, Int(a), Int(b)).v;
      q.Int? && m.Int? && Divides(a, b, q.i, m.i)
  {
    hide Quotient;
    if b != 0 {
      QuotientIsClose(a, b);
      QuotientFits(a, b);
      RemainderFits(a, b, Quotient(a, b));
    }
  }

  /** `a` is `q` times `b` and a remainder `m`. */
  predicate Divides(a: int, b: int, q: int, m: int) {
    && a == q * b + m
    && (if b > 0 then -b < m < b else b < m < -b)
    && (a >= 0 ==> m >= 0) && (a <= 0 ==> m <= 0)
  }

  lemma RemainderFits(a: int, b: int, q: int)
    requires Bytes.IsInt64(a) && Bytes.IsInt64(b) && Divides(a, b, q, a - q * b)
    ensures Bytes.IsInt64(a - q * b)
  {
  }

  lemma QuotientIsClose(a: int, b: int)
    requires b != 0
    ensures Divides(a, b, Quotient(a, b), a - Quotient(a, b) * b)
  {
    var c := if a >= 0 then a else -a;
    var q, m := c / b, c % b;
    assert c == q * b + m;
    MulNegated(q, b);
  }

  lemma MulNegated(x: int, y: int)
    ensures (-x) * y == -(x * y)
  {
  }

  /** A divisor other than 1 and -1 makes smaller. */
  lemma QuotientFits(a: int, b: int)
    requires Bytes.IsInt64(a) && b != 0
    ensures Bytes.IsInt64(Quotient(a, b)) <==> !(a == -Bytes.TWO63 && b == -1)
  {
    var c: int := if a >= 0 then a else -a;
    QuotientBound(c, b);
    if b == -1 {
      assert c / b == -c;
    }
  }

  lemma QuotientBound(c: int, b: int)
    requires c >= 0 && b != 0
    ensures -c <= c / b <= c
    ensures c > 0 && b != -1 ==> -c < c / b
    ensures c > 0 && b != 1 ==> c / b < c
  {
    var q, r := c / b, c % b;
    assert c == q * b + r;
    if b > 0 {
      SmallQuotient(c, q, b, r);
    } else {
      MulNegated(q, b);
      MulNegated(b, -q);
      SmallQuotient(c, -q, -b, r);
    }
  }

  lemma SmallQuotient(c: int, q: int, b: int, r: int)
    requires c >= 0 && b > 0 && c == q * b + r && 0 <= r < b
    ensures 0 <= q <= c && (c > 0 && b > 1 ==> q < c)
  {
    assert (-q - 1) * b == -(q * b) - b;
    assert q * (b - 1) == q * b - q;
    MulSign(-q - 1, b);
    MulSign(q, b - 1);
  }

  lemma MulSign(x: int, y: int)
    requires y >= 0
    ensures x >= 0 ==> x * y >= 0
    ensures x > 0 && y > 0 ==> x * y > 0
  {
  }

  lemma Unfold(w: World, s: State, op: Binop, l: Expression, r: Expression)
    ensures Eval(w, s, Binary(op, l, r)) ==
            Operate(w, op, w.stale(Binary(op, l, r)),
                    Eval(w, Cleared(op, s), l), Eval(w, Eval(w, Cleared(op, s), l).0, r))
  {
  }

  lemma UnfoldNot(w: World, s: State, x: Expression)
    ensures Eval(w, s, Unary(Not, x)) ==
            var (s1, o) := Eval(w, s, x); if o.Result? then (s1, UnaryResult(Not, o.v)) else (s1, o)
  {
  }

  /** Three-valued logic has no De Morgan law: not (x and y) and (not x) or (not y) agree exactly
      unless x is undefined and y is not, for then `and` gives up where `or` goes on. */
  lemma DeMorgan(w: World, s: State, x: Expression, y: Expression, vx: Value, vy: Value)
    requires Eval(w, s, x).1 == Result(vx) && Eval(w, Eval(w, s, x).0, y).1 == Result(vy)
    requires Tag(vx) == Tag(vy) == BOOLEAN
    ensures Eval(w, s, Unary(Not, Binary(And, x, y))).1 == Eval(w, s, Binary(Or, Unary(Not, x), Unary(Not, y))).1
      <==> !(vx.Undef? && !vy.Undef?)
  {
    hide Eval;
    UnfoldNot(w, s, Binary(And, x, y));
    Unfold(w, s, And, x, y);
    UnfoldNot(w, s, x);
    UnfoldNot(w, Eval(w, s, x).0, y);
    Unfold(w, s, Or, Unary(Not, x), Unary(Not, y));
  }

  /** `in` a list of constants is membership. */
  lemma {:induction false} InMeansMember(w: World, s: State, v: Value, list: seq<Expression>)
    requires !v.Undef? && forall i :: 0 <= i < |list| ==> list[i].Literal?
    ensures Among(w, s, v, list) == (s, Result(Bool(exists i :: 0 <= i < |list| && Equals(v, list[i].v))))
    decreases |list|
  {
    if list != [] {
      InMeansMember(w, s, v, list[1..]);
      if i :| 0 <= i < |list| && Equals(v, list[i].v) && i > 0 {
        assert list[i] == list[1..][i - 1];
      }
    }
  }
}
