/**
 What the operators of the expression language (`src/common/expr.c`) mean, by the laws that relate
 them to each other, and how exactly the type check fits the evaluator.
 */
module ExprLaws {
  import opened Options
  import opened Expr
  import Bytes

  /** A text as C code sees all of it. */
  predicate WithoutNul(s: string) { forall i :: 0 <= i < |s| ==> s[i] != '\0' }

  lemma {:induction false} CutIsWhole(s: string)
    requires WithoutNul(s)
    ensures Cut(s) == s
  {
    if s != [] {
      CutIsWhole(s[1..]);
      assert s == [s[0]] + s[1..];
    }
  }

  lemma {:induction false} CutCut(s: string)
    ensures Cut(Cut(s)) == Cut(s) && WithoutNul(Cut(s))
  {
    if s != [] && s[0] != '\0' {
      CutCut(s[1..]);
      assert Cut(s)[1..] == Cut(s[1..]);
    }
  }

  // ----- Equality

  /** The types whose values can be compared for equality. */
  predicate Comparable(v: Value) { v.Int? || v.Str? || v.Bool? || v.Time? || v.Ip4? }

  predicate Whole(v: Value) { v.Str? ==> WithoutNul(v.s) }

  /** `x == y` is `x in (y)`, and `x != y` is its negation, for all expressions that give defined
      values of one comparable type; and that is equality of the values, strings without NUL. */
  lemma EqualIsIn(w: World, s: State, x: Expression, y: Expression, vx: Value, vy: Value)
    requires Eval(w, s, x).1 == Result(vx) && Eval(w, Eval(w, s, x).0, y).1 == Result(vy)
    requires Comparable(vx) && Tag(vx) == Tag(vy) && !vy.Undef?
    ensures Eval(w, s, Binary(Equal, x, y)) == Eval(w, s, In(x, [y]))
    ensures Eval(w, s, Binary(NotEqual, x, y)).1 == Eval(w, s, Unary(Not, Binary(Equal, x, y))).1
    ensures Whole(vx) && Whole(vy) ==> Eval(w, s, Binary(Equal, x, y)).1 == Result(Bool(vx == vy))
  {
    hide Eval, Among;
    Unfold(w, s, Equal, x, y);
    Unfold(w, s, NotEqual, x, y);
    UnfoldNot(w, s, Binary(Equal, x, y));
    UnfoldIn(w, s, x, y);
    if vx.Str? && Whole(vx) && Whole(vy) {
      CutIsWhole(vx.s);
      CutIsWhole(vy.s);
    }
  }

  lemma UnfoldIn(w: World, s: State, x: Expression, y: Expression)
    ensures Eval(w, s, In(x, [y])) ==
            var (s1, o) := Eval(w, s, x);
            if !o.Result? then (s1, o)
            else if o.v.Undef? then (s1, Result(Undef(BOOLEAN)))
            else
              var (s2, p) := Eval(w, s1, y);
              if !p.Result? then (s2, p) else (s2, Result(Bool(Equals(o.v, p.v))))
  {
    var (s1, o) := Eval(w, s, x);
    if o.Result? && !o.v.Undef? {
      AmongOne(w, s1, o.v, y);
    }
  }

  lemma AmongOne(w: World, s: State, v: Value, y: Expression)
    requires !v.Undef?
    ensures var (t, p) := Eval(w, s, y);
            Among(w, s, v, [y]) == if !p.Result? then (t, p) else (t, Result(Bool(Equals(v, p.v))))
  {
    hide Equals, Eval;
    var t := Eval(w, s, y).0;
    assert [y][1..] == [];
    assert Among(w, t, v, []) == (t, Result(Bool(false)));
  }

  /** With undefined operands: two are equal, one alone makes the result undefined. */
  lemma EqualUndefined(w: World, l: Value, r: Value, stale: Type)
    requires l.Undef? || r.Undef?
    ensures Combine(w, Equal, l, r, stale) == Result(Bool(true)) <==> l.Undef? && r.Undef?
    ensures Combine(w, Equal, l, r, stale) == Result(Undef(BOOLEAN)) <==> !(l.Undef? && r.Undef?)
    ensures Combine(w, NotEqual, l, r, stale) == Negated(Combine(w, Equal, l, r, stale))
  {
  }

  // ----- Order

  predicate IsTrue(o: Outcome) { o == Result(Bool(true)) }
  predicate IsBool(o: Outcome) { o.Result? && o.v.Bool? }

  /** For integers and for times: exactly one of less, equal and greater holds; the other two
      comparisons are what is left; greater is less the other way round; and a sum is above what it
      was added to exactly if the addend is positive. */
  lemma OrderIsTotal(w: World, l: Value, r: Value)
    requires (l.Int? && r.Int?) || (l.Time? && r.Time?)
    ensures var lt, eq, gt := Ordered(Less, l, r), Same(l, r), Ordered(Greater, l, r);
            var le, ge := Ordered(LessEqual, l, r), Ordered(GreaterEqual, l, r);
            && IsBool(lt) && IsBool(eq) && IsBool(gt) && IsBool(le) && IsBool(ge)
            && (IsTrue(lt) || IsTrue(eq) || IsTrue(gt))
            && !(IsTrue(lt) && IsTrue(eq)) && !(IsTrue(lt) && IsTrue(gt)) && !(IsTrue(eq) && IsTrue(gt))
            && (IsTrue(le) <==> IsTrue(lt) || IsTrue(eq))
            && (IsTrue(ge) <==> !IsTrue(lt))
            && gt == Ordered(Less, r, l)
    ensures forall n: int64 :: Add(w, l, Int(n)).Result? ==>
              (IsTrue(Ordered(Less, l, Add(w, l, Int(n)).v)) <==> n > 0)
  {
  }

  lemma LessIsTransitive(a: Value, b: Value, c: Value)
    requires IsTrue(Ordered(Less, a, b)) && IsTrue(Ordered(Less, b, c))
    ensures IsTrue(Ordered(Less, a, c))
  {
  }

  /** The comparisons in expressions are these. */
  lemma ComparisonsCompare(w: World, s: State, op: Binop, x: Expression, y: Expression, vx: Value, vy: Value)
    requires Comparison(op)
    requires Eval(w, s, x).1 == Result(vx) && Eval(w, Eval(w, s, x).0, y).1 == Result(vy)
    ensures Eval(w, s, Binary(op, x, y)).1 ==
            if vx.Undef? || vy.Undef? then Result(Undef(BOOLEAN)) else Ordered(op, vx, vy)
  {
    hide Eval;
    Unfold(w, s, op, x, y);
  }

  // ----- Products and strings

  /** Multiplication is repeated addition, for all integers as long as everything fits, and it is not
      defined if and only if the product does not fit. */
  lemma ProductsRepeatSums(w: World, a: int64, b: int64)
    ensures Multiply(Mul, Int(a), Int(0)) == Result(Int(0))
    ensures Multiply(Mul, Int(a), Int(b)) == Multiply(Mul, Int(b), Int(a))
    ensures Multiply(Mul, Int(a), Int(b)) == Overflow <==> !Bytes.IsInt64(a * b)
    ensures Multiply(Mul, Int(a), Int(b)) != Overflow ==> Multiply(Mul, Int(a), Int(b)).Result?
    ensures Bytes.IsInt64(b + 1) && Bytes.IsInt64(a * b) && Bytes.IsInt64(a * b + a) ==>
              Multiply(Mul, Int(a), Int(b + 1)) == Add(w, Multiply(Mul, Int(a), Int(b)).v, Int(a))
  {
    assert a * b == b * a && a * 0 == 0;
    assert a * (b + 1) == a * b + a;
  }

  /** What a value contributes to a sum with a string. */
  function Shown(w: World, v: Value): (s: string) {
    if v.Undef? then "" else if v.Str? then Cut(v.s) else Cut(w.show(v))
  }

  /** A sum with a string is the left text followed by the right one; an undefined operand adds
      nothing. */
  lemma SumsOfStrings(w: World, l: Value, r: Value, stale: Type)
    requires l.Str? || r.Str?
    ensures var o := Combine(w, Plus, l, r, stale);
            o.Result? && o.v.Str? && o.v.s == Shown(w, l) + Shown(w, r)
  {
    hide Cut;
    if l.Undef? {
      assert "" + Shown(w, r) == Shown(w, r);
    } else if r.Undef? {
      assert Shown(w, l) + "" == Shown(w, l);
    }
  }

  /** Sums of strings may be bracketed in any way. */
  lemma StringSumsAssociate(w: World, a: string, b: string, c: string)
    ensures Add(w, Str(a), Str(b)).Result? && Add(w, Str(b), Str(c)).Result?
    ensures Add(w, Add(w, Str(a), Str(b)).v, Str(c)) == Add(w, Str(a), Add(w, Str(b), Str(c)).v)
  {
    hide Cut;
    CutCat(a, b);
    CutCat(b, c);
    assert Cut(a) + Cut(b) + Cut(c) == Cut(a) + (Cut(b) + Cut(c));
  }

  lemma {:induction false} CutOfWhole(a: string, b: string)
    requires WithoutNul(a) && WithoutNul(b)
    ensures Cut(a + b) == a + b
  {
    CutIsWhole(a + b);
  }

  lemma CutCat(a: string, b: string)
    ensures Cut(Cut(a) + Cut(b)) == Cut(a) + Cut(b)
  {
    CutCut(a);
    CutCut(b);
    CutOfWhole(Cut(a), Cut(b));
  }

  // ----- Matches

  /** What the match of a text against a regexp captures, nothing if it fails. */
  function Captures(w: World, re: nat, text: string): (cs: seq<string>) {
    var m := w.matches(re, Cut(text));
    if m.Some? then m.value else []
  }

  /** A text and a regexp in either order: `=~` is true if and only if the regexp matches, `!~` is its
      negation, and afterwards the captured strings are those of this match and no older ones. */
  lemma MatchMeans(w: World, s: State, text: string, re: nat, n: nat, swapped: bool)
    ensures var x, y := Literal(Str(text)), Literal(Regex(re));
            var l, r := if swapped then y else x, if swapped then x else y;
            var (t, o) := Eval(w, s, Binary(Match, l, r));
            && o == Result(Bool(w.matches(re, Cut(text)).Some?))
            && Eval(w, s, Binary(NotMatch, l, r)) == (t, Negated(o))
            && t.fields == s.fields
            && var cs := Captures(w, re, text);
               Eval(w, t, Captured(n)) == (t, Result(if n < |cs| then Str(cs[n]) else Undef(STRING)))
  {
    hide Cut;
    var x, y := Literal(Str(text)), Literal(Regex(re));
    var l, r := if swapped then y else x, if swapped then x else y;
    Unfold(w, s, Match, l, r);
    Unfold(w, s, NotMatch, l, r);
  }

  // ----- Booleans

  /** For defined operands the usual truth tables; and an operand on the left that decides is the
      only one evaluated, whatever the other would do. */
  lemma BooleansDecide(w: World, s: State, x: Expression, y: Expression, a: bool)
    requires Eval(w, s, x).1 == Result(Bool(a))
    ensures var (t, o) := Eval(w, Eval(w, s, x).0, y);
            && (!a ==> Eval(w, s, Binary(And, x, y)) == Eval(w, s, x))
            && (a ==> Eval(w, s, Binary(Or, x, y)) == Eval(w, s, x))
            && (o.Result? && o.v.Bool? && a ==> Eval(w, s, Binary(And, x, y)) == (t, o))
            && (o.Result? && o.v.Bool? && !a ==> Eval(w, s, Binary(Or, x, y)) == (t, o))
  {
    hide Eval;
    Unfold(w, s, And, x, y);
    Unfold(w, s, Or, x, y);
  }

  /** Double negation gives a boolean back, undefined or not, and `defined` tells which. */
  lemma NotNot(w: World, s: State, x: Expression)
    requires Eval(w, s, x).1.Result? && Tag(Eval(w, s, x).1.v) == BOOLEAN
    ensures Eval(w, s, Unary(Not, Unary(Not, x))).1 == Eval(w, s, x).1
    ensures Eval(w, s, x).1.v.Bool? ==> Eval(w, s, Unary(Not, x)).1 != Eval(w, s, x).1
    ensures Eval(w, s, Unary(Defined, x)).1 == Result(Bool(!Eval(w, s, x).1.v.Undef?))
  {
  }

  // ----- Fields and arguments

  /** A field gives back what is stored under its name, whatever else is stored, and is undefined if
      nothing is; without a record it fails. */
  lemma FieldsAreStored(w: World, fields: map<string, Value>, cs: seq<string>, name: string, other: string, v: Value)
    ensures Eval(w, State(Some(fields[name := v]), cs), Field(name)).1 == Result(v)
    ensures other != name ==>
      Eval(w, State(Some(fields[name := v]), cs), Field(other)).1 == Eval(w, State(Some(fields), cs), Field(other)).1
    ensures Eval(w, State(Some(fields - {name}), cs), Unary(Defined, Field(name))).1 == Result(Bool(false))
    ensures Eval(w, State(None, cs), Field(name)).1 == Failed
  {
  }

  /** A function gets the values of its arguments, each evaluated after those in front of it, in their
      order. */
  lemma {:induction false} ArgumentsInOrder(w: World, s: State, args: seq<Expression>, k: nat)
    requires EvalArgs(w, s, args).1.Args? && k < |args|
    ensures |EvalArgs(w, s, args).1.vs| == |args|
    ensures EvalArgs(w, s, args[..k]).1.Args?
    ensures Eval(w, EvalArgs(w, s, args[..k]).0, args[k]).1 == Result(EvalArgs(w, s, args).1.vs[k])
    decreases |args|
  {
    hide Eval;
    var s1 := Eval(w, s, args[0]).0;
    if k > 0 {
      ArgumentsInOrder(w, s1, args[1..], k - 1);
      assert args[..k][1..] == args[1..][..k - 1] && args[..k][0] == args[0];
    } else {
      assert args[..0] == [];
      if |args| > 1 {
        ArgumentsInOrder(w, s1, args[1..], 0);
      }
    }
  }

  lemma CallPassesArguments(w: World, s: State, id: nat, t: Type, args: seq<Expression>)
    requires EvalArgs(w, s, args).1.Args?
    ensures Eval(w, s, Call(id, t, args)) == w.call(id, EvalArgs(w, s, args).0, EvalArgs(w, s, args).1.vs)
  {
  }

  // ----- The type check is exact

  /** The result for two defined operands, the left one looked at first. */
  function Both(w: World, op: Binop, l: Value, r: Value, stale: Type): (o: Outcome)
    requires !l.Undef? && !r.Undef?
  {
    var early := AfterLeft(op, l, stale);
    if early.Some? then early.value else Combine(w, op, l, r, stale)
  }

  predicate Defines(v: Value, t: Type) { !v.Undef? && Tag(v) == t }

  /** No defined operands of these types raise a type error. */
  ghost predicate AlwaysWorks(w: World, op: Binop, lt: Type, rt: Type) {
    forall l, r, stale :: Defines(l, lt) && Defines(r, rt) ==> Clean(Both(w, op, l, r, stale))
  }

  /** A value of the type; for `or` a left operand that does not decide. */
  function Sample(t: Type, op: Binop): (v: Value)
    requires t != UNKNOWN
    ensures Defines(v, t)
  {
    match t
    case INTEGER => Int(1)
    case STRING => Str("")
    case DATETIME => Time(1)
    case REGEXP => Regex(0)
    case BOOLEAN => Bool(op != Or)
    case IP4ADDR => Ip4([])
    case IP6ADDR => Ip6([])
    case BINARY => Bin([])
  }

  /** Operations the evaluator can do and the check refuses: seconds in front of a time. */
  predicate RefusedAnyway(op: Binop, l: Type, r: Type) { op == Plus && l == INTEGER && r == DATETIME }

  lemma SampleFails(w: World, op: Binop, lt: Type, rt: Type)
    requires lt != UNKNOWN && rt != UNKNOWN && BinaryType(op, lt, rt).None? && !RefusedAnyway(op, lt, rt)
    ensures !Clean(Both(w, op, Sample(lt, op), Sample(rt, op), UNKNOWN))
  {
  }

  lemma AcceptedWorks(w: World, op: Binop, l: Value, r: Value, stale: Type)
    requires !l.Undef? && !r.Undef? && BinaryType(op, Tag(l), Tag(r)).Some? && !Misfit(op, Tag(l), Tag(r))
    ensures Clean(Both(w, op, l, r, stale))
  {
    hide CombineDefined, BinaryType, Misfit;
    CombineClean(w, op, l, r, Tag(l), Tag(r), stale);
  }

  /** For known types the check accepts an operation if and only if no defined operands of the types
      raise a type error, or it is one of the misfits; except that it refuses seconds in front of
      a time, which the evaluator can add.  And then it announces a known type. */
  lemma CheckIsExact(w: World, op: Binop, lt: Type, rt: Type)
    requires lt != UNKNOWN && rt != UNKNOWN
    ensures BinaryType(op, lt, rt).Some? <==>
            (AlwaysWorks(w, op, lt, rt) || Misfit(op, lt, rt)) && !RefusedAnyway(op, lt, rt)
    ensures RefusedAnyway(op, lt, rt) ==> AlwaysWorks(w, op, lt, rt)
    ensures BinaryType(op, lt, rt).Some? ==> BinaryType(op, lt, rt).value != UNKNOWN
  {
    hide BinaryType, Misfit, RefusedAnyway, AlwaysWorks;
    TypesAccepted(op, lt, rt);
    if BinaryType(op, lt, rt).Some? {
      if !Misfit(op, lt, rt) {
        AcceptedAlwaysWorks(w, op, lt, rt);
      }
    } else if RefusedAnyway(op, lt, rt) {
      SecondsAlwaysWork(w, op, lt, rt);
    } else {
      RefusedFails(w, op, lt, rt);
    }
  }

  lemma AcceptedAlwaysWorks(w: World, op: Binop, lt: Type, rt: Type)
    requires BinaryType(op, lt, rt).Some? && !Misfit(op, lt, rt)
    ensures AlwaysWorks(w, op, lt, rt)
  {
    hide Both, Misfit, Clean, BinaryType;
    forall l, r, stale | Defines(l, lt) && Defines(r, rt)
      ensures Clean(Both(w, op, l, r, stale))
    {
      AcceptedWorks(w, op, l, r, stale);
    }
  }

  lemma RefusedFails(w: World, op: Binop, lt: Type, rt: Type)
    requires lt != UNKNOWN && rt != UNKNOWN && BinaryType(op, lt, rt).None? && !RefusedAnyway(op, lt, rt)
    ensures !AlwaysWorks(w, op, lt, rt)
  {
    hide Both, Clean, BinaryType, RefusedAnyway, Sample;
    SampleFails(w, op, lt, rt);
  }

  lemma SecondsAlwaysWork(w: World, op: Binop, lt: Type, rt: Type)
    requires RefusedAnyway(op, lt, rt)
    ensures AlwaysWorks(w, op, lt, rt)
  {
    hide Both, Clean;
    forall l, r, stale | Defines(l, lt) && Defines(r, rt)
      ensures Clean(Both(w, op, l, r, stale))
    {
      SecondsBeforeTime(w, l, r, stale);
    }
  }

  lemma TypesAccepted(op: Binop, lt: Type, rt: Type)
    requires lt != UNKNOWN && rt != UNKNOWN
    ensures Misfit(op, lt, rt) ==> BinaryType(op, lt, rt).Some? && !RefusedAnyway(op, lt, rt)
    ensures RefusedAnyway(op, lt, rt) ==> BinaryType(op, lt, rt).None?
    ensures BinaryType(op, lt, rt).Some? ==> BinaryType(op, lt, rt).value != UNKNOWN
  {
    hide BinaryType, Misfit;
    KnownTypes(op, lt, rt);
    RefusedAnywayIsRefused();
    if Misfit(op, lt, rt) {
      MisfitsAccepted(op, lt, rt);
    }
  }

  lemma RefusedAnywayIsRefused()
    ensures BinaryType(Plus, INTEGER, DATETIME).None?
  {
  }

  lemma KnownTypes(op: Binop, lt: Type, rt: Type)
    requires lt != UNKNOWN && rt != UNKNOWN
    ensures BinaryType(op, lt, rt) != Some(UNKNOWN)
  {
  }

  lemma MisfitsAccepted(op: Binop, lt: Type, rt: Type)
    requires Misfit(op, lt, rt)
    ensures BinaryType(op, lt, rt).Some? && !RefusedAnyway(op, lt, rt)
  {
  }

  lemma SecondsBeforeTime(w: World, l: Value, r: Value, stale: Type)
    requires l.Int? && r.Time?
    ensures Clean(Both(w, Plus, l, r, stale))
  {
  }
}
