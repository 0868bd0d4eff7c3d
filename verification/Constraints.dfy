/** The canonical form of a CHECK constraint: a text[] cast over literal varchar elements moves onto the elements. */
module Constraints {
  import opened Prelude

  /** A type as written. The modifiers are kept as one opaque token. */
  datatype TypeName = TypeName(names: seq<string>, typmods: Option<string>, typemod: int, bounds: Option<seq<int>>,
                               setof: bool, pctType: bool, location: Option<int>)

  datatype Const = StringValue(text: string) | OtherValue(token: string)

  /** The parsed expression: the three node kinds the rewrite looks at, and every other node with its children. */
  datatype Expr =
    | Literal(isNull: bool, value: Const, location: Option<int>)
    | Cast(arg: Expr, typeName: TypeName, location: Option<int>)
    | ArrayExpr(elements: seq<Expr>, location: Option<int>)
    | Other(tag: string, fields: string, children: seq<Expr>, location: Option<int>)

  predicate Builtin(t: TypeName, name: string, isArray: bool) {
    && (t.names == [name] || t.names == ["pg_catalog", name])
    && t.typmods.None? && t.typemod == -1
    && t.bounds == (if isArray then Some([-1]) else None)
    && !t.setof && !t.pctType
  }

  predicate VarcharLiteral(e: Expr) {
    && e.Cast? && Builtin(e.typeName, "varchar", false)
    && e.arg.Literal? && !e.arg.isNull && e.arg.value.StringValue?
  }

  predicate AllLiterals(es: seq<Expr>) {
    forall i :: 0 <= i < |es| ==> VarcharLiteral(es[i])
  }

  predicate TextOfLiteral(e: Expr) {
    e.Cast? && Builtin(e.typeName, "text", false) && VarcharLiteral(e.arg)
  }

  predicate AllTextsOfLiterals(es: seq<Expr>) {
    forall i :: 0 <= i < |es| ==> TextOfLiteral(es[i])
  }

  /** A text[] cast over a nonempty array of varchar literals. */
  predicate CastArray(e: Expr) {
    && e.Cast? && Builtin(e.typeName, "text", true)
    && e.arg.ArrayExpr? && e.arg.elements != [] && AllLiterals(e.arg.elements)
  }

  /** A nonempty array whose every element is a varchar literal cast to text. */
  predicate ArrayOfCasts(e: Expr) {
    e.ArrayExpr? && e.elements != [] && AllTextsOfLiterals(e.elements)
  }

  function Scalar(t: TypeName): TypeName {
    t.(bounds := None)
  }

  function CastEach(es: seq<Expr>, t: TypeName): seq<Expr> {
    if es == [] then [] else [Cast(es[0], t, None)] + CastEach(es[1..], t)
  }

  function Distribute(e: Expr): Expr
    requires CastArray(e)
  {
    ArrayExpr(CastEach(e.arg.elements, Scalar(e.typeName)), e.arg.location)
  }

  // ---- visit ----

  /** A node's children visited, bottom up. */
  function VisitChildren(e: Expr): Expr
    decreases e, 0
  {
    match e
    case Literal(_, _, _) => e
    case Cast(arg, t, l) => Cast(Visit(arg), t, l)
    case ArrayExpr(es, l) => ArrayExpr(VisitAll(es), l)
    case Other(tag, fields, es, l) => Other(tag, fields, VisitAll(es), l)
  }

  function Visit(e: Expr): Expr
    decreases e, 1
  {
    var v := VisitChildren(e);
    if CastArray(v) then Distribute(v) else v
  }

  function VisitAll(es: seq<Expr>): (r: seq<Expr>)
    ensures |r| == |es|
    ensures forall i :: 0 <= i < |es| ==> r[i] == Visit(es[i])
    decreases es
  {
    if es == [] then [] else [Visit(es[0])] + VisitAll(es[1..])
  }

  /** The flag `visit` leaves behind: one of the two forms was met on the way up. */
  predicate Matched(e: Expr)
    decreases e
  {
    || CastArray(VisitChildren(e)) || ArrayOfCasts(VisitChildren(e))
    || match e
       case Literal(_, _, _) => false
       case Cast(arg, _, _) => Matched(arg)
       case ArrayExpr(es, _) => AnyMatched(es)
       case Other(_, _, es, _) => AnyMatched(es)
  }

  predicate AnyMatched(es: seq<Expr>)
    decreases es
  {
    es != [] && (Matched(es[0]) || AnyMatched(es[1..]))
  }

  // ---- positions ----

  function StripType(t: TypeName): TypeName {
    t.(location := None)
  }

  /** `without_positions`. */
  function Strip(e: Expr): Expr
    decreases e
  {
    match e
    case Literal(n, v, _) => Literal(n, v, None)
    case Cast(arg, t, _) => Cast(Strip(arg), StripType(t), None)
    case ArrayExpr(es, _) => ArrayExpr(StripAll(es), None)
    case Other(tag, fields, es, _) => Other(tag, fields, StripAll(es), None)
  }

  function StripAll(es: seq<Expr>): (r: seq<Expr>)
    ensures |r| == |es|
    decreases es
  {
    if es == [] then [] else [Strip(es[0])] + StripAll(es[1..])
  }

  // ---- what an expression means ----

  datatype Value = Null | Text(text: string) | Array(items: seq<Value>) | Opaque(id: int)

  /** A row and the meaning of everything the rewrite does not look at. */
  datatype Env = Env(constant: string -> Value,
                     apply: (string, string, seq<Value>) -> Value,
                     cast: (TypeName, Value) -> Value,
                     render: Value -> Value)

  /** A cast to text or varchar: the identity on text, null on null, the type's own rendering otherwise. */
  function ToText(env: Env, v: Value): Value {
    match v
    case Null => Null
    case Text(_) => v
    case _ => env.render(v)
  }

  /** A cast to text[]: element by element, down through nested arrays. */
  function ToTexts(env: Env, v: Value): Value {
    match v
    case Null => Null
    case Array(items) => Array(ToTextItems(env, items))
    case _ => env.render(v)
  }

  function ToTextItems(env: Env, items: seq<Value>): seq<Value> {
    if items == [] then []
    else [if items[0].Array? then ToTexts(env, items[0]) else ToText(env, items[0])] + ToTextItems(env, items[1..])
  }

  function CastTo(env: Env, t: TypeName, v: Value): Value {
    if Builtin(t, "text", true) then ToTexts(env, v)
    else if Builtin(t, "text", false) || Builtin(t, "varchar", false) then ToText(env, v)
    else env.cast(StripType(t), v)
  }

  function Eval(env: Env, e: Expr): Value
    decreases e
  {
    match e
    case Literal(isNull, value, _) =>
      if isNull then Null else (match value case StringValue(s) => Text(s) case OtherValue(t) => env.constant(t))
    case Cast(arg, t, _) => CastTo(env, t, Eval(env, arg))
    case ArrayExpr(es, _) => Array(EvalAll(env, es))
    case Other(tag, fields, es, _) => env.apply(tag, fields, EvalAll(env, es))
  }

  function EvalAll(env: Env, es: seq<Expr>): seq<Value>
    decreases es
  {
    if es == [] then [] else [Eval(env, es[0])] + EvalAll(env, es[1..])
  }

  // ---- the rewrite preserves meaning ----

  lemma {:induction false} CastEachMeans(env: Env, es: seq<Expr>, t: TypeName)
    requires AllLiterals(es) && Builtin(t, "text", false)
    ensures EvalAll(env, CastEach(es, t)) == ToTextItems(env, EvalAll(env, es))
  {
    if es != [] {
      assert VarcharLiteral(es[0]);
      assert Eval(env, es[0]) == Text(es[0].arg.value.text);
      CastEachMeans(env, es[1..], t);
      assert CastEach(es, t)[1..] == CastEach(es[1..], t);
      assert EvalAll(env, es)[1..] == EvalAll(env, es[1..]);
    }
  }

  lemma DistributeMeans(env: Env, e: Expr)
    requires CastArray(e)
    ensures Eval(env, Distribute(e)) == Eval(env, e)
  {
    CastEachMeans(env, e.arg.elements, Scalar(e.typeName));
  }

  /** The canonical expression has the value of the original on every row. */
  lemma {:induction false} VisitMeans(env: Env, e: Expr)
    ensures Eval(env, Visit(e)) == Eval(env, e)
    decreases e
  {
    match e {
      case Literal(_, _, _) =>
      case Cast(arg, t, l) => VisitMeans(env, arg);
      case ArrayExpr(es, l) => VisitAllMeans(env, es);
      case Other(tag, fields, es, l) => VisitAllMeans(env, es);
    }
    assert Eval(env, VisitChildren(e)) == Eval(env, e);
    if CastArray(VisitChildren(e)) { DistributeMeans(env, VisitChildren(e)); }
  }

  lemma {:induction false} VisitAllMeans(env: Env, es: seq<Expr>)
    ensures EvalAll(env, VisitAll(es)) == EvalAll(env, es)
    decreases es
  {
    if es != [] {
      VisitMeans(env, es[0]);
      VisitAllMeans(env, es[1..]);
      assert VisitAll(es)[1..] == VisitAll(es[1..]);
    }
  }

  /** Positions carry no meaning. */
  lemma {:induction false} StripMeans(env: Env, e: Expr)
    ensures Eval(env, Strip(e)) == Eval(env, e)
    decreases e
  {
    match e {
      case Literal(_, _, _) =>
      case Cast(arg, t, l) => StripMeans(env, arg);
      case ArrayExpr(es, l) => StripAllMeans(env, es);
      case Other(tag, fields, es, l) => StripAllMeans(env, es);
    }
  }

  lemma {:induction false} StripAllMeans(env: Env, es: seq<Expr>)
    ensures EvalAll(env, StripAll(es)) == EvalAll(env, es)
    decreases es
  {
    if es != [] {
      StripMeans(env, es[0]);
      StripAllMeans(env, es[1..]);
      assert StripAll(es)[1..] == StripAll(es[1..]);
    }
  }

  // ---- the rewrite is idempotent ----

  lemma LiteralIsFixed(e: Expr)
    requires VarcharLiteral(e)
    ensures Visit(e) == e
  {
    assert Visit(e.arg) == e.arg;
  }

  lemma TextOfLiteralIsFixed(e: Expr)
    requires TextOfLiteral(e)
    ensures Visit(e) == e
  {
    LiteralIsFixed(e.arg);
  }

  lemma {:induction false} CastEachAre(es: seq<Expr>, t: TypeName)
    requires AllLiterals(es) && Builtin(t, "text", false)
    ensures |CastEach(es, t)| == |es|
    ensures forall i :: 0 <= i < |es| ==> CastEach(es, t)[i] == Cast(es[i], t, None)
    ensures AllTextsOfLiterals(CastEach(es, t))
  {
    if es != [] {
      CastEachAre(es[1..], t);
    }
  }

  lemma CastsAreFixed(e: Expr)
    requires ArrayOfCasts(e)
    ensures Visit(e) == e
  {
    forall i | 0 <= i < |e.elements| ensures Visit(e.elements[i]) == e.elements[i] {
      TextOfLiteralIsFixed(e.elements[i]);
    }
    assert VisitAll(e.elements) == e.elements;
  }

  lemma {:induction false} VisitTwice(e: Expr)
    ensures Visit(Visit(e)) == Visit(e)
    decreases e
  {
    var v := VisitChildren(e);
    if CastArray(v) {
      CastEachAre(v.arg.elements, Scalar(v.typeName));
      CastsAreFixed(Distribute(v));
    } else {
      match e {
        case Literal(_, _, _) =>
        case Cast(arg, t, l) => VisitTwice(arg);
        case ArrayExpr(es, l) => VisitAllTwice(es);
        case Other(tag, fields, es, l) => VisitAllTwice(es);
      }
      assert VisitChildren(v) == v;
    }
  }

  lemma {:induction false} VisitAllTwice(es: seq<Expr>)
    ensures VisitAll(VisitAll(es)) == VisitAll(es)
    decreases es
  {
    if es != [] {
      VisitTwice(es[0]);
      VisitAllTwice(es[1..]);
      assert VisitAll(es)[1..] == VisitAll(es[1..]);
    }
  }

  // ---- both written forms have one canonical form ----

  lemma {:induction false} StripEach(es: seq<Expr>, casts: seq<Expr>, t: TypeName)
    requires AllLiterals(es) && |casts| == |es|
    requires forall i :: 0 <= i < |es| ==> casts[i].Cast? && StripType(casts[i].typeName) == StripType(t) && Strip(casts[i].arg) == Strip(es[i])
    ensures StripAll(CastEach(es, t)) == StripAll(casts)
  {
    if es != [] {
      assert CastEach(es, t)[1..] == CastEach(es[1..], t);
      StripEach(es[1..], casts[1..], t);
    }
  }

  /** The dumped and the restored spelling of the same literals, with the same type name, become the same expression. */
  lemma OneCanonicalForm(es: seq<Expr>, casts: seq<Expr>, t: TypeName, k: Option<int>, l: Option<int>, m: Option<int>)
    requires es != [] && AllLiterals(es) && Builtin(t, "text", true)
    requires |casts| == |es| && AllTextsOfLiterals(casts)
    requires forall i :: 0 <= i < |es| ==> StripType(casts[i].typeName) == StripType(Scalar(t)) && Strip(casts[i].arg) == Strip(es[i])
    ensures Strip(Visit(Cast(ArrayExpr(es, k), t, l))) == Strip(Visit(ArrayExpr(casts, m)))
  {
    var whole := Cast(ArrayExpr(es, k), t, l);
    forall i | 0 <= i < |es| ensures Visit(es[i]) == es[i] {
      LiteralIsFixed(es[i]);
    }
    assert VisitAll(es) == es;
    assert VisitChildren(whole.arg) == whole.arg && Visit(whole.arg) == whole.arg;
    assert VisitChildren(whole) == whole && CastArray(whole);
    CastsAreFixed(ArrayExpr(casts, m));
    StripEach(es, casts, Scalar(t));
  }

  // ---- when the flag is set ----

  /** One of the two forms occurs in the expression as written. */
  predicate Recognized(e: Expr)
    decreases e
  {
    || CastArray(e) || ArrayOfCasts(e)
    || match e
       case Literal(_, _, _) => false
       case Cast(arg, _, _) => Recognized(arg)
       case ArrayExpr(es, _) => AnyRecognized(es)
       case Other(_, _, es, _) => AnyRecognized(es)
  }

  predicate AnyRecognized(es: seq<Expr>)
    decreases es
  {
    es != [] && (Recognized(es[0]) || AnyRecognized(es[1..]))
  }

  lemma VisitKeepsShape(e: Expr)
    ensures Visit(e).Literal? <==> e.Literal?
    ensures e.Literal? ==> Visit(e) == e
  {}

  lemma VisitKeepsLiterals(e: Expr)
    ensures VarcharLiteral(Visit(e)) <==> VarcharLiteral(e)
    ensures VarcharLiteral(e) ==> Visit(e) == e
  {
    if VarcharLiteral(e) { LiteralIsFixed(e); }
    if e.Cast? { VisitKeepsShape(e.arg); }
  }

  lemma VisitKeepsTexts(e: Expr)
    ensures TextOfLiteral(Visit(e)) <==> TextOfLiteral(e)
  {
    if e.Cast? { VisitKeepsLiterals(e.arg); }
  }

  lemma ChildrenKeepForms(e: Expr)
    ensures ArrayOfCasts(VisitChildren(e)) <==> ArrayOfCasts(e)
    ensures CastArray(e) ==> CastArray(VisitChildren(e))
    ensures CastArray(VisitChildren(e)) ==> CastArray(e)
  {
    if e.ArrayExpr? {
      forall i | 0 <= i < |e.elements| ensures TextOfLiteral(VisitAll(e.elements)[i]) <==> TextOfLiteral(e.elements[i]) {
        VisitKeepsTexts(e.elements[i]);
      }
    }
    if e.Cast? {
      ArrayOfLiterals(e.arg);
    }
  }

  lemma ArrayOfLiterals(e: Expr)
    ensures Visit(e).ArrayExpr? && Visit(e).elements != [] && AllLiterals(Visit(e).elements) <==>
      e.ArrayExpr? && e.elements != [] && AllLiterals(e.elements)
  {
    if e.ArrayExpr? {
      forall i | 0 <= i < |e.elements| ensures VarcharLiteral(VisitAll(e.elements)[i]) <==> VarcharLiteral(e.elements[i]) {
        VisitKeepsLiterals(e.elements[i]);
      }
    }
    var v := VisitChildren(e);
    if CastArray(v) {
      CastEachAre(v.arg.elements, Scalar(v.typeName));
      assert TextOfLiteral(Visit(e).elements[0]);
    }
  }

  /** The flag is set exactly when one of the two forms occurs in the constraint as written. */
  lemma {:induction false} MatchedExactly(e: Expr)
    ensures Matched(e) <==> Recognized(e)
    decreases e
  {
    ChildrenKeepForms(e);
    match e {
      case Literal(_, _, _) =>
      case Cast(arg, t, l) => MatchedExactly(arg);
      case ArrayExpr(es, l) => AnyMatchedExactly(es);
      case Other(tag, fields, es, l) => AnyMatchedExactly(es);
    }
  }

  lemma {:induction false} AnyMatchedExactly(es: seq<Expr>)
    ensures AnyMatched(es) <==> AnyRecognized(es)
    decreases es
  {
    if es != [] {
      MatchedExactly(es[0]);
      AnyMatchedExactly(es[1..]);
    }
  }

  // ---- definitions ----

  /** A parsed check constraint; `flags` are its name, validity and inheritance. */
  datatype Constraint = Constraint(expr: Expr, flags: string)

  datatype Canonical = Unchanged(definition: string) | Normalized(constraint: Constraint)

  /** `canonical_constraint`; `parse` gives the one check constraint a definition holds, or None. */
  function CanonicalConstraint(parse: string -> Option<Constraint>, definition: string): Canonical {
    if !("CHECK (" <= definition) || |definition| > 65536 then Unchanged(definition)
    else match parse(definition)
      case None => Unchanged(definition)
      case Some(c) => if Matched(c.expr) then Normalized(Constraint(Strip(Visit(c.expr)), c.flags)) else Unchanged(definition)
  }

  /** Equal canonical results denote the same predicate: the same text, or the same flags and the same value on every row. */
  lemma SameCanonicalSameMeaning(parse: string -> Option<Constraint>, a: string, b: string, env: Env)
    requires CanonicalConstraint(parse, a) == CanonicalConstraint(parse, b)
    ensures a == b ||
      (parse(a).Some? && parse(b).Some? && parse(a).value.flags == parse(b).value.flags
       && Eval(env, parse(a).value.expr) == Eval(env, parse(b).value.expr))
  {
    if a != b {
      var x, y := parse(a).value.expr, parse(b).value.expr;
      VisitMeans(env, x);
      StripMeans(env, Visit(x));
      VisitMeans(env, y);
      StripMeans(env, Visit(y));
    }
  }

  /** The restriction to literals matters: over a nested array the same distribution would change the value. */
  lemma NestedArraysDiffer(t: TypeName, env: Env)
    requires Builtin(t, "text", true)
    ensures var inner := ArrayExpr([Literal(false, StringValue("a"), None)], None);
      env.render(Array([Text("a")])) != Array([Text("a")]) ==>
        Eval(env, Cast(ArrayExpr([inner], None), t, None)) != Eval(env, ArrayExpr([Cast(inner, Scalar(t), None)], None))
  {
    var inner := ArrayExpr([Literal(false, StringValue("a"), None)], None);
    var value := Array([Text("a")]);
    assert EvalAll(env, inner.elements[1..]) == [];
    assert Eval(env, inner) == value;
    assert EvalAll(env, [inner]) == [value];
    assert ToTextItems(env, [Text("a")]) == [Text("a")];
    assert ToTextItems(env, [value]) == [value];
    assert Eval(env, Cast(inner, Scalar(t), None)) == env.render(value);
    assert EvalAll(env, [Cast(inner, Scalar(t), None)]) == [env.render(value)];
    assert [env.render(value)][0] != [value][0] || env.render(value) == value;
  }
}
