/** Which constraints share a canonical form, told from the expressions as written. */
module ConstraintForms {
  import opened Prelude
  import opened Constraints

  // ---- equal up to positions ----

  predicate SameType(a: TypeName, b: TypeName) {
    && a.names == b.names && a.typmods == b.typmods && a.typemod == b.typemod && a.bounds == b.bounds
    && a.setof == b.setof && a.pctType == b.pctType
  }

  /** The two expressions differ in positions only. */
  predicate SameButPositions(a: Expr, b: Expr)
    decreases a
  {
    match (a, b)
    case (Literal(n, v, _), Literal(m, u, _)) => n == m && v == u
    case (Cast(x, t, _), Cast(y, u, _)) => SameType(t, u) && SameButPositions(x, y)
    case (ArrayExpr(xs, _), ArrayExpr(ys, _)) => AllSame(xs, ys)
    case (Other(tag, fields, xs, _), Other(other, values, ys, _)) => tag == other && fields == values && AllSame(xs, ys)
    case _ => false
  }

  predicate AllSame(xs: seq<Expr>, ys: seq<Expr>)
    decreases xs
  {
    |xs| == |ys| && (xs == [] || (SameButPositions(xs[0], ys[0]) && AllSame(xs[1..], ys[1..])))
  }

  lemma {:induction false} AllSameAt(xs: seq<Expr>, ys: seq<Expr>)
    ensures AllSame(xs, ys) <==> |xs| == |ys| && forall i :: 0 <= i < |xs| ==> SameButPositions(xs[i], ys[i])
  {
    if |xs| == |ys| && xs != [] {
      AllSameAt(xs[1..], ys[1..]);
      if forall i :: 0 <= i < |xs| ==> SameButPositions(xs[i], ys[i]) {
        assert forall i :: 0 <= i < |xs[1..]| ==> xs[1..][i] == xs[i + 1] && ys[1..][i] == ys[i + 1];
      }
      if AllSame(xs, ys) {
        forall i | 0 <= i < |xs| ensures SameButPositions(xs[i], ys[i]) {
          if i > 0 { assert xs[i] == xs[1..][i - 1] && ys[i] == ys[1..][i - 1]; }
        }
      }
    }
  }

  /** Removing the positions identifies exactly the expressions that differ in positions only. */
  lemma {:induction false} StripExactly(a: Expr, b: Expr)
    ensures Strip(a) == Strip(b) <==> SameButPositions(a, b)
    decreases a
  {
    match (a, b) {
      case (Cast(x, t, _), Cast(y, u, _)) => StripExactly(x, y);
      case (ArrayExpr(xs, _), ArrayExpr(ys, _)) => StripAllExactly(xs, ys);
      case (Other(tag, fields, xs, _), Other(other, values, ys, _)) => StripAllExactly(xs, ys);
      case _ =>
    }
  }

  lemma {:induction false} StripAllExactly(xs: seq<Expr>, ys: seq<Expr>)
    ensures StripAll(xs) == StripAll(ys) <==> AllSame(xs, ys)
    decreases xs
  {
    if |xs| == |ys| && xs != [] {
      StripExactly(xs[0], ys[0]);
      StripAllExactly(xs[1..], ys[1..]);
      assert StripAll(xs)[0] == Strip(xs[0]) && StripAll(xs)[1..] == StripAll(xs[1..]);
      assert StripAll(ys)[0] == Strip(ys[0]) && StripAll(ys)[1..] == StripAll(ys[1..]);
    }
  }

  /** No node and no type name carries a position. */
  predicate NoPositions(e: Expr)
    decreases e
  {
    match e
    case Literal(_, _, l) => l == None
    case Cast(arg, t, l) => l == None && t.location == None && NoPositions(arg)
    case ArrayExpr(es, l) => l == None && NonePlaced(es)
    case Other(_, _, es, l) => l == None && NonePlaced(es)
  }

  predicate NonePlaced(es: seq<Expr>)
    decreases es
  {
    es == [] || (NoPositions(es[0]) && NonePlaced(es[1..]))
  }

  lemma {:induction false} StripLeavesNone(e: Expr)
    ensures NoPositions(Strip(e))
    decreases e
  {
    match e {
      case Literal(_, _, _) =>
      case Cast(arg, t, l) => StripLeavesNone(arg);
      case ArrayExpr(es, l) => StripAllLeavesNone(es);
      case Other(tag, fields, es, l) => StripAllLeavesNone(es);
    }
  }

  lemma {:induction false} StripAllLeavesNone(es: seq<Expr>)
    ensures NonePlaced(StripAll(es))
    decreases es
  {
    if es != [] {
      StripLeavesNone(es[0]);
      StripAllLeavesNone(es[1..]);
      assert StripAll(es)[1..] == StripAll(es[1..]);
    }
  }

  // ---- the two spellings of one array ----

  /** a casts an array of varchar literals to text[], b casts the same literals to text one by one. */
  predicate Spells(a: Expr, b: Expr) {
    && CastArray(a) && ArrayOfCasts(b) && |a.arg.elements| == |b.elements|
    && forall i :: 0 <= i < |b.elements| ==>
         SameType(b.elements[i].typeName, a.typeName.(bounds := None)) && SameButPositions(b.elements[i].arg, a.arg.elements[i])
  }

  /** The two expressions differ in positions, and in how arrays of literals are spelled, anywhere inside them. */
  predicate Alike(a: Expr, b: Expr)
    decreases a
  {
    || Spells(a, b) || Spells(b, a)
    || match (a, b)
       case (Literal(n, v, _), Literal(m, u, _)) => n == m && v == u
       case (Cast(x, t, _), Cast(y, u, _)) => SameType(t, u) && Alike(x, y)
       case (ArrayExpr(xs, _), ArrayExpr(ys, _)) => AllAlike(xs, ys)
       case (Other(tag, fields, xs, _), Other(other, values, ys, _)) => tag == other && fields == values && AllAlike(xs, ys)
       case _ => false
  }

  predicate AllAlike(xs: seq<Expr>, ys: seq<Expr>)
    decreases xs
  {
    |xs| == |ys| && (xs == [] || (Alike(xs[0], ys[0]) && AllAlike(xs[1..], ys[1..])))
  }

  lemma LiteralInvariant(a: Expr, b: Expr)
    requires SameButPositions(a, b)
    ensures VarcharLiteral(a) <==> VarcharLiteral(b)
    ensures TextOfLiteral(a) <==> TextOfLiteral(b)
  {}

  lemma CastArrayInvariant(a: Expr, b: Expr)
    requires SameButPositions(a, b)
    ensures CastArray(a) <==> CastArray(b)
  {
    if a.Cast? && a.arg.ArrayExpr? {
      var xs, ys := a.arg.elements, b.arg.elements;
      AllSameAt(xs, ys);
      forall i | 0 <= i < |xs| ensures VarcharLiteral(xs[i]) <==> VarcharLiteral(ys[i]) { LiteralInvariant(xs[i], ys[i]); }
    }
  }

  lemma {:induction false} CastEachSame(xs: seq<Expr>, ys: seq<Expr>, t: TypeName, u: TypeName)
    requires AllSame(xs, ys) && SameType(t, u)
    ensures AllSame(CastEach(xs, t), CastEach(ys, u))
  {
    if xs != [] {
      CastEachSame(xs[1..], ys[1..], t, u);
      assert CastEach(xs, t)[1..] == CastEach(xs[1..], t) && CastEach(ys, u)[1..] == CastEach(ys[1..], u);
    }
  }

  /** Nodes that differ in positions only are rewritten alike. */
  lemma RewriteSame(v: Expr, w: Expr)
    requires SameButPositions(v, w)
    ensures SameButPositions(if CastArray(v) then Distribute(v) else v, if CastArray(w) then Distribute(w) else w)
  {
    CastArrayInvariant(v, w);
    if CastArray(v) { CastEachSame(v.arg.elements, w.arg.elements, Scalar(v.typeName), Scalar(w.typeName)); }
  }

  lemma CastArrayVisited(a: Expr)
    requires CastArray(a)
    ensures Visit(a) == ArrayExpr(CastEach(a.arg.elements, Scalar(a.typeName)), a.arg.location)
  {
    var es := a.arg.elements;
    forall i | 0 <= i < |es| ensures Visit(es[i]) == es[i] { LiteralIsFixed(es[i]); }
    assert VisitAll(es) == es;
    assert VisitChildren(a.arg) == a.arg && Visit(a.arg) == a.arg;
    assert VisitChildren(a) == a;
  }

  lemma SpellsVisited(a: Expr, b: Expr)
    requires Spells(a, b)
    ensures SameButPositions(Visit(a), Visit(b))
    ensures SameButPositions(Visit(b), Visit(a))
  {
    CastArrayVisited(a);
    CastsAreFixed(b);
    var es, casts, t := a.arg.elements, b.elements, Scalar(a.typeName);
    CastEachAre(es, t);
    forall i | 0 <= i < |es| ensures SameButPositions(CastEach(es, t)[i], casts[i]) && SameButPositions(casts[i], CastEach(es, t)[i]) {
      SameFlipped(casts[i].arg, es[i]);
    }
    AllSameAt(CastEach(es, t), casts);
    AllSameAt(casts, CastEach(es, t));
  }

  lemma SameFlipped(a: Expr, b: Expr)
    requires SameButPositions(a, b)
    ensures SameButPositions(b, a)
  {
    StripExactly(a, b);
    StripExactly(b, a);
  }

  /** Alike expressions become one expression, up to positions. */
  lemma {:induction false} AlikeVisited(a: Expr, b: Expr)
    requires Alike(a, b)
    ensures SameButPositions(Visit(a), Visit(b))
    decreases a
  {
    if Spells(a, b) {
      SpellsVisited(a, b);
    } else if Spells(b, a) {
      SpellsVisited(b, a);
    } else {
      match (a, b) {
        case (Literal(n, v, _), Literal(m, u, _)) =>
        case (Cast(x, t, _), Cast(y, u, _)) => AlikeVisited(x, y);
        case (ArrayExpr(xs, _), ArrayExpr(ys, _)) => AllAlikeVisited(xs, ys);
        case (Other(tag, fields, xs, _), Other(other, values, ys, _)) => AllAlikeVisited(xs, ys);
      }
      RewriteSame(VisitChildren(a), VisitChildren(b));
    }
  }

  lemma {:induction false} AllAlikeVisited(xs: seq<Expr>, ys: seq<Expr>)
    requires AllAlike(xs, ys)
    ensures AllSame(VisitAll(xs), VisitAll(ys))
    decreases xs
  {
    if xs != [] {
      AlikeVisited(xs[0], ys[0]);
      AllAlikeVisited(xs[1..], ys[1..]);
      assert VisitAll(xs)[1..] == VisitAll(xs[1..]) && VisitAll(ys)[1..] == VisitAll(ys[1..]);
    }
  }

  // ---- and nothing else does ----

  lemma SpelledBy(a: Expr, b: Expr)
    requires CastArray(a) && !CastArray(b) && SameButPositions(Visit(a), Visit(b))
    ensures Spells(a, b)
  {
    CastArrayVisited(a);
    ChildrenKeepForms(b);
    var es, t := a.arg.elements, Scalar(a.typeName);
    CastEachAre(es, t);
    AllSameAt(CastEach(es, t), VisitAll(b.elements));
    forall i | 0 <= i < |b.elements|
      ensures TextOfLiteral(b.elements[i]) && SameType(b.elements[i].typeName, t) && SameButPositions(b.elements[i].arg, es[i])
    {
      var c := CastEach(es, t)[i];
      assert SameButPositions(c, Visit(b.elements[i]));
      LiteralInvariant(c, Visit(b.elements[i]));
      VisitKeepsTexts(b.elements[i]);
      TextOfLiteralIsFixed(b.elements[i]);
      SameFlipped(es[i], b.elements[i].arg);
    }
  }

  lemma BothCastArrays(a: Expr, b: Expr)
    requires CastArray(a) && CastArray(b) && SameButPositions(Visit(a), Visit(b))
    ensures SameButPositions(a, b)
  {
    CastArrayVisited(a);
    CastArrayVisited(b);
    var xs, ys := a.arg.elements, b.arg.elements;
    CastEachAre(xs, Scalar(a.typeName));
    CastEachAre(ys, Scalar(b.typeName));
    AllSameAt(CastEach(xs, Scalar(a.typeName)), CastEach(ys, Scalar(b.typeName)));
    forall i | 0 <= i < |xs| ensures SameButPositions(xs[i], ys[i]) && SameType(Scalar(a.typeName), Scalar(b.typeName)) {
      assert SameButPositions(CastEach(xs, Scalar(a.typeName))[i], CastEach(ys, Scalar(b.typeName))[i]);
    }
    AllSameAt(xs, ys);
    assert SameType(Scalar(a.typeName), Scalar(b.typeName));
  }

  lemma {:induction false} SameIsAlike(a: Expr, b: Expr)
    requires SameButPositions(a, b)
    ensures Alike(a, b)
    decreases a
  {
    match (a, b) {
      case (Literal(n, v, _), Literal(m, u, _)) =>
      case (Cast(x, t, _), Cast(y, u, _)) => SameIsAlike(x, y);
      case (ArrayExpr(xs, _), ArrayExpr(ys, _)) => AllSameAlike(xs, ys);
      case (Other(tag, fields, xs, _), Other(other, values, ys, _)) => AllSameAlike(xs, ys);
    }
  }

  lemma {:induction false} AllSameAlike(xs: seq<Expr>, ys: seq<Expr>)
    requires AllSame(xs, ys)
    ensures AllAlike(xs, ys)
    decreases xs
  {
    if xs != [] {
      SameIsAlike(xs[0], ys[0]);
      AllSameAlike(xs[1..], ys[1..]);
    }
  }

  lemma {:induction false} VisitedAlike(a: Expr, b: Expr)
    requires SameButPositions(Visit(a), Visit(b))
    ensures Alike(a, b)
    decreases a
  {
    ChildrenKeepForms(a);
    ChildrenKeepForms(b);
    if CastArray(a) && CastArray(b) {
      BothCastArrays(a, b);
      SameIsAlike(a, b);
    } else if CastArray(a) {
      SpelledBy(a, b);
    } else if CastArray(b) {
      SameFlipped(Visit(a), Visit(b));
      SpelledBy(b, a);
    } else {
      match (a, b) {
        case (Literal(n, v, _), Literal(m, u, _)) =>
        case (Cast(x, t, _), Cast(y, u, _)) => VisitedAlike(x, y);
        case (ArrayExpr(xs, _), ArrayExpr(ys, _)) => AllVisitedAlike(xs, ys);
        case (Other(tag, fields, xs, _), Other(other, values, ys, _)) => AllVisitedAlike(xs, ys);
        case _ =>
      }
    }
  }

  lemma {:induction false} AllVisitedAlike(xs: seq<Expr>, ys: seq<Expr>)
    requires AllSame(VisitAll(xs), VisitAll(ys))
    ensures AllAlike(xs, ys)
    decreases xs
  {
    if xs != [] {
      assert VisitAll(xs)[1..] == VisitAll(xs[1..]) && VisitAll(ys)[1..] == VisitAll(ys[1..]);
      VisitedAlike(xs[0], ys[0]);
      AllVisitedAlike(xs[1..], ys[1..]);
    }
  }

  // ---- the canonical form ----

  /** Two expressions share a canonical form exactly when they differ in positions and in the spelling of arrays of literals only,
      wherever in the expressions that is. */
  lemma OneFormExactly(a: Expr, b: Expr)
    ensures Strip(Visit(a)) == Strip(Visit(b)) <==> Alike(a, b)
  {
    StripExactly(Visit(a), Visit(b));
    if Alike(a, b) { AlikeVisited(a, b); }
    if SameButPositions(Visit(a), Visit(b)) { VisitedAlike(a, b); }
  }

  /** The canonical form itself shows whether a constraint was recognized. */
  lemma {:induction false} MatchedSeen(e: Expr)
    ensures Matched(e) <==> Recognized(Visit(e))
    decreases e
  {
    var v := VisitChildren(e);
    if CastArray(v) {
      CastEachAre(v.arg.elements, Scalar(v.typeName));
    } else {
      match e {
        case Literal(_, _, _) =>
        case Cast(arg, t, l) => MatchedSeen(arg);
        case ArrayExpr(es, l) => AnyMatchedSeen(es);
        case Other(tag, fields, es, l) => AnyMatchedSeen(es);
      }
    }
  }

  lemma {:induction false} AnyMatchedSeen(es: seq<Expr>)
    ensures AnyMatched(es) <==> AnyRecognized(VisitAll(es))
    decreases es
  {
    if es != [] {
      MatchedSeen(es[0]);
      AnyMatchedSeen(es[1..]);
      assert VisitAll(es)[1..] == VisitAll(es[1..]);
    }
  }

  lemma {:induction false} RecognizedInvariant(a: Expr, b: Expr)
    requires SameButPositions(a, b)
    ensures Recognized(a) <==> Recognized(b)
    decreases a
  {
    CastArrayInvariant(a, b);
    ArrayOfCastsInvariant(a, b);
    match (a, b) {
      case (Literal(n, v, _), Literal(m, u, _)) =>
      case (Cast(x, t, _), Cast(y, u, _)) => RecognizedInvariant(x, y);
      case (ArrayExpr(xs, _), ArrayExpr(ys, _)) => AnyRecognizedInvariant(xs, ys);
      case (Other(tag, fields, xs, _), Other(other, values, ys, _)) => AnyRecognizedInvariant(xs, ys);
    }
  }

  lemma ArrayOfCastsInvariant(a: Expr, b: Expr)
    requires SameButPositions(a, b)
    ensures ArrayOfCasts(a) <==> ArrayOfCasts(b)
  {
    if a.ArrayExpr? {
      AllSameAt(a.elements, b.elements);
      forall i | 0 <= i < |a.elements| ensures TextOfLiteral(a.elements[i]) <==> TextOfLiteral(b.elements[i]) {
        LiteralInvariant(a.elements[i], b.elements[i]);
      }
    }
  }

  lemma {:induction false} AnyRecognizedInvariant(xs: seq<Expr>, ys: seq<Expr>)
    requires AllSame(xs, ys)
    ensures AnyRecognized(xs) <==> AnyRecognized(ys)
    decreases xs
  {
    if xs != [] {
      RecognizedInvariant(xs[0], ys[0]);
      AnyRecognizedInvariant(xs[1..], ys[1..]);
    }
  }

  /** Two definitions of check constraints with equal flags, one of them recognized, have equal canonical results exactly when their
      expressions are alike; so a restored constraint is reported as changed exactly when more than that changed. */
  lemma SameCanonicalExactly(parse: string -> Option<Constraint>, a: string, b: string)
    requires "CHECK (" <= a && "CHECK (" <= b && |a| <= 65536 && |b| <= 65536
    requires parse(a).Some? && parse(b).Some? && Recognized(parse(a).value.expr) && a != b
    ensures CanonicalConstraint(parse, a) == CanonicalConstraint(parse, b) <==>
      parse(a).value.flags == parse(b).value.flags && Alike(parse(a).value.expr, parse(b).value.expr)
  {
    var x, y := parse(a).value.expr, parse(b).value.expr;
    MatchedExactly(x);
    OneFormExactly(x, y);
    if Alike(x, y) {
      AlikeVisited(x, y);
      MatchedSeen(x);
      MatchedSeen(y);
      RecognizedInvariant(Visit(x), Visit(y));
    }
  }

  /** No part of a canonical result has a position. */
  lemma CanonicalHasNoPositions(parse: string -> Option<Constraint>, definition: string)
    ensures match CanonicalConstraint(parse, definition)
      case Unchanged(text) => text == definition
      case Normalized(c) => NoPositions(c.expr)
  {
    if CanonicalConstraint(parse, definition).Normalized? { StripLeavesNone(Visit(parse(definition).value.expr)); }
  }

  /** A definition is normalized exactly when it is a check constraint of at most 65536 characters that holds one of the two spellings. */
  lemma NormalizedExactly(parse: string -> Option<Constraint>, definition: string)
    ensures CanonicalConstraint(parse, definition).Normalized? <==>
      |definition| >= 7 && definition[..7] == "CHECK (" && |definition| <= 65536
      && parse(definition).Some? && Recognized(parse(definition).value.expr)
  {
    if parse(definition).Some? { MatchedExactly(parse(definition).value.expr); }
  }

  /** The two spellings, part by part: string literals cast to plain varchar, under a plain text[] cast or under a plain text cast each. */
  lemma SpellingsExactly(e: Expr)
    ensures CastArray(e) <==>
      && e.Cast? && e.typeName.names in {["text"], ["pg_catalog", "text"]} && e.typeName.bounds == Some([-1])
      && e.typeName.typmods == None && e.typeName.typemod == -1 && !e.typeName.setof && !e.typeName.pctType
      && e.arg.ArrayExpr? && |e.arg.elements| > 0 && forall x :: x in e.arg.elements ==> PlainLiteral(x)
    ensures ArrayOfCasts(e) <==>
      e.ArrayExpr? && |e.elements| > 0 && forall x :: x in e.elements ==>
        && x.Cast? && x.typeName.names in {["text"], ["pg_catalog", "text"]} && x.typeName.bounds == None
        && x.typeName.typmods == None && x.typeName.typemod == -1 && !x.typeName.setof && !x.typeName.pctType
        && PlainLiteral(x.arg)
  {
    if e.Cast? && e.arg.ArrayExpr? {
      var es := e.arg.elements;
      assert forall i :: 0 <= i < |es| ==> es[i] in es && (VarcharLiteral(es[i]) <==> PlainLiteral(es[i]));
    }
    if e.ArrayExpr? {
      assert forall i :: 0 <= i < |e.elements| ==> e.elements[i] in e.elements;
    }
  }

  predicate PlainLiteral(e: Expr) {
    && e.Cast? && e.typeName.names in {["varchar"], ["pg_catalog", "varchar"]} && e.typeName.bounds == None
    && e.typeName.typmods == None && e.typeName.typemod == -1 && !e.typeName.setof && !e.typeName.pctType
    && e.arg.Literal? && !e.arg.isNull && e.arg.value.StringValue?
  }
}
