/**
 * The calculator's recursive-descent parser as functions of the text and a
 * parsing state. CalculatorParser.dfy runs it with a moving cursor;
 * CalculatorGrammar.dfy says which texts it accepts and what they are worth.
 */
module Calculator {

  const DEPTH_MAX := 64

  /** cursor is a position in the text, failed is never taken back. */
  datatype Parse = Parse(cursor: nat, depth: int, failed: bool)

  /** The character at position i; NUL at the end. */
  function At(text: string, i: nat): char { if i < |text| then text[i] else '\0' }

  predicate IsBlank(c: char) { c == ' ' || c == '\t' }
  predicate IsDigit(c: char) { '0' <= c <= '9' }

  function DigitValue(c: char): real
    requires IsDigit(c)
  {
    (c as int - '0' as int) as real
  }

  function SkipBlanks(text: string, i: nat): (j: nat)
    requires i <= |text|
    ensures i <= j <= |text| && !IsBlank(At(text, j))
    ensures forall k :: i <= k < j ==> IsBlank(text[k])
    decreases |text| - i
  {
    if IsBlank(At(text, i)) then SkipBlanks(text, i + 1) else i
  }

  function SkipDigits(text: string, i: nat): (j: nat)
    requires i <= |text|
    ensures i <= j <= |text| && !IsDigit(At(text, j))
    ensures forall k :: i <= k < j ==> IsDigit(text[k])
    decreases |text| - i
  {
    if IsDigit(At(text, i)) then SkipDigits(text, i + 1) else i
  }

  predicate AllDigits(ds: string) { forall k :: 0 <= k < |ds| ==> IsDigit(ds[k]) }

  /** Digits before the point, each worth ten times the next (Horner's rule). */
  function Whole(value: real, ds: string): real
    requires AllDigits(ds)
    decreases |ds|
  {
    if ds == [] then value else Whole(value * 10.0 + DigitValue(ds[0]), ds[1..])
  }

  /** Digits after the point. */
  function Fraction(ds: string): real
    requires AllDigits(ds)
  {
    if ds == [] then 0.0 else (DigitValue(ds[0]) + Fraction(ds[1..])) / 10.0
  }

  /** C's fmod: the remainder of the division truncated towards zero. */
  function Truncate(q: real): int { if q >= 0.0 then q.Floor else -((-q).Floor) }

  function Fmod(x: real, y: real): real
    requires y != 0.0
  {
    x - y * Truncate(x / y) as real
  }

  function Number(text: string, p: Parse): (r: (real, Parse))
    requires p.cursor <= |text|
    ensures p.cursor <= r.1.cursor <= |text| && (p.failed ==> r.1.failed) && r.1.depth == p.depth
  {
    var i := SkipDigits(text, p.cursor);
    var value := Whole(0.0, text[p.cursor..i]);
    if At(text, i) == '.' then
      var j := SkipDigits(text, i + 1);
      (value + Fraction(text[i + 1..j]),
       p.(cursor := j, failed := p.failed || (i == p.cursor && j == i + 1)))
    else
      (value, p.(cursor := i, failed := p.failed || i == p.cursor))
  }

  function Atom(text: string, p: Parse): (r: (real, Parse))
    requires p.cursor <= |text|
    ensures p.cursor <= r.1.cursor <= |text| && (p.failed ==> r.1.failed)
    ensures !r.1.failed ==> r.1.depth == p.depth && r.1.cursor > p.cursor
    decreases |text| - p.cursor, 0
  {
    if p.depth + 1 > DEPTH_MAX then (0.0, p.(depth := p.depth + 1, failed := true))
    else
      var i := SkipBlanks(text, p.cursor);
      var q := p.(cursor := i, depth := p.depth + 1);
      var c := At(text, i);
      if c == '-' then
        var (v, r) := Atom(text, q.(cursor := i + 1));
        (-v, r.(depth := r.depth - 1))
      else if c == '+' then
        var (v, r) := Atom(text, q.(cursor := i + 1));
        (v, r.(depth := r.depth - 1))
      else if c == '(' then
        var (v, r) := Expr(text, q.(cursor := i + 1));
        var j := SkipBlanks(text, r.cursor);
        if At(text, j) == ')' then (v, r.(cursor := j + 1, depth := r.depth - 1))
        else (v, r.(cursor := j, depth := r.depth - 1, failed := true))
      else
        var (v, r) := Number(text, q);
        (v, r.(depth := r.depth - 1))
  }

  function Term(text: string, p: Parse): (r: (real, Parse))
    requires p.cursor <= |text|
    ensures p.cursor <= r.1.cursor <= |text| && (p.failed ==> r.1.failed)
    ensures !r.1.failed ==> r.1.depth == p.depth && r.1.cursor > p.cursor
    decreases |text| - p.cursor, 1
  {
    var (v, q) := Atom(text, p);
    TermRest(text, v, q)
  }

  predicate IsFactorOp(c: char) { c == '*' || c == '/' || c == '%' }

  function Factor(op: char, left: real, right: real): real
    requires op == '*' || right != 0.0
  {
    if op == '*' then left * right else if op == '/' then left / right else Fmod(left, right)
  }

  /** What follows the first atom of a term, with the value so far. */
  function TermRest(text: string, value: real, p: Parse): (r: (real, Parse))
    requires p.cursor <= |text|
    ensures p.cursor <= r.1.cursor <= |text| && (p.failed ==> r.1.failed)
    ensures !r.1.failed ==> r.1.depth == p.depth
    decreases |text| - p.cursor, 0
  {
    var i := SkipBlanks(text, p.cursor);
    var op := At(text, i);
    if !IsFactorOp(op) then (value, p.(cursor := i))
    else
      var (right, q) := Atom(text, p.(cursor := i + 1));
      if op != '*' && right == 0.0 then (0.0, q.(failed := true))
      else TermRest(text, Factor(op, value, right), q)
  }

  function Expr(text: string, p: Parse): (r: (real, Parse))
    requires p.cursor <= |text|
    ensures p.cursor <= r.1.cursor <= |text| && (p.failed ==> r.1.failed)
    ensures !r.1.failed ==> r.1.depth == p.depth && r.1.cursor > p.cursor
    decreases |text| - p.cursor, 3
  {
    var (v, q) := Term(text, p);
    ExprRest(text, v, q)
  }

  function ExprRest(text: string, value: real, p: Parse): (r: (real, Parse))
    requires p.cursor <= |text|
    ensures p.cursor <= r.1.cursor <= |text| && (p.failed ==> r.1.failed)
    ensures !r.1.failed ==> r.1.depth == p.depth
    decreases |text| - p.cursor, 2
  {
    var i := SkipBlanks(text, p.cursor);
    var op := At(text, i);
    if op == '+' || op == '-' then
      var (right, q) := Term(text, p.(cursor := i + 1));
      ExprRest(text, if op == '+' then value + right else value - right, q)
    else (value, p.(cursor := i))
  }

  predicate IsOperator(c: char) { c == '+' || c == '-' || IsFactorOp(c) }

  predicate IsExprChar(c: char) {
    IsDigit(c) || IsOperator(c) || c == '(' || c == ')' || c == '.' || IsBlank(c)
  }

  /** Only digits, operators, parentheses and blanks, and at least a digit. */
  predicate LooksLikeExpr(text: string, needOperator: bool) {
    && (forall i :: 0 <= i < |text| ==> IsExprChar(text[i]))
    && (exists i :: 0 <= i < |text| && IsDigit(text[i]))
    && (needOperator ==> exists i :: 0 <= i < |text| && IsOperator(text[i]))
  }

  datatype Answer = NoAnswer | Answer(value: real)

  /** The whole text as an expression. */
  function Calculate(text: string, needOperator: bool): Answer {
    if !LooksLikeExpr(text, needOperator) then NoAnswer
    else
      var (v, p) := Expr(text, Parse(0, 0, false));
      if p.failed || SkipBlanks(text, p.cursor) != |text| then NoAnswer else Answer(v)
  }

  /* ---- the parser, one step at a time ---- */

  lemma TooDeep(text: string, p: Parse)
    requires p.cursor <= |text| && p.depth >= DEPTH_MAX
    ensures Atom(text, p) == (0.0, p.(depth := p.depth + 1, failed := true))
  {
  }

  lemma AtomOfSign(text: string, p: Parse, i: nat)
    requires p.cursor <= |text| && SkipBlanks(text, p.cursor) == i && p.depth < DEPTH_MAX
    requires At(text, i) == '-' || At(text, i) == '+'
    ensures i < |text|
    ensures var a := Atom(text, p.(cursor := i + 1, depth := p.depth + 1));
      Atom(text, p) == (if At(text, i) == '-' then -a.0 else a.0, a.1.(depth := a.1.depth - 1))
  {
    hide Number;
    hide Expr;
  }

  lemma AtomOfParen(text: string, p: Parse, i: nat)
    requires p.cursor <= |text| && SkipBlanks(text, p.cursor) == i && p.depth < DEPTH_MAX
    requires At(text, i) == '('
    ensures i < |text|
    ensures var a := Expr(text, p.(cursor := i + 1, depth := p.depth + 1));
      var j := SkipBlanks(text, a.1.cursor);
      Atom(text, p) == (a.0, if At(text, j) == ')' then a.1.(cursor := j + 1, depth := a.1.depth - 1)
                             else a.1.(cursor := j, depth := a.1.depth - 1, failed := true))
  {
  }

  lemma AtomOfNumber(text: string, p: Parse, i: nat)
    requires p.cursor <= |text| && SkipBlanks(text, p.cursor) == i && p.depth < DEPTH_MAX
    requires At(text, i) != '-' && At(text, i) != '+' && At(text, i) != '('
    ensures var a := Number(text, p.(cursor := i, depth := p.depth + 1));
      Atom(text, p) == (a.0, a.1.(depth := a.1.depth - 1))
  {
  }

  lemma TermRestStops(text: string, v: real, p: Parse, i: nat)
    requires p.cursor <= |text| && SkipBlanks(text, p.cursor) == i && !IsFactorOp(At(text, i))
    ensures TermRest(text, v, p) == (v, p.(cursor := i))
  {
  }

  lemma TermRestGoesOn(text: string, v: real, p: Parse, i: nat)
    requires p.cursor <= |text| && SkipBlanks(text, p.cursor) == i && IsFactorOp(At(text, i))
    ensures i < |text|
    ensures var a := Atom(text, p.(cursor := i + 1)); var op := At(text, i);
      TermRest(text, v, p) ==
        if op != '*' && a.0 == 0.0 then (0.0, a.1.(failed := true))
        else TermRest(text, Factor(op, v, a.0), a.1)
  {
  }

  lemma ExprRestStops(text: string, v: real, p: Parse, i: nat)
    requires p.cursor <= |text| && SkipBlanks(text, p.cursor) == i && At(text, i) != '+' && At(text, i) != '-'
    ensures ExprRest(text, v, p) == (v, p.(cursor := i))
  {
  }

  lemma ExprRestGoesOn(text: string, v: real, p: Parse, i: nat)
    requires p.cursor <= |text| && SkipBlanks(text, p.cursor) == i && (At(text, i) == '+' || At(text, i) == '-')
    ensures i < |text|
    ensures var a := Term(text, p.(cursor := i + 1));
      ExprRest(text, v, p) == ExprRest(text, if At(text, i) == '+' then v + a.0 else v - a.0, a.1)
  {
  }

  lemma SkipBlanksTwice(text: string, i: nat)
    requires i <= |text|
    ensures SkipBlanks(text, SkipBlanks(text, i)) == SkipBlanks(text, i)
  {
  }

  lemma ExprRestSkips(text: string, v: real, p: Parse)
    requires p.cursor <= |text|
    ensures ExprRest(text, v, p.(cursor := SkipBlanks(text, p.cursor))) == ExprRest(text, v, p)
  {
    SkipBlanksTwice(text, p.cursor);
  }
}
