/**
 * The expressions of the calculator as trees, with every blank and every
 * parenthesis of their text, and the proof that the parser answers exactly
 * the texts of such trees, nested no deeper than its limit and free of zero
 * divisors, with the value of the tree.
 */
module CalculatorGrammar {
  import opened Calculator

  datatype Tree =
    | Num(pad: string, whole: string, point: bool, frac: string)
    | Sign(pad: string, minus: bool, arg: Tree)
    | Paren(pad: string, inner: Tree, closePad: string)
    | Bin(left: Tree, pad: string, op: char, right: Tree)

  predicate AllBlank(pad: string) { forall k :: 0 <= k < |pad| ==> IsBlank(pad[k]) }

  /** Sums bind weakest, then products; numbers, signs and parentheses are atoms. */
  function Rank(e: Tree): nat {
    if e.Bin? then (if IsFactorOp(e.op) then 1 else 0) else 2
  }

  /** Operators of one rank group to the left; a right operand that does not needs parentheses. */
  predicate Grammatical(e: Tree) {
    match e
    case Num(pad, whole, point, frac) =>
      AllBlank(pad) && AllDigits(whole) && AllDigits(frac) && |whole| + |frac| > 0 && (!point ==> frac == "")
    case Sign(pad, minus, arg) => AllBlank(pad) && Rank(arg) == 2 && Grammatical(arg)
    case Paren(pad, inner, closePad) => AllBlank(pad) && AllBlank(closePad) && Grammatical(inner)
    case Bin(left, pad, op, right) =>
      && AllBlank(pad) && IsOperator(op) && Grammatical(left) && Grammatical(right)
      && Rank(left) >= Rank(e) && Rank(right) > Rank(e)
  }

  function Text(e: Tree): string {
    match e
    case Num(pad, whole, point, frac) => pad + (whole + (if point then "." + frac else ""))
    case Sign(pad, minus, arg) => (pad + [if minus then '-' else '+']) + Text(arg)
    case Paren(pad, inner, closePad) => (pad + ['(']) + (Text(inner) + (closePad + [')']))
    case Bin(left, pad, op, right) => Text(left) + ((pad + [op]) + Text(right))
  }

  /** What a product, a quotient and a remainder are. */
  function Apply(op: char, a: real, b: real): real
    requires op == '*' || b != 0.0
  {
    match op
    case '*' => a * b
    case '/' => a / b
    case _ => a - b * Truncate(a / b) as real
  }

  lemma FactorApplies(op: char, a: real, b: real)
    requires IsFactorOp(op) && (op == '*' || b != 0.0)
    ensures Factor(op, a, b) == Apply(op, a, b)
  {
  }

  /** The value of an expression; none if some divisor in it is zero. */
  function Eval(e: Tree): Answer {
    match e
    case Num(pad, whole, point, frac) =>
      if AllDigits(whole) && AllDigits(frac)
      then Answer(Whole(0.0, whole) + Fraction(frac)) else NoAnswer
    case Sign(pad, minus, arg) =>
      var a := Eval(arg);
      if a.NoAnswer? then NoAnswer else Answer(if minus then -a.value else a.value)
    case Paren(pad, inner, closePad) => Eval(inner)
    case Bin(left, pad, op, right) =>
      var a, b := Eval(left), Eval(right);
      if a.NoAnswer? || b.NoAnswer? then NoAnswer
      else if op == '+' then Answer(a.value + b.value)
      else if op == '-' then Answer(a.value - b.value)
      else if op == '*' || b.value != 0.0 then Answer(Apply(op, a.value, b.value))
      else NoAnswer
  }

  /** How many atoms are open at once, at most. */
  function Nest(e: Tree): nat {
    match e
    case Num(_, _, _, _) => 1
    case Sign(_, _, arg) => 1 + Nest(arg)
    case Paren(_, inner, _) => 1 + Nest(inner)
    case Bin(left, _, _, right) => if Nest(left) > Nest(right) then Nest(left) else Nest(right)
  }

  /* ---- reading a tree back ---- */

  /** The text of s stands at position i. */
  predicate Stands(s: string, text: string, i: nat) { i + |s| <= |text| && text[i..i + |s|] == s }

  lemma StandsSplit(a: string, b: string, text: string, i: nat)
    requires Stands(a + b, text, i)
    ensures Stands(a, text, i) && Stands(b, text, i + |a|)
  {
    assert text[i..i + |a|] == text[i..i + |a + b|][..|a|];
    assert text[i + |a|..i + |a| + |b|] == text[i..i + |a + b|][|a|..];
  }

  lemma StandsOne(c: char, text: string, i: nat)
    requires Stands([c], text, i)
    ensures At(text, i) == c
  {
    assert text[i] == text[i..i + 1][0];
  }

  lemma {:induction false} BlanksAreSkipped(pad: string, text: string, i: nat)
    requires AllBlank(pad) && Stands(pad, text, i) && !IsBlank(At(text, i + |pad|))
    ensures SkipBlanks(text, i) == i + |pad|
  {
    assert forall k :: i <= k < i + |pad| ==> text[k] == text[i..i + |pad|][k - i];
  }

  lemma DigitsAreSkipped(ds: string, text: string, i: nat)
    requires AllDigits(ds) && Stands(ds, text, i) && !IsDigit(At(text, i + |ds|))
    ensures SkipDigits(text, i) == i + |ds|
  {
    assert forall k :: i <= k < i + |ds| ==> text[k] == text[i..i + |ds|][k - i];
  }

  /** A number ends where no digit or point follows it. */
  predicate Ends(text: string, j: nat) { !IsDigit(At(text, j)) && At(text, j) != '.' }

  lemma NumberReads(whole: string, point: bool, frac: string, text: string, p: Parse)
    requires AllDigits(whole) && AllDigits(frac) && |whole| + |frac| > 0 && (!point ==> frac == "")
    requires var s := whole + (if point then "." + frac else "");
      Stands(s, text, p.cursor) && Ends(text, p.cursor + |s|)
    ensures p.cursor <= |text| && Number(text, p) ==
      (Whole(0.0, whole) + Fraction(frac), p.(cursor := p.cursor + |whole + (if point then "." + frac else "")|))
  {
    hide Whole;
    hide Stands;
    hide SkipDigits;
    var rest := if point then "." + frac else "";
    var i := p.cursor + |whole|;
    StandsSplit(whole, rest, text, p.cursor);
    if point {
      StandsSplit(".", frac, text, i);
      StandsOne('.', text, i);
      DigitsAreSkipped(whole, text, p.cursor);
      DigitsAreSkipped(frac, text, i + 1);
    } else {
      assert whole + "" == whole;
      DigitsAreSkipped(whole, text, p.cursor);
    }
  }

  /** Blanks and then one more character, at position i. */
  lemma BlanksThen(pad: string, c: char, text: string, i: nat)
    requires AllBlank(pad) && !IsBlank(c) && Stands(pad + [c], text, i)
    ensures SkipBlanks(text, i) == i + |pad| < |text| && At(text, i + |pad|) == c
    ensures !IsDigit(c) && c != '.' ==> Ends(text, i)
  {
    StandsSplit(pad, [c], text, i);
    StandsOne(c, text, i + |pad|);
    BlanksAreSkipped(pad, text, i);
    if pad != "" { assert text[i] == text[i..i + |pad|][0]; }
  }

  /* Where the parts of a tree stand. */

  lemma NumStands(e: Tree, text: string, i: nat)
    requires e.Num? && Stands(Text(e), text, i)
    ensures Stands(e.pad, text, i)
    ensures Stands(e.whole + (if e.point then "." + e.frac else ""), text, i + |e.pad|)
  {
    var s := e.whole + (if e.point then "." + e.frac else "");
    StandsSplit(e.pad, s, text, i);
  }

  lemma SignStands(e: Tree, text: string, i: nat)
    requires e.Sign? && Grammatical(e) && Stands(Text(e), text, i)
    ensures var j := i + |e.pad|;
      && SkipBlanks(text, i) == j < |text| && At(text, j) == (if e.minus then '-' else '+')
      && Stands(Text(e.arg), text, j + 1) && j + 1 + |Text(e.arg)| == i + |Text(e)|
  {
    hide SkipBlanks;
    hide Stands;
    var c := if e.minus then '-' else '+';
    StandsSplit(e.pad + [c], Text(e.arg), text, i);
    BlanksThen(e.pad, c, text, i);
  }

  lemma ParenStands(e: Tree, text: string, i: nat)
    requires e.Paren? && Grammatical(e) && Stands(Text(e), text, i)
    ensures var j := i + |e.pad|; var k := j + 1 + |Text(e.inner)|;
      && SkipBlanks(text, i) == j < |text| && At(text, j) == '('
      && Stands(Text(e.inner), text, j + 1) && Ends(text, k)
      && SkipBlanks(text, k) == k + |e.closePad| < |text| && At(text, k + |e.closePad|) == ')'
      && k + |e.closePad| + 1 == i + |Text(e)|
  {
    hide SkipBlanks;
    hide Stands;
    var close := e.closePad + [')'];
    StandsSplit(e.pad + ['('], Text(e.inner) + close, text, i);
    BlanksThen(e.pad, '(', text, i);
    StandsSplit(Text(e.inner), close, text, i + |e.pad| + 1);
    BlanksThen(e.closePad, ')', text, i + |e.pad| + 1 + |Text(e.inner)|);
  }

  lemma BinStands(e: Tree, text: string, i: nat)
    requires e.Bin? && Grammatical(e) && Stands(Text(e), text, i)
    ensures var j := i + |Text(e.left)|;
      && Stands(Text(e.left), text, i) && Ends(text, j)
      && SkipBlanks(text, j) == j + |e.pad| < |text| && At(text, j + |e.pad|) == e.op
      && Stands(Text(e.right), text, j + |e.pad| + 1)
      && j + |e.pad| + 1 + |Text(e.right)| == i + |Text(e)|
  {
    hide SkipBlanks;
    hide Stands;
    var tail := (e.pad + [e.op]) + Text(e.right);
    StandsSplit(Text(e.left), tail, text, i);
    StandsSplit(e.pad + [e.op], Text(e.right), text, i + |Text(e.left)|);
    BlanksThen(e.pad, e.op, text, i + |Text(e.left)|);
  }

  /** Tree e can be read at p: its text is there and its nesting is within the limit. */
  predicate Readable(e: Tree, text: string, p: Parse) {
    && Grammatical(e) && Eval(e).Answer? && Stands(Text(e), text, p.cursor)
    && p.depth + Nest(e) <= DEPTH_MAX && Ends(text, p.cursor + |Text(e)|)
  }

  function After(e: Tree, p: Parse): Parse { p.(cursor := p.cursor + |Text(e)|) }

  lemma NumReads(e: Tree, text: string, p: Parse)
    requires Readable(e, text, p) && e.Num?
    ensures Atom(text, p) == (Eval(e).value, After(e, p))
  {
    hide Atom;
    hide Number;
    var i := p.cursor + |e.pad|;
    var s := e.whole + (if e.point then "." + e.frac else "");
    NumStands(e, text, p.cursor);
    assert text[i] == text[i..i + |s|][0];
    BlanksAreSkipped(e.pad, text, p.cursor);
    NumberReads(e.whole, e.point, e.frac, text, p.(cursor := i, depth := p.depth + 1));
    AtomOfNumber(text, p, i);
  }

  lemma {:induction false} AtomReads(e: Tree, text: string, p: Parse)
    requires Readable(e, text, p) && Rank(e) == 2
    ensures Atom(text, p) == (Eval(e).value, After(e, p))
    decreases e, 0
  {
    hide Atom;
    hide Expr;
    hide ExprRest;
    hide Text;
    hide Stands;
    hide SkipBlanks;
    match e
    case Num(pad, whole, point, frac) => NumReads(e, text, p);
    case Sign(pad, minus, arg) =>
      SignStands(e, text, p.cursor);
      AtomReads(arg, text, Inside(e, p));
      SignReads(e, text, p);
    case Paren(pad, inner, closePad) =>
      ParenStands(e, text, p.cursor);
      ExprReads(inner, text, Inside(e, p));
      ParenReads(e, text, p);
  }

  /** Past the sign or the opening parenthesis. */
  function Inside(e: Tree, p: Parse): Parse { p.(cursor := p.cursor + |e.pad| + 1, depth := p.depth + 1) }

  lemma SignReads(e: Tree, text: string, p: Parse)
    requires Readable(e, text, p) && e.Sign? && Inside(e, p).cursor <= |text|
    requires Atom(text, Inside(e, p)) == (Eval(e.arg).value, After(e.arg, Inside(e, p)))
    ensures Atom(text, p) == (Eval(e).value, After(e, p))
  {
    hide Atom;
    hide Text;
    hide Stands;
    hide SkipBlanks;
    SignStands(e, text, p.cursor);
    AtomOfSign(text, p, p.cursor + |e.pad|);
  }

  lemma ParenReads(e: Tree, text: string, p: Parse)
    requires Readable(e, text, p) && e.Paren?
    requires var q := Inside(e, p);
      q.cursor <= |text| && After(e.inner, q).cursor <= |text| &&
      Expr(text, q) == ExprRest(text, Eval(e.inner).value, After(e.inner, q))
    ensures Atom(text, p) == (Eval(e).value, After(e, p))
  {
    hide Atom;
    hide Expr;
    hide ExprRest;
    hide Text;
    hide Stands;
    hide SkipBlanks;
    var r := After(e.inner, Inside(e, p));
    ParenStands(e, text, p.cursor);
    AtomOfParen(text, p, p.cursor + |e.pad|);
    ExprRestStops(text, Eval(e.inner).value, r, r.cursor + |e.closePad|);
    SkipBlanksTwice(text, r.cursor);
  }

  lemma {:induction false} TermReads(e: Tree, text: string, p: Parse)
    requires Readable(e, text, p) && Rank(e) >= 1
    ensures Term(text, p) == TermRest(text, Eval(e).value, After(e, p))
    decreases e, 1
  {
    hide Atom;
    hide TermRest;
    hide Text;
    hide Stands;
    hide SkipBlanks;
    hide Factor;
    hide Apply;
    if Rank(e) == 2 {
      AtomReads(e, text, p);
    } else {
      BinStands(e, text, p.cursor);
      FactorApplies(e.op, Eval(e.left).value, Eval(e.right).value);
      TermReads(e.left, text, p);
      TermRestGoesOn(text, Eval(e.left).value, After(e.left, p), After(e.left, p).cursor + |e.pad|);
      AtomReads(e.right, text, p.(cursor := p.cursor + |Text(e.left)| + |e.pad| + 1));
    }
  }

  /** The operands of a sum can be read where they stand. */
  lemma SumParts(e: Tree, text: string, p: Parse)
    requires Readable(e, text, p) && Rank(e) == 0
    ensures e.Bin? && (e.op == '+' || e.op == '-')
    ensures var i := p.cursor + |Text(e.left)|; var q := p.(cursor := i + |e.pad| + 1);
      && i <= |text| && SkipBlanks(text, i) == i + |e.pad| < |text| && At(text, i + |e.pad|) == e.op
      && Readable(e.left, text, p) && Readable(e.right, text, q) && Rank(e.right) >= 1
      && After(e.right, q) == After(e, p)
      && Eval(e).value == (if e.op == '+' then Eval(e.left).value + Eval(e.right).value
                           else Eval(e.left).value - Eval(e.right).value)
  {
    hide Text;
    hide Stands;
    hide SkipBlanks;
    BinStands(e, text, p.cursor);
  }

  /** A sum is read once its left operand is. */
  lemma SumReads(e: Tree, text: string, p: Parse)
    requires Readable(e, text, p) && Rank(e) == 0 && e.Bin? && Eval(e.left).Answer?
    requires !IsFactorOp(At(text, SkipBlanks(text, p.cursor + |Text(e)|)))
    requires After(e.left, p).cursor <= |text|
    requires Expr(text, p) == ExprRest(text, Eval(e.left).value, After(e.left, p))
    ensures Expr(text, p) == ExprRest(text, Eval(e).value, After(e, p))
    decreases e, 2
  {
    hide Atom;
    hide Term;
    hide TermRest;
    hide ExprRest;
    hide Expr;
    hide Text;
    hide SkipBlanks;
    var q := p.(cursor := p.cursor + |Text(e.left)| + |e.pad| + 1);
    SumParts(e, text, p);
    TermReads(e.right, text, q);
    hide Stands;
    hide Ends;
    hide Eval;
    ExprRestGoesOn(text, Eval(e.left).value, After(e.left, p), After(e.left, p).cursor + |e.pad|);
    ExprRestSkips(text, Eval(e).value, After(e, p));
    TermRestStops(text, Eval(e.right).value, After(e.right, q), SkipBlanks(text, p.cursor + |Text(e)|));
  }

  lemma {:induction false} ExprReads(e: Tree, text: string, p: Parse)
    requires Readable(e, text, p)
    requires !IsFactorOp(At(text, SkipBlanks(text, p.cursor + |Text(e)|)))
    ensures Expr(text, p) == ExprRest(text, Eval(e).value, After(e, p))
    decreases e, 3
  {
    hide Atom;
    hide Term;
    hide TermRest;
    hide ExprRest;
    hide Text;
    hide SkipBlanks;
    if Rank(e) >= 1 {
      TermReads(e, text, p);
      ExprRestSkips(text, Eval(e).value, After(e, p));
      TermRestStops(text, Eval(e).value, After(e, p), SkipBlanks(text, p.cursor + |Text(e)|));
    } else {
      SumParts(e, text, p);
      ExprReads(e.left, text, p);
      SumReads(e, text, p);
    }
  }

  /* ---- and only such texts are read ---- */

  /** Tree e was read from position i on, up to p, and is worth v. */
  predicate Read(e: Tree, text: string, i: nat, j: nat, v: real, depth: int) {
    && i <= j <= |text| && Grammatical(e) && Eval(e) == Answer(v)
    && Text(e) == text[i..j] && depth + Nest(e) <= DEPTH_MAX
  }

  lemma Joins(text: string, i: nat, j: nat, k: nat)
    requires i <= j <= k <= |text|
    ensures text[i..k] == text[i..j] + text[j..k]
  {
  }

  /** The same round a single character. */
  lemma JoinsAt(text: string, i: nat, j: nat, k: nat)
    requires i <= j < k <= |text|
    ensures text[i..k] == (text[i..j] + [text[j]]) + text[j + 1..k]
    ensures text[i..k] == text[i..j] + ([text[j]] + text[j + 1..k])
  {
  }

  /** The slices of a number's text, put together. */
  lemma NumberText(text: string, i: nat, j: nat, k: nat, l: nat) returns (e: Tree)
    requires i <= j <= k < l <= |text| && text[k] == '.'
    ensures e == Num(text[i..j], text[j..k], true, text[k + 1..l]) && Text(e) == text[i..l]
  {
    e := Num(text[i..j], text[j..k], true, text[k + 1..l]);
    assert text[k..l] == "." + text[k + 1..l];
    Joins(text, j, k, l);
    Joins(text, i, j, l);
  }

  lemma NumberRead(text: string, p: Parse, i: nat) returns (e: Tree)
    requires p.cursor <= |text| && SkipBlanks(text, p.cursor) == i && p.depth < DEPTH_MAX
    requires !Number(text, p.(cursor := i, depth := p.depth + 1)).1.failed
    ensures var r := Number(text, p.(cursor := i, depth := p.depth + 1));
      Rank(e) == 2 && Read(e, text, p.cursor, r.1.cursor, r.0, p.depth)
  {
    hide SkipBlanks;
    hide SkipDigits;
    hide Whole;
    hide Text;
    var j := SkipDigits(text, i);
    if At(text, j) == '.' {
      e := NumberText(text, p.cursor, i, j, SkipDigits(text, j + 1));
    } else {
      e := WholeText(text, p.cursor, i, j);
    }
  }

  lemma WholeText(text: string, i: nat, j: nat, k: nat) returns (e: Tree)
    requires i <= j <= k <= |text|
    ensures e == Num(text[i..j], text[j..k], false, "") && Text(e) == text[i..k]
  {
    e := Num(text[i..j], text[j..k], false, "");
    Joins(text, i, j, k);
  }

  lemma SignRead(text: string, p: Parse, i: nat, arg: Tree, j: nat, v: real) returns (e: Tree)
    requires p.cursor <= i < j <= |text| && SkipBlanks(text, p.cursor) == i
    requires text[i] == '-' || text[i] == '+'
    requires Rank(arg) == 2 && Read(arg, text, i + 1, j, v, p.depth + 1)
    ensures Rank(e) == 2 && Read(e, text, p.cursor, j, if text[i] == '-' then -v else v, p.depth)
  {
    hide SkipBlanks;
    e := Sign(text[p.cursor..i], text[i] == '-', arg);
    JoinsAt(text, p.cursor, i, j);
  }

  lemma ParenRead(text: string, p: Parse, i: nat, inner: Tree, j: nat, k: nat, v: real) returns (e: Tree)
    requires p.cursor <= i < j <= k < |text| && SkipBlanks(text, p.cursor) == i
    requires text[i] == '(' && text[k] == ')' && AllBlank(text[j..k])
    requires Read(inner, text, i + 1, j, v, p.depth + 1)
    ensures Rank(e) == 2 && Read(e, text, p.cursor, k + 1, v, p.depth)
  {
    hide SkipBlanks;
    e := Paren(text[p.cursor..i], inner, text[j..k]);
    ParenText(text, p.cursor, i, j, k);
  }

  lemma ParenText(text: string, a: nat, i: nat, j: nat, k: nat)
    requires a <= i < j <= k < |text| && text[i] == '(' && text[k] == ')'
    ensures text[a..k + 1] == (text[a..i] + ['(']) + (text[i + 1..j] + (text[j..k] + [')']))
  {
    assert text[j..k + 1] == text[j..k] + [')'];
    Joins(text, i + 1, j, k + 1);
    JoinsAt(text, a, i, k + 1);
  }

  lemma BinRead(text: string, from: nat, left: Tree, j: nat, i: nat, right: Tree, k: nat,
                a: real, b: real, depth: int) returns (e: Tree)
    requires from <= j <= i < k <= |text| && AllBlank(text[j..i]) && IsOperator(text[i])
    requires Read(left, text, from, j, a, depth) && Read(right, text, i + 1, k, b, depth)
    requires var rank := if IsFactorOp(text[i]) then 1 else 0; Rank(left) >= rank && Rank(right) > rank
    requires IsFactorOp(text[i]) && text[i] != '*' ==> b != 0.0
    ensures e == Bin(left, text[j..i], text[i], right)
    ensures Read(e, text, from, k, if text[i] == '+' then a + b else if text[i] == '-' then a - b
                                   else Factor(text[i], a, b), depth)
  {
    hide Factor;
    hide Apply;
    hide AllBlank;
    if IsFactorOp(text[i]) { FactorApplies(text[i], a, b); }
    e := Bin(left, text[j..i], text[i], right);
    JoinsAt(text, j, i, k);
    Joins(text, from, j, k);
  }

  lemma {:induction false} AtomRead(text: string, p: Parse) returns (e: Tree)
    requires p.cursor <= |text| && !Atom(text, p).1.failed
    ensures var r := Atom(text, p); Rank(e) == 2 && Read(e, text, p.cursor, r.1.cursor, r.0, p.depth)
    decreases |text| - p.cursor, 0
  {
    hide Expr;
    hide Number;
    hide Read;
    hide SkipBlanks;
    assert p.depth < DEPTH_MAX;
    var i := SkipBlanks(text, p.cursor);
    var q := p.(cursor := i + 1, depth := p.depth + 1);
    if At(text, i) == '-' || At(text, i) == '+' {
      AtomOfSign(text, p, i);
      var arg := AtomRead(text, q);
      e := SignRead(text, p, i, arg, Atom(text, q).1.cursor, Atom(text, q).0);
    } else if At(text, i) == '(' {
      AtomOfParen(text, p, i);
      var inner, j := ExprRead(text, q);
      var k := SkipBlanks(text, Expr(text, q).1.cursor);
      Joins(text, j, Expr(text, q).1.cursor, k);
      e := ParenRead(text, p, i, inner, j, k, Expr(text, q).0);
    } else {
      AtomOfNumber(text, p, i);
      e := NumberRead(text, p, i);
    }
  }

  /** A term or an expression: the tree ends at j, blanks follow up to the cursor. */
  lemma {:induction false} TermRead(text: string, p: Parse) returns (e: Tree, j: nat)
    requires p.cursor <= |text| && !Term(text, p).1.failed
    ensures var r := Term(text, p);
      && Rank(e) >= 1 && Read(e, text, p.cursor, j, r.0, p.depth)
      && p.cursor < j <= r.1.cursor && AllBlank(text[j..r.1.cursor])
    decreases |text| - p.cursor, 1
  {
    hide Atom;
    hide TermRest;
    hide Read;
    var a := Atom(text, p);
    var left := AtomRead(text, p);
    e, j := TermRestRead(text, p.cursor, left, a.0, a.1);
  }

  lemma {:induction false} TermRestRead(text: string, from: nat, left: Tree, v: real, p: Parse)
    returns (e: Tree, j: nat)
    requires from < p.cursor <= |text| && !TermRest(text, v, p).1.failed
    requires Rank(left) >= 1 && Read(left, text, from, p.cursor, v, p.depth)
    ensures var r := TermRest(text, v, p);
      Rank(e) >= 1 && Read(e, text, from, j, r.0, p.depth) && from < j <= r.1.cursor && AllBlank(text[j..r.1.cursor])
    decreases |text| - p.cursor, 0
  {
    hide Atom;
    hide TermRest;
    hide Factor;
    hide Read;
    hide SkipBlanks;
    var i := SkipBlanks(text, p.cursor);
    if IsFactorOp(At(text, i)) {
      TermRestGoesOn(text, v, p, i);
      var a := Atom(text, p.(cursor := i + 1));
      var right := AtomRead(text, p.(cursor := i + 1));
      var both := BinRead(text, from, left, p.cursor, i, right, a.1.cursor, v, a.0, p.depth);
      e, j := TermRestRead(text, from, both, Factor(text[i], v, a.0), a.1);
    } else {
      TermRestStops(text, v, p, i);
      e, j := left, p.cursor;
    }
  }

  lemma {:induction false} ExprRead(text: string, p: Parse) returns (e: Tree, j: nat)
    requires p.cursor <= |text| && !Expr(text, p).1.failed
    ensures var r := Expr(text, p);
      Read(e, text, p.cursor, j, r.0, p.depth) && p.cursor < j <= r.1.cursor && AllBlank(text[j..r.1.cursor])
    decreases |text| - p.cursor, 3
  {
    hide Term;
    hide ExprRest;
    hide Read;
    var a := Term(text, p);
    var left, k := TermRead(text, p);
    e, j := ExprRestRead(text, p.cursor, left, k, a.0, a.1);
  }

  lemma {:induction false} ExprRestRead(text: string, from: nat, left: Tree, k: nat, v: real, p: Parse)
    returns (e: Tree, j: nat)
    requires from < k <= p.cursor <= |text| && !ExprRest(text, v, p).1.failed
    requires Read(left, text, from, k, v, p.depth) && AllBlank(text[k..p.cursor])
    ensures var r := ExprRest(text, v, p);
      Read(e, text, from, j, r.0, p.depth) && from < j <= r.1.cursor && AllBlank(text[j..r.1.cursor])
    decreases |text| - p.cursor, 2
  {
    hide Term;
    hide ExprRest;
    hide Factor;
    hide Read;
    hide SkipBlanks;
    var i := SkipBlanks(text, p.cursor);
    Joins(text, k, p.cursor, i);
    if At(text, i) == '+' || At(text, i) == '-' {
      ExprRestGoesOn(text, v, p, i);
      var q := p.(cursor := i + 1);
      var a := Term(text, q);
      var right, m := TermRead(text, q);
      var both := BinRead(text, from, left, k, i, right, m, v, a.0, p.depth);
      e, j := ExprRestRead(text, from, both, m, if text[i] == '+' then v + a.0 else v - a.0, a.1);
    } else {
      ExprRestStops(text, v, p, i);
      e, j := left, k;
    }
  }

  /* ---- the calculator's answer ---- */

  /** The text is that of e with some blanks after it, and e is worth v. */
  predicate Denotes(e: Tree, pad: string, text: string, v: real) {
    && Grammatical(e) && AllBlank(pad) && text == Text(e) + pad
    && Eval(e) == Answer(v) && Nest(e) <= DEPTH_MAX
  }

  predicate HasOperator(text: string) { exists i :: 0 <= i < |text| && IsOperator(text[i]) }

  predicate HasDigit(text: string) { exists i :: 0 <= i < |text| && IsDigit(text[i]) }

  predicate AllExprChars(text: string) { forall i :: 0 <= i < |text| ==> IsExprChar(text[i]) }

  lemma ConcatChars(a: string, b: string)
    ensures AllExprChars(a) && AllExprChars(b) ==> AllExprChars(a + b)
    ensures HasDigit(a) || HasDigit(b) ==> HasDigit(a + b)
  {
    if i :| 0 <= i < |a| && IsDigit(a[i]) {
      assert (a + b)[i] == a[i];
    }
    if i :| 0 <= i < |b| && IsDigit(b[i]) {
      assert (a + b)[|a| + i] == b[i];
    }
  }

  lemma {:induction false} TreesLookLikeExpr(e: Tree)
    requires Grammatical(e)
    ensures AllExprChars(Text(e)) && HasDigit(Text(e))
  {
    match e
    case Num(pad, whole, point, frac) =>
      var rest := if point then "." + frac else "";
      ConcatChars(pad, whole + rest);
      ConcatChars(whole, rest);
      ConcatChars(".", frac);
      if whole != "" { assert IsDigit(whole[0]); } else { assert IsDigit(frac[0]); }
    case Sign(pad, minus, arg) =>
      TreesLookLikeExpr(arg);
      ConcatChars(pad + [if minus then '-' else '+'], Text(arg));
    case Paren(pad, inner, closePad) =>
      TreesLookLikeExpr(inner);
      ConcatChars(Text(inner), closePad + [')']);
      ConcatChars(pad + ['('], Text(inner) + (closePad + [')']));
    case Bin(left, pad, op, right) =>
      TreesLookLikeExpr(left);
      TreesLookLikeExpr(right);
      ConcatChars(pad + [op], Text(right));
      ConcatChars(Text(left), (pad + [op]) + Text(right));
  }

  lemma DenotedLooksLikeExpr(e: Tree, pad: string, text: string, needOperator: bool, v: real)
    requires Denotes(e, pad, text, v) && (needOperator ==> HasOperator(text))
    ensures LooksLikeExpr(text, needOperator)
  {
    TreesLookLikeExpr(e);
    ConcatChars(Text(e), pad);
    assert HasDigit(text);
  }

  /** Where the text of a tree and the blanks after it stand. */
  lemma DenotedStands(e: Tree, pad: string, text: string, v: real)
    requires Denotes(e, pad, text, v)
    ensures Readable(e, text, Parse(0, 0, false)) && SkipBlanks(text, |Text(e)|) == |text|
  {
    hide Text;
    hide SkipBlanks;
    var j := |Text(e)|;
    assert text[0..j] == Text(e) && text[j..|text|] == pad;
    BlanksAreSkipped(pad, text, j);
    assert Ends(text, j) by { if pad != "" { assert text[j] == pad[0]; } }
  }

  /** What is printed is read back: the answer is the left-associative value of the tree. */
  lemma DenotedIsAnswered(e: Tree, pad: string, text: string, needOperator: bool, v: real)
    requires Denotes(e, pad, text, v) && (needOperator ==> HasOperator(text))
    ensures Calculate(text, needOperator) == Answer(v)
  {
    hide Expr;
    hide ExprRest;
    hide SkipBlanks;
    hide LooksLikeExpr;
    hide Text;
    var p := Parse(0, 0, false);
    DenotedLooksLikeExpr(e, pad, text, needOperator, v);
    DenotedStands(e, pad, text, v);
    ExprReads(e, text, p);
    ExprRestStops(text, v, After(e, p), |text|);
    SkipBlanksTwice(text, |Text(e)|);
  }

  lemma AnsweredIsDenoted(text: string, needOperator: bool, v: real) returns (e: Tree, pad: string)
    requires Calculate(text, needOperator) == Answer(v)
    ensures Denotes(e, pad, text, v) && (needOperator ==> HasOperator(text))
  {
    hide Expr;
    var p := Parse(0, 0, false);
    var j;
    e, j := ExprRead(text, p);
    var end := Expr(text, p).1.cursor;
    pad := text[j..];
    Joins(text, j, end, |text|);
    Joins(text, 0, j, |text|);
    assert text[0..|text|] == text && text[0..j] == Text(e);
  }

  /**
   * The calculator answers v exactly for the texts of an expression worth v,
   * nested at most 64 atoms deep.
   */
  lemma AnswersExpressions(text: string, needOperator: bool, v: real)
    ensures Calculate(text, needOperator) == Answer(v) <==>
            (needOperator ==> HasOperator(text)) && exists e, pad :: Denotes(e, pad, text, v)
  {
    if Calculate(text, needOperator) == Answer(v) {
      var e, pad := AnsweredIsDenoted(text, needOperator, v);
    }
    forall e, pad | Denotes(e, pad, text, v) && (needOperator ==> HasOperator(text))
      ensures Calculate(text, needOperator) == Answer(v)
    {
      DenotedIsAnswered(e, pad, text, needOperator, v);
    }
  }

  /* ---- the depth limit within the prompt's 255 bytes ---- */

  lemma {:induction false} DeepParensFail(text: string, p: Parse, n: nat)
    requires p.cursor + n <= |text| && p.depth + n >= DEPTH_MAX
    requires forall k :: p.cursor <= k < p.cursor + n ==> text[k] == '('
    ensures Atom(text, p).1.failed && Expr(text, p).1.failed
    decreases n
  {
    hide Number;
    hide SkipBlanks;
    hide ExprRest;
    hide TermRest;
    if p.depth < DEPTH_MAX {
      assert At(text, p.cursor) == '(';
      assert SkipBlanks(text, p.cursor) == p.cursor;
      AtomOfParen(text, p, p.cursor);
      DeepParensFail(text, p.(cursor := p.cursor + 1, depth := p.depth + 1), n - 1);
    }
  }

  function Wrap(e: Tree, n: nat): Tree {
    if n == 0 then e else Paren("", Wrap(e, n - 1), "")
  }

  lemma {:induction false} WrapText(e: Tree, n: nat)
    requires Grammatical(e)
    ensures Grammatical(Wrap(e, n)) && Eval(Wrap(e, n)) == Eval(e)
    ensures |Text(Wrap(e, n))| == |Text(e)| + 2 * n && Nest(Wrap(e, n)) == Nest(e) + n
    ensures forall k :: 0 <= k < n ==> Text(Wrap(e, n))[k] == '('
  {
    if n > 0 {
      WrapText(e, n - 1);
    }
  }

  /**
   * The source holds that the prompt is too short for the limit to matter. It
   * is not: 1 in 64 parentheses is an expression of 129 characters worth 1,
   * and gets no answer.
   */
  lemma LimitIsReachable() returns (e: Tree)
    ensures Grammatical(e) && Eval(e) == Answer(1.0) && |Text(e)| == 129
    ensures Calculate(Text(e), false) == NoAnswer
  {
    hide Expr;
    hide Text;
    var one := OneReads();
    e := Wrap(one, 64);
    WrapText(one, 64);
    DeepParensFail(Text(e), Parse(0, 0, false), 64);
  }

  lemma OneReads() returns (one: Tree)
    ensures Grammatical(one) && Eval(one) == Answer(1.0) && |Text(one)| == 1
  {
    one := Num("", "1", false, "");
    assert "1"[1..] == "";
  }
}
