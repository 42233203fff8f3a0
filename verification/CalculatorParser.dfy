/**
 * The calculator's parser as it runs: mutually recursive methods that move a
 * cursor over the text, count their depth and set a failure flag.
 */
module CalculatorParser {
  import opened Calculator

  class Parser {
    const text: string
    var cursor: nat
    var depth: int
    var failed: bool

    ghost predicate Valid()
      reads this
    {
      cursor <= |text|
    }

    ghost function State(): Parse
      reads this
    {
      Parse(cursor, depth, failed)
    }

    constructor (text: string)
      ensures Valid() && State() == Parse(0, 0, false) && this.text == text
    {
      this.text := text;
      cursor, depth, failed := 0, 0, false;
    }

    method Peek() returns (c: char)
      requires Valid()
      ensures c == At(text, cursor)
    {
      c := if cursor < |text| then text[cursor] else '\0';
    }

    method SkipSpace()
      requires Valid()
      modifies `cursor
      ensures Valid() && cursor == SkipBlanks(text, old(cursor))
    {
      var c := Peek();
      while c == ' ' || c == '\t'
        invariant Valid() && c == At(text, cursor)
        invariant SkipBlanks(text, cursor) == SkipBlanks(text, old(cursor))
        decreases |text| - cursor
      {
        cursor := cursor + 1;
        c := Peek();
      }
    }

    /** Counts an atom in; past the limit the parse has failed. */
    method Enter() returns (ok: bool)
      requires Valid()
      modifies `depth, `failed
      ensures depth == old(depth) + 1 && ok == (depth <= DEPTH_MAX)
      ensures failed == (old(failed) || !ok)
    {
      depth := depth + 1;
      if depth > DEPTH_MAX {
        failed := true;
        return false;
      }
      return true;
    }

    /** The digits before the point. */
    method ReadWhole() returns (value: real, hasDigits: bool)
      requires Valid()
      modifies `cursor
      ensures Valid() && cursor == SkipDigits(text, old(cursor))
      ensures hasDigits == (cursor > old(cursor))
      ensures value == Whole(0.0, text[old(cursor)..cursor])
    {
      value, hasDigits := 0.0, false;
      ghost var end := SkipDigits(text, cursor);
      ghost var ds := text[cursor..end];
      var c := Peek();
      while '0' <= c <= '9'
        invariant old(cursor) <= cursor <= end && c == At(text, cursor)
        invariant SkipDigits(text, cursor) == end
        invariant hasDigits == (cursor > old(cursor))
        invariant Whole(value, text[cursor..end]) == Whole(0.0, ds)
        decreases |text| - cursor
      {
        assert text[cursor..end][1..] == text[cursor + 1..end];
        value := value * 10.0 + (c as int - '0' as int) as real;
        cursor := cursor + 1;
        hasDigits := true;
        c := Peek();
      }
      assert text[cursor..end] == "";
    }

    /** The digits after the point, each with the weight of its place. */
    method ReadFraction(start: real, any: bool) returns (value: real, hasDigits: bool)
      requires Valid()
      modifies `cursor
      ensures Valid() && cursor == SkipDigits(text, old(cursor))
      ensures hasDigits == (any || cursor > old(cursor))
      ensures value == start + Fraction(text[old(cursor)..cursor])
    {
      hide Fraction;
      hide SkipDigits;
      value, hasDigits := start, any;
      ghost var end := SkipDigits(text, cursor);
      ghost var all := Fraction(text[cursor..end]);
      var frac := 0.1;
      var c := Peek();
      while '0' <= c <= '9'
        invariant old(cursor) <= cursor <= end && c == At(text, cursor)
        invariant SkipDigits(text, cursor) == end
        invariant hasDigits == (any || cursor > old(cursor))
        invariant value + 10.0 * (frac * Fraction(text[cursor..end])) == start + all
        decreases |text| - cursor
      {
        FractionStep(text, cursor, end);
        NextPlace(frac, DigitValue(c), Fraction(text[cursor + 1..end]));
        value := value + (c as int - '0' as int) as real * frac;
        frac := frac * 0.1;
        cursor := cursor + 1;
        hasDigits := true;
        c := Peek();
      }
      assert text[cursor..end] == "" && Fraction("") == 0.0 by { NoFraction(); }
    }

    static lemma NoFraction()
      ensures Fraction("") == 0.0
    {
    }

    static lemma FractionStep(text: string, i: nat, end: nat)
      requires i < end <= |text| && AllDigits(text[i..end])
      ensures AllDigits(text[i + 1..end])
      ensures Fraction(text[i..end]) == (DigitValue(text[i]) + Fraction(text[i + 1..end])) / 10.0
    {
      assert text[i..end][1..] == text[i + 1..end];
    }

    static lemma NextPlace(frac: real, digit: real, rest: real)
      ensures 10.0 * (frac * ((digit + rest) / 10.0)) == digit * frac + 10.0 * ((frac * 0.1) * rest)
    {
      assert frac * ((digit + rest) / 10.0) == (frac * digit + frac * rest) / 10.0;
      assert (frac * 0.1) * rest == (frac * rest) / 10.0;
    }

    method ReadNumber() returns (value: real)
      requires Valid()
      modifies `cursor, `failed
      ensures Valid() && (value, State()) == Number(text, old(State()))
    {
      var hasDigits;
      value, hasDigits := ReadWhole();
      var c := Peek();
      if c == '.' {
        cursor := cursor + 1;
        value, hasDigits := ReadFraction(value, hasDigits);
      }
      if !hasDigits {
        failed := true;
      }
    }

    /** The closing parenthesis, after blanks. */
    method Close()
      requires Valid()
      modifies `cursor, `failed
      ensures Valid()
      ensures var j := SkipBlanks(text, old(cursor));
        State() == if At(text, j) == ')' then old(State()).(cursor := j + 1)
                   else old(State()).(cursor := j, failed := true)
    {
      SkipSpace();
      var c := Peek();
      if c != ')' {
        failed := true;
      } else {
        cursor := cursor + 1;
      }
    }

    method ReadAtom() returns (value: real)
      requires Valid()
      modifies this
      ensures Valid() && (value, State()) == Atom(text, old(State()))
      decreases |text| - cursor, 0
    {
      hide Number;
      hide Expr;
      hide SkipBlanks;
      hide Atom;
      ghost var before := State();
      var ok := Enter();
      if !ok {
        TooDeep(text, before);
        return 0.0;
      }
      SkipSpace();
      var c := Peek();
      if c == '-' {
        AtomOfSign(text, before, cursor);
        cursor := cursor + 1;
        value := ReadAtom();
        value := -value;
      } else if c == '+' {
        AtomOfSign(text, before, cursor);
        cursor := cursor + 1;
        value := ReadAtom();
      } else if c == '(' {
        AtomOfParen(text, before, cursor);
        cursor := cursor + 1;
        value := ReadExpr();
        Close();
      } else {
        AtomOfNumber(text, before, cursor);
        value := ReadNumber();
      }
      depth := depth - 1;
    }

    method ReadTerm() returns (value: real)
      requires Valid()
      modifies this
      ensures Valid() && (value, State()) == Term(text, old(State()))
      decreases |text| - cursor, 1
    {
      hide Atom;
      hide TermRest;
      hide SkipBlanks;
      value := ReadAtom();
      while true
        invariant Valid() && cursor >= old(cursor)
        invariant TermRest(text, value, State()) == Term(text, old(State()))
        decreases |text| - cursor
      {
        ghost var before, v := State(), value;
        SkipSpace();
        var op := Peek();
        if !IsFactorOp(op) {
          TermRestStops(text, v, before, cursor);
          break;
        }
        TermRestGoesOn(text, v, before, cursor);
        cursor := cursor + 1;
        var rhs := ReadAtom();
        if op != '*' && rhs == 0.0 {
          failed := true;
          return 0.0;
        }
        value := Factor(op, value, rhs);
      }
    }

    method ReadExpr() returns (value: real)
      requires Valid()
      modifies this
      ensures Valid() && (value, State()) == Expr(text, old(State()))
      decreases |text| - cursor, 3
    {
      hide Term;
      hide ExprRest;
      hide SkipBlanks;
      value := ReadTerm();
      while true
        invariant Valid() && cursor >= old(cursor)
        invariant ExprRest(text, value, State()) == Expr(text, old(State()))
        decreases |text| - cursor
      {
        ghost var before, v := State(), value;
        SkipSpace();
        var op := Peek();
        if op != '+' && op != '-' {
          ExprRestStops(text, v, before, cursor);
          break;
        }
        ExprRestGoesOn(text, v, before, cursor);
        cursor := cursor + 1;
        var rhs := ReadTerm();
        value := if op == '+' then value + rhs else value - rhs;
      }
    }
  }

  method IsExpr(text: string, needOperator: bool) returns (yes: bool)
    ensures yes == LooksLikeExpr(text, needOperator)
  {
    var digit, operator := false, !needOperator;
    for i := 0 to |text|
      invariant forall k :: 0 <= k < i ==> IsExprChar(text[k])
      invariant digit == exists k :: 0 <= k < i && IsDigit(text[k])
      invariant operator == (needOperator ==> exists k :: 0 <= k < i && IsOperator(text[k]))
    {
      var c := text[i];
      if '0' <= c <= '9' {
        digit := true;
      } else if c == '+' || c == '-' || c == '*' || c == '/' || c == '%' {
        operator := true;
      } else if c != '(' && c != ')' && c != '.' && c != ' ' && c != '\t' {
        return false;
      }
    }
    return digit && operator;
  }

  method Calc(text: string, needOperator: bool) returns (answer: Answer)
    ensures answer == Calculate(text, needOperator)
  {
    var looks := IsExpr(text, needOperator);
    if !looks { return NoAnswer; }
    var parser := new Parser(text);
    var value := parser.ReadExpr();
    parser.SkipSpace();
    if parser.failed || parser.cursor != |text| { return NoAnswer; }
    return Answer(value);
  }
}
