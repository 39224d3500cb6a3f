/** The parser as the program runs it: a cursor moved over a fixed token array. Each method is proved to
    return what the pure grammar returns on the tokens left, and to move the cursor by what it consumed. */
module SqlParser {
  import opened Basics
  import opened SqlNumbers
  import opened SqlTokens
  import opened SqlSyntax

  /** What one turn of the Pratt loop makes of `left` and the tokens after it. */
  function LoopTurn(left: Node, ts: seq<Token>, p: nat): Parse
    requires Extends(ts, p)
  {
    if p <= 3 && Postfix(ts) then ParsePredicate(left, ts, false)
    else if p <= 3 && NegatedPostfix(ts) then ParsePredicate(left, ts[1..], true)
    else
      var op := InfixOp(ts[0]).value;
      var right := ParseExpr(ts[1..], op.Prec() + 1);
      if right.Fail? then right else Ok(Binary(op, left, right.node), right.rest)
  }

  lemma LoopTurns(left: Node, ts: seq<Token>, p: nat)
    requires Extends(ts, p)
    ensures ParseLoop(left, ts, p) ==
            var t := LoopTurn(left, ts, p); if t.Fail? then t else ParseLoop(t.node, t.rest, p)
  {
  }

  class Parser {
    const toks: seq<Token>
    var pos: nat

    constructor (toks: seq<Token>)
      ensures this.toks == toks && pos == 0
    {
      this.toks := toks;
      pos := 0;
    }

    /** The tokens still to be read. */
    ghost function Left(): seq<Token>
      reads this
      requires pos <= |toks|
    {
      toks[pos..]
    }

    ghost predicate Did(before: seq<Token>, spec: Parse, r: Result<Node, Error>)
      reads this
    {
      && pos <= |toks|
      && (r.Success? ==> spec == Ok(r.value, Left()) && |Left()| < |before|)
      && (r.Failure? ==> spec == Fail(r.error))
    }

    ghost predicate DidList(before: seq<Token>, spec: ParseList, r: Result<seq<Node>, Error>)
      reads this
    {
      && pos <= |toks|
      && (r.Success? ==> spec == OkList(r.value, Left()) && |Left()| < |before|)
      && (r.Failure? ==> spec == FailList(r.error))
    }

    method Next() returns (r: Result<Token, Error>)
      requires pos <= |toks|
      modifies this
      ensures pos <= |toks|
      ensures old(Left()) == [] ==> r == Failure(UnexpectedEnd) && pos == old(pos)
      ensures old(Left()) != [] ==> r == Success(old(Left())[0]) && Left() == old(Left())[1..]
    {
      if pos == |toks| {
        return Failure(UnexpectedEnd);
      }
      r := Success(toks[pos]);
      pos := pos + 1;
    }

    method Expr(minPrec: nat) returns (r: Result<Node, Error>)
      requires pos <= |toks|
      modifies this
      ensures Did(old(Left()), ParseExpr(old(Left()), minPrec), r)
      decreases |toks| - pos, 3
    {
      r := Prefix();
      if r.Failure? {
        return;
      }
      var left := r.value;
      while true
        invariant pos <= |toks| && |Left()| < |old(Left())| && r == Success(left)
        invariant ParseExpr(old(Left()), minPrec) == ParseLoop(left, Left(), minPrec)
        decreases |toks| - pos
      {
        ghost var before := Left();
        var more := false;
        more, r := Turn(left, minPrec);
        if more {
          LoopTurns(left, before, minPrec);
        }
        if !more || r.Failure? {
          return;
        }
        left := r.value;
      }
    }

    /** One turn of the loop of `Expr`: wrap `left` in what the next tokens make of it, if anything. */
    method Turn(left: Node, minPrec: nat) returns (more: bool, r: Result<Node, Error>)
      requires pos <= |toks|
      modifies this
      ensures pos <= |toks| && more == Extends(old(Left()), minPrec)
      ensures !more ==> r == Success(left) && Left() == old(Left())
      ensures more ==> Did(old(Left()), LoopTurn(left, old(Left()), minPrec), r)
      decreases |toks| - pos, 2
    {
      if pos == |toks| {
        return false, Success(left);
      }
      var t := toks[pos];
      more := true;
      if 3 >= minPrec && IsPostfix(t, true) {
        r := Predicate(left, false);
      } else if 3 >= minPrec && t.IsWord(NOT) && pos + 1 < |toks| && IsPostfix(toks[pos + 1], false) {
        pos := pos + 1;
        r := Predicate(left, true);
      } else {
        var op := InfixOp(t);
        if op.None? || op.value.Prec() < minPrec {
          return false, Success(left);
        }
        r := Infix(left, op.value);
      }
    }

    /** IN, LIKE and BETWEEN, and IS where it is allowed. */
    static predicate IsPostfix(t: Token, withIs: bool) {
      t.kind.IdentTok? && (t.upper.IN? || t.upper.LIKE? || t.upper.BETWEEN? || (withIs && t.upper.IS?))
    }

    method Infix(left: Node, op: BinOp) returns (r: Result<Node, Error>)
      requires pos < |toks|
      modifies this
      ensures var right := ParseExpr(old(Left())[1..], op.Prec() + 1);
              Did(old(Left()), if right.Fail? then right else Ok(Binary(op, left, right.node), right.rest), r)
      decreases |toks| - pos, 1
    {
      pos := pos + 1;
      r := Expr(op.Prec() + 1);
      if r.Success? {
        r := Success(Binary(op, left, r.value));
      }
    }

    method Predicate(left: Node, negate: bool) returns (r: Result<Node, Error>)
      requires pos < |toks|
      modifies this
      ensures Did(old(Left()), ParsePredicate(left, old(Left()), negate), r)
      decreases |toks| - pos, 1
    {
      var kw := toks[pos].upper;
      pos := pos + 1;
      if kw.IN? {
        r := InList(left, negate);
      } else if kw.LIKE? {
        r := Expr(4);
        if r.Success? {
          r := Success(Like(left, r.value, negate));
        }
      } else if kw.BETWEEN? {
        r := Bounds(left, negate);
      } else {
        r := NullTest(left);
      }
    }

    /** After IS. */
    method NullTest(left: Node) returns (r: Result<Node, Error>)
      requires pos <= |toks|
      modifies this
      ensures Did(old(Left()), ParseIsNull(left, old(Left())), r)
    {
      var negated := pos < |toks| && toks[pos].IsWord(NOT);
      if negated {
        pos := pos + 1;
      }
      if pos == |toks| || !toks[pos].IsWord(NULL) {
        return Failure(Expected("NULL"));
      }
      pos := pos + 1;
      r := Success(IsNull(left, negated));
    }

    method InList(left: Node, negate: bool) returns (r: Result<Node, Error>)
      requires 0 < pos <= |toks| && toks[pos - 1].upper.IN?
      modifies this
      ensures Did(toks[old(pos) - 1..], ParsePredicate(left, toks[old(pos) - 1..], negate), r)
      decreases |toks| - pos, 8
    {
      var open := Next();
      if open.Failure? {
        return Failure(open.error);
      }
      if !open.value.mark.LParen? {
        return Failure(Expected("( after IN"));
      }
      var list := Items();
      r := if list.Success? then Success(In(left, list.value, negate)) else Failure(list.error);
    }

    method Bounds(left: Node, negate: bool) returns (r: Result<Node, Error>)
      requires pos <= |toks|
      modifies this
      ensures Did(old(Left()), ParseBetween(left, old(Left()), negate), r)
      decreases |toks| - pos, 5
    {
      var low := Expr(4);
      if low.Failure? {
        return low;
      }
      if pos == |toks| || !toks[pos].IsWord(AND) {
        return Failure(Expected("AND"));
      }
      pos := pos + 1;
      var high := Expr(4);
      if high.Failure? {
        return high;
      }
      r := Success(Between(left, low.value, high.value, negate));
    }

    /** The items of a list and its closing parenthesis. */
    method Items() returns (r: Result<seq<Node>, Error>)
      requires pos <= |toks|
      modifies this
      ensures DidList(old(Left()), ParseItems(old(Left())), r)
      decreases |toks| - pos, 6
    {
      var list: seq<Node> := [];
      if !(pos < |toks| && toks[pos].mark.RParen?) {
        var first := Expr(0);
        if first.Failure? {
          return Failure(first.error);
        }
        list := [first.value];
        while pos < |toks| && toks[pos].mark.Comma?
          invariant pos <= |toks| && |Left()| < |old(Left())|
          invariant ParseItems(old(Left())) == ParseMore(list, Left())
          decreases |toks| - pos
        {
          pos := pos + 1;
          var item := Expr(0);
          if item.Failure? {
            return Failure(item.error);
          }
          list := list + [item.value];
        }
      }
      if pos == |toks| {
        return Failure(UnexpectedEnd);
      }
      if !toks[pos].mark.RParen? {
        return Failure(Expected(")"));
      }
      pos := pos + 1;
      r := Success(list);
    }

    method Prefix() returns (r: Result<Node, Error>)
      requires pos <= |toks|
      modifies this
      ensures Did(old(Left()), ParsePrefix(old(Left())), r)
      decreases |toks| - pos, 2
    {
      if pos < |toks| && toks[pos].IsWord(NOT) {
        pos := pos + 1;
        r := Expr(3);
        if r.Success? {
          r := Success(Not(r.value));
        }
      } else {
        r := Unary();
      }
    }

    method Unary() returns (r: Result<Node, Error>)
      requires pos <= |toks|
      modifies this
      ensures Did(old(Left()), ParseUnary(old(Left())), r)
      decreases |toks| - pos, 1
    {
      if pos < |toks| && toks[pos].kind == OpTok(Sub) {
        pos := pos + 1;
        r := Unary();
        if r.Success? {
          r := Success(Neg(r.value));
        }
      } else {
        r := Primary();
      }
    }

    method Primary() returns (r: Result<Node, Error>)
      requires pos <= |toks|
      modifies this
      ensures Did(old(Left()), ParsePrimary(old(Left())), r)
      decreases |toks| - pos, 0
    {
      var next := Next();
      if next.Failure? {
        return Failure(next.error);
      }
      var t := next.value;
      if t.kind.NumTok? {
        var n := JsNumber(t.value);
        r := if n.None? then Failure(BadNumber(t.value)) else Success(Num(n.value));
      } else if t.kind.StrTok? {
        r := Success(Str(t.value));
      } else if t.kind == OpTok(Mul) {
        r := Success(Star);
      } else if t.mark.LParen? {
        r := Group();
      } else if !t.kind.IdentTok? {
        r := Failure(UnexpectedToken(t.value));
      } else if t.upper.INTERVAL? {
        r := IntervalLiteral();
      } else if pos < |toks| && toks[pos].mark.LParen? {
        pos := pos + 1;
        r := Call(t.value);
      } else {
        r := Success(Col(t.value));
      }
    }

    method Group() returns (r: Result<Node, Error>)
      requires pos <= |toks|
      modifies this
      ensures Did(old(Left()), ParseGroup(old(Left())), r)
      decreases |toks| - pos, 5
    {
      r := Expr(0);
      if r.Failure? {
        return;
      }
      var close := Next();
      if close.Failure? {
        return Failure(close.error);
      }
      if !close.value.mark.RParen? {
        return Failure(Expected(")"));
      }
    }

    method IntervalLiteral() returns (r: Result<Node, Error>)
      requires pos <= |toks|
      modifies this
      ensures Did(old(Left()), ParseInterval(old(Left())), r)
    {
      var amountTok := Next();
      if amountTok.Failure? {
        return Failure(amountTok.error);
      }
      var amount := JsNumber(amountTok.value.value);
      if amount.None? {
        return Failure(BadInterval(amountTok.value.value));
      }
      var unit := Next();
      if unit.Failure? {
        return Failure(unit.error);
      }
      if !unit.value.upper.Unit? {
        return Failure(BadInterval(unit.value.value));
      }
      r := Success(Interval(Times(amount.value, unit.value.upper.seconds)));
    }

    /** After the name and the first opening parenthesis of a call. */
    method Call(name: string) returns (r: Result<Node, Error>)
      requires pos <= |toks|
      modifies this
      ensures Did(old(Left()), ParseCall(name, old(Left())), r)
      decreases |toks| - pos, 8
    {
      var distinct := pos < |toks| && toks[pos].IsWord(DISTINCT);
      var first := Args();
      if first.Failure? {
        return Failure(first.error);
      }
      if pos < |toks| && toks[pos].mark.LParen? {
        pos := pos + 1;
        var second := Args();
        r := if second.Failure? then Failure(second.error)
             else Success(Func(name, second.value, WithParams(first.value), false));
      } else {
        r := Success(Func(name, first.value, NoParams, distinct));
      }
    }

    method Args() returns (r: Result<seq<Node>, Error>)
      requires pos <= |toks|
      modifies this
      ensures DidList(old(Left()), ParseArgs(old(Left())), r)
      decreases |toks| - pos, 7
    {
      if pos < |toks| && toks[pos].IsWord(DISTINCT) {
        pos := pos + 1;
      }
      r := Items();
    }
  }
}
