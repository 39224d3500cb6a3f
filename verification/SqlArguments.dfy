/** Which printed lists the parser loses: a count of tokens that no reading of a tree can fall below. */
module SqlArguments {
  import opened Basics
  import opened SqlNumbers
  import opened SqlTokens
  import opened SqlSyntax
  import opened SqlGrammar
  import opened SqlParserComplete
  import opened SqlParserSound
  import opened SqlPrinter

  // ---- How many tokens a tree needs, brackets and commas aside ----

  /** Its two matching keys agree on whether it is a bracket or comma. */
  predicate Honest(t: Token) {
    t.mark == MarkOf(t.value)
  }

  predicate AllHonest(ts: seq<Token>) {
    forall t :: t in ts ==> Honest(t)
  }

  function Weight(ts: seq<Token>): nat {
    if ts == [] then 0 else (if ts[0].mark.NoMark? then 1 else 0) + Weight(ts[1..])
  }

  lemma {:induction false} WeightCat(a: seq<Token>, b: seq<Token>)
    ensures Weight(a + b) == Weight(a) + Weight(b)
  {
    if a == [] {
      assert a + b == b;
    } else {
      assert (a + b)[1..] == a[1..] + b;
      WeightCat(a[1..], b);
    }
  }

  function Named(name: string): nat {
    if MarkOf(name).NoMark? then 1 else 0
  }

  function Flag(b: bool): nat {
    if b then 1 else 0
  }

  /** Its names, literals, operators and keywords. */
  function Needs(e: Node): nat
    decreases e, 0
  {
    match e
    case Num(_) => 1
    case Str(text) => Named(text)
    case Col(name) => Named(name)
    case Star => 1
    case Func(name, args, params, distinct) =>
      Named(name) + NeedsList(args) + Flag(distinct) + if params.WithParams? then NeedsList(params.list) else 0
    case Interval(_) => 3
    case Binary(_, l, r) => Needs(l) + 1 + Needs(r)
    case Neg(x) => 1 + Needs(x)
    case Not(x) => 1 + Needs(x)
    case In(x, list, negate) => Needs(x) + Flag(negate) + 1 + NeedsList(list)
    case Like(x, pat, negate) => Needs(x) + Flag(negate) + 1 + Needs(pat)
    case Between(x, low, high, negate) => Needs(x) + Flag(negate) + 2 + Needs(low) + Needs(high)
    case IsNull(x, negate) => Needs(x) + Flag(negate) + 2
  }

  function NeedsList(list: seq<Node>): nat
    decreases list, 1
  {
    if list == [] then 0 else Needs(list[0]) + NeedsList(list[1..])
  }

  lemma NumberIsNoMark(s: string)
    requires JsNumber(s).Some?
    ensures MarkOf(s).NoMark?
  {
    assert Trim("(") == "(" && Trim(")") == ")" && Trim(",") == ",";
    assert DigitRun("(") == 0 && DigitRun(")") == 0 && DigitRun(",") == 0;
  }

  /** Honest tokens, at least `n` of them neither brackets nor commas. */
  predicate Enough(ts: seq<Token>, n: nat) {
    AllHonest(ts) ==> Weight(ts) >= n
  }

  lemma EnoughCat(a: seq<Token>, m: nat, b: seq<Token>, n: nat)
    requires Enough(a, m) && Enough(b, n)
    ensures Enough(a + b, m + n)
  {
    WeightCat(a, b);
    assert AllHonest(a + b) ==> AllHonest(a) && AllHonest(b) by {
      assert forall t :: t in a || t in b ==> t in a + b;
    }
  }

  lemma EnoughOne(t: Token)
    ensures Enough([t], Named(t.value)) && (t.mark.NoMark? ==> Enough([t], 1))
  {
    assert t in [t];
  }

  lemma EnoughWrap(a: SArgs, items: seq<Token>, n: nat)
    requires ArgsShape(a) && Enough(items, n)
    ensures Enough(Wrap(a, items), Flag(a.distinct != []) + n)
  {
    if a.distinct != [] {
      EnoughOne(a.distinct[0]);
    }
    assert Enough(a.distinct, Flag(a.distinct != []));
    EnoughCat(items, n, [a.close], 0);
    EnoughCat(a.distinct, Flag(a.distinct != []), items + [a.close], n);
    EnoughCat([a.open], 0, a.distinct + (items + [a.close]), Flag(a.distinct != []) + n);
  }

  lemma EnoughTail(l: seq<Token>, m: nat, no: seq<Token>, kw: Token, r: seq<Token>, n: nat)
    requires Enough(l, m) && Enough(r, n) && NoToks(no) && kw.mark.NoMark?
    ensures Enough(l + (no + ([kw] + r)), m + (Flag(no != []) + (1 + n)))
  {
    if no != [] {
      EnoughOne(no[0]);
    }
    assert Enough(no, Flag(no != []));
    EnoughOne(kw);
    EnoughCat([kw], 1, r, n);
    EnoughCat(no, Flag(no != []), [kw] + r, 1 + n);
    EnoughCat(l, m, no + ([kw] + r), Flag(no != []) + (1 + n));
  }

  lemma EnoughParen(open: Token, inner: seq<Token>, n: nat, close: Token)
    requires Enough(inner, n)
    ensures Enough([open] + (inner + [close]), n)
  {
    EnoughCat(inner, n, [close], 0);
    EnoughCat([open], 0, inner + [close], n);
  }

  lemma EnoughPrefix(t: Token, x: seq<Token>, n: nat)
    requires Enough(x, n) && t.mark.NoMark?
    ensures Enough([t] + x, 1 + n)
  {
    EnoughOne(t);
    EnoughCat([t], 1, x, n);
  }

  lemma EnoughInfix(l: seq<Token>, m: nat, t: Token, r: seq<Token>, n: nat)
    requires Enough(l, m) && Enough(r, n) && t.mark.NoMark?
    ensures Enough(l + ([t] + r), m + 1 + n)
  {
    EnoughPrefix(t, r, n);
    EnoughCat(l, m, [t] + r, 1 + n);
  }

  /** However a tree is read, it takes at least the tokens it needs. */
  predicate Costs(s: Syn) {
    WF(s) ==> Enough(Toks(s), Needs(Strip(s)))
  }

  predicate CostsItems(l: SItems) {
    WFItems(l) ==> Enough(ToksItems(l), NeedsList(StripItems(l)))
  }

  lemma LeafCosts(s: Syn)
    requires s.SNum? || s.SStr? || s.SStar? || s.SCol?
    ensures Costs(s)
  {
    EnoughOne(s.tok);
  }

  lemma IntervalCosts(s: Syn)
    requires s.SInterval?
    ensures Costs(s)
  {
    if WF(s) {
      NumberIsNoMark(s.amount.value);
      EnoughOne(s.kw);
      EnoughOne(s.amount);
      EnoughOne(s.unit);
      EnoughCat([s.amount], 1, [s.unit], 1);
      EnoughCat([s.kw], 1, [s.amount] + [s.unit], 2);
      assert Toks(s) == [s.kw] + ([s.amount] + [s.unit]);
    }
  }

  lemma ParenCosts(s: Syn)
    requires s.SParen? && Costs(s.inner)
    ensures Costs(s)
  {
    if WF(s) {
      EnoughParen(s.open, Toks(s.inner), Needs(Strip(s.inner)), s.close);
    }
  }

  lemma PrefixCosts(s: Syn)
    requires (s.SNeg? || s.SNot?) && Costs(s.operand)
    ensures Costs(s)
  {
    if WF(s) {
      EnoughPrefix(s.tok, Toks(s.operand), Needs(Strip(s.operand)));
    }
  }

  lemma InfixCosts(s: Syn)
    requires s.SBin? && Costs(s.left) && Costs(s.right)
    ensures Costs(s)
  {
    if WF(s) {
      EnoughInfix(Toks(s.left), Needs(Strip(s.left)), s.tok, Toks(s.right), Needs(Strip(s.right)));
    }
  }

  lemma CallCosts(s: Syn)
    requires s.SCall? && CostsItems(s.args.items)
    ensures Costs(s)
  {
    if WF(s) {
      var n := NeedsList(StripItems(s.args.items));
      EnoughOne(s.name);
      EnoughWrap(s.args, ToksItems(s.args.items), n);
      EnoughCat([s.name], Named(s.name.value), Wrap(s.args, ToksItems(s.args.items)), Flag(s.args.distinct != []) + n);
    }
  }

  lemma ParamCallCosts(s: Syn)
    requires s.SParamCall? && CostsItems(s.params.items) && CostsItems(s.args.items)
    ensures Costs(s)
  {
    if WF(s) {
      var m, n := NeedsList(StripItems(s.params.items)), NeedsList(StripItems(s.args.items));
      EnoughOne(s.name);
      EnoughWrap(s.params, ToksItems(s.params.items), m);
      EnoughWrap(s.args, ToksItems(s.args.items), n);
      EnoughCat(Wrap(s.params, ToksItems(s.params.items)), m, Wrap(s.args, ToksItems(s.args.items)), n);
      EnoughCat([s.name], Named(s.name.value),
                Wrap(s.params, ToksItems(s.params.items)) + Wrap(s.args, ToksItems(s.args.items)), m + n);
    }
  }

  lemma InCosts(s: Syn)
    requires s.SIn? && Costs(s.left) && CostsItems(s.args.items)
    ensures Costs(s)
  {
    if WF(s) {
      var n := NeedsList(StripItems(s.args.items));
      EnoughWrap(s.args, ToksItems(s.args.items), n);
      EnoughTail(Toks(s.left), Needs(Strip(s.left)), s.no, s.kw, Wrap(s.args, ToksItems(s.args.items)), n);
    }
  }

  lemma LikeCosts(s: Syn)
    requires s.SLike? && Costs(s.left) && Costs(s.right)
    ensures Costs(s)
  {
    if WF(s) {
      EnoughTail(Toks(s.left), Needs(Strip(s.left)), s.no, s.kw, Toks(s.right), Needs(Strip(s.right)));
    }
  }

  lemma BetweenCosts(s: Syn)
    requires s.SBetween? && Costs(s.left) && Costs(s.low) && Costs(s.right)
    ensures Costs(s)
  {
    if WF(s) {
      assert Strip(s) == Between(Strip(s.left), Strip(s.low), Strip(s.right), s.no != []);
      BoundsEnough(s, Needs(Strip(s.left)), Needs(Strip(s.low)), Needs(Strip(s.right)));
    }
  }

  lemma BoundsEnough(s: Syn, m: nat, n: nat, k: nat)
    requires s.SBetween? && s.kw.mark.NoMark? && NoToks(s.no) && s.mid.mark.NoMark?
    requires Enough(Toks(s.left), m) && Enough(Toks(s.low), n) && Enough(Toks(s.right), k)
    ensures Enough(Toks(s), m + Flag(s.no != []) + 2 + n + k)
  {
    EnoughInfix(Toks(s.low), n, s.mid, Toks(s.right), k);
    EnoughTail(Toks(s.left), m, s.no, s.kw, Toks(s.low) + ([s.mid] + Toks(s.right)), n + 1 + k);
  }

  lemma EnoughNull(left: seq<Token>, m: nat, kw: Token, no: seq<Token>, null_: Token)
    requires Enough(left, m) && kw.mark.NoMark? && NoToks(no) && null_.mark.NoMark?
    ensures Enough(left + ([kw] + (no + [null_])), m + Flag(no != []) + 2)
  {
    if no != [] {
      EnoughOne(no[0]);
    }
    assert Enough(no, Flag(no != []));
    EnoughOne(null_);
    EnoughCat(no, Flag(no != []), [null_], 1);
    EnoughInfix(left, m, kw, no + [null_], Flag(no != []) + 1);
  }

  lemma IsNullCosts(s: Syn)
    requires s.SIsNull? && Costs(s.left)
    ensures Costs(s)
  {
    if WF(s) {
      assert Strip(s) == IsNull(Strip(s.left), s.no != []);
      EnoughNull(Toks(s.left), Needs(Strip(s.left)), s.kw, s.no, s.null_);
    }
  }

  lemma {:induction false} NeedsAtLeast(s: Syn)
    ensures Costs(s)
    decreases s
  {
    match s
    case SInterval(_, _, _) => IntervalCosts(s);
    case SCall(_, args) =>
      ItemsAtLeast(args.items);
      CallCosts(s);
    case SParamCall(_, params, args) =>
      ItemsAtLeast(params.items);
      ItemsAtLeast(args.items);
      ParamCallCosts(s);
    case SParen(_, inner, _) =>
      NeedsAtLeast(inner);
      ParenCosts(s);
    case SNeg(_, x) =>
      NeedsAtLeast(x);
      PrefixCosts(s);
    case SNot(_, x) =>
      NeedsAtLeast(x);
      PrefixCosts(s);
    case SBin(l, _, r) =>
      NeedsAtLeast(l);
      NeedsAtLeast(r);
      InfixCosts(s);
    case SIn(l, _, _, args) =>
      NeedsAtLeast(l);
      ItemsAtLeast(args.items);
      InCosts(s);
    case SLike(l, _, _, r) =>
      NeedsAtLeast(l);
      NeedsAtLeast(r);
      LikeCosts(s);
    case SBetween(l, _, _, low, _, r) =>
      NeedsAtLeast(l);
      NeedsAtLeast(low);
      NeedsAtLeast(r);
      BetweenCosts(s);
    case SIsNull(l, _, _, _) =>
      NeedsAtLeast(l);
      IsNullCosts(s);
    case _ => LeafCosts(s);
  }

  lemma {:induction false} ItemsAtLeast(l: SItems)
    ensures CostsItems(l)
    decreases l
  {
    if l.SMore? {
      NeedsAtLeast(l.head);
      ItemsAtLeast(l.tail);
      if WFItems(l) {
        EnoughCat(Toks(l.head), Needs(Strip(l.head)), ToksItems(l.tail), NeedsList(StripItems(l.tail)));
        EnoughCat(l.sep, 0, Toks(l.head) + ToksItems(l.tail), Needs(Strip(l.head)) + NeedsList(StripItems(l.tail)));
        assert StripItems(l)[1..] == StripItems(l.tail);
      }
    }
  }

  // ---- The printer uses no more ----

  /** What the printer produces: honest tokens, as few as the tree needs. */
  predicate Spare(ts: seq<Token>, n: nat) {
    AllHonest(ts) && Weight(ts) == n
  }

  lemma SpareCat(a: seq<Token>, m: nat, b: seq<Token>, n: nat)
    requires Spare(a, m) && Spare(b, n)
    ensures Spare(a + b, m + n)
  {
    WeightCat(a, b);
  }

  lemma SpareOne(t: Token)
    requires Honest(t)
    ensures Spare([t], Named(t.value))
  {
  }

  lemma SparePrefix(t: Token, x: seq<Token>, n: nat)
    requires Spare(x, n) && Honest(t) && Named(t.value) == 1
    ensures Spare([t] + x, 1 + n)
  {
    SpareOne(t);
    SpareCat([t], 1, x, n);
  }

  lemma SpareInfix(l: seq<Token>, m: nat, t: Token, r: seq<Token>, n: nat)
    requires Spare(l, m) && Spare(r, n) && Honest(t) && Named(t.value) == 1
    ensures Spare(l + ([t] + r), m + 1 + n)
  {
    SpareOne(t);
    SpareCat([t], 1, r, n);
    SpareCat(l, m, [t] + r, 1 + n);
  }

  lemma SpareParen(inner: seq<Token>, n: nat)
    requires Spare(inner, n)
    ensures Spare([OPEN] + (inner + [CLOSE]), n)
  {
    SpareCat(inner, n, [CLOSE], 0);
    SpareCat([OPEN], 0, inner + [CLOSE], n);
  }

  lemma KwHonest(w: Word)
    ensures Honest(KwToken(w)) && Named(KwToken(w).value) == 1
  {
  }

  lemma OpHonest(op: BinOp)
    ensures Honest(InfixToken(op)) && Named(InfixToken(op).value) == 1
  {
  }

  /** The printed tree takes no more than it needs. */
  predicate Saves(e: Node, p: nat) {
    Printable(e) ==> Spare(Toks(Unparse(e, p)), Needs(e))
  }

  predicate SavesBare(e: Node) {
    Printable(e) ==> Spare(Toks(Bare(e)), Needs(e))
  }

  predicate SavesList(list: seq<Node>, distinct: seq<Token>) {
    var a := UnparseList(list, distinct);
    (forall x :: x in list ==> Printable(x)) ==>
      Spare(Wrap(a, ToksItems(a.items)), Flag(distinct != []) + NeedsList(list))
  }

  predicate SavesTail(list: seq<Node>) {
    (forall x :: x in list ==> Printable(x)) ==> Spare(ToksItems(UnparseTail(list)), NeedsList(list))
  }

  lemma LeafSaves(e: Node)
    requires e.Num? || e.Str? || e.Col? || e.Star?
    ensures SavesBare(e)
  {
    if Printable(e) {
      if e.Num? {
        DecimalRoundTrip(e.value);
        NumberIsNoMark(DecimalText(e.value));
      }
      OpHonest(Mul);
      SpareOne(Bare(e).tok);
    }
  }

  lemma IntervalSaves(e: Node)
    requires e.Interval?
    ensures SavesBare(e)
  {
    if Printable(e) {
      var kw, amount, unit := KwToken(INTERVAL), MakeToken(StrTok, SignedText(e.seconds)), KwToken(Unit(1));
      SignedRoundTrip(e.seconds);
      NumberIsNoMark(amount.value);
      KwHonest(INTERVAL);
      KwHonest(Unit(1));
      SpareThree(kw, amount, unit);
    }
  }

  lemma SpareThree(a: Token, b: Token, c: Token)
    requires Honest(a) && Honest(b) && Honest(c) && Named(a.value) == Named(b.value) == Named(c.value) == 1
    ensures Spare([a, b, c], 3)
  {
    SpareOne(a);
    SpareOne(b);
    SpareOne(c);
    SpareCat([b], 1, [c], 1);
    SpareCat([a], 1, [b] + [c], 2);
    assert [a, b, c] == [a] + ([b] + [c]);
  }

  lemma InfixSaves(e: Node)
    requires e.Binary? && Saves(e.left, e.op.Prec()) && Saves(e.right, e.op.Prec() + 1)
    ensures SavesBare(e)
  {
    var Binary(op, l, r) := e;
    if Printable(e) {
      OpHonest(op);
      SpareInfix(Toks(Unparse(l, op.Prec())), Needs(l), InfixToken(op), Toks(Unparse(r, op.Prec() + 1)), Needs(r));
    }
  }

  lemma NegSaves(e: Node)
    requires e.Neg? && Saves(e.operand, 9)
    ensures SavesBare(e)
  {
    if Printable(e) {
      var x := Unparse(e.operand, 9);
      assert Bare(e) == SNeg(OpToken(Sub), x);
      OpHonest(Sub);
      SparePrefix(OpToken(Sub), Toks(x), Needs(e.operand));
    }
  }

  lemma NotSaves(e: Node)
    requires e.Not? && Saves(e.operand, 3)
    ensures SavesBare(e)
  {
    if Printable(e) {
      var x := Unparse(e.operand, 3);
      assert Bare(e) == SNot(KwToken(NOT), x);
      KwHonest(NOT);
      SparePrefix(KwToken(NOT), Toks(x), Needs(e.operand));
    }
  }

  lemma NotSpare(negate: bool)
    ensures Spare(NotTokens(negate), Flag(negate))
  {
    KwHonest(NOT);
  }

  /** A predicate's tokens, from those of its parts. */
  lemma TailSpare(l: seq<Token>, m: nat, negate: bool, w: Word, r: seq<Token>, n: nat)
    requires Spare(l, m) && Spare(r, n)
    ensures Spare(l + (NotTokens(negate) + ([KwToken(w)] + r)), m + Flag(negate) + 1 + n)
  {
    KwHonest(w);
    NotSpare(negate);
    SpareInfix(NotTokens(negate), Flag(negate), KwToken(w), r, n);
    SpareCat(l, m, NotTokens(negate) + ([KwToken(w)] + r), Flag(negate) + 1 + n);
  }

  lemma InSaves(e: Node)
    requires e.In? && Saves(e.expr, 3) && SavesList(e.list, [])
    ensures SavesBare(e)
  {
    if Printable(e) {
      var x, a := Unparse(e.expr, 3), UnparseList(e.list, []);
      InSpare(x, Needs(e.expr), e.negate, a, NeedsList(e.list));
      assert Bare(e) == SIn(x, NotTokens(e.negate), KwToken(IN), a);
    }
  }

  lemma InSpare(x: Syn, m: nat, negate: bool, a: SArgs, n: nat)
    requires Spare(Toks(x), m) && Spare(Wrap(a, ToksItems(a.items)), n)
    ensures Spare(Toks(SIn(x, NotTokens(negate), KwToken(IN), a)), m + Flag(negate) + 1 + n)
  {
    TailSpare(Toks(x), m, negate, IN, Wrap(a, ToksItems(a.items)), n);
  }

  lemma LikeSaves(e: Node)
    requires e.Like? && Saves(e.expr, 3) && Saves(e.pattern, 4)
    ensures SavesBare(e)
  {
    if Printable(e) {
      var x, pat := Unparse(e.expr, 3), Unparse(e.pattern, 4);
      assert Bare(e) == SLike(x, NotTokens(e.negate), KwToken(LIKE), pat);
      TailSpare(Toks(x), Needs(e.expr), e.negate, LIKE, Toks(pat), Needs(e.pattern));
    }
  }

  lemma BetweenSaves(e: Node)
    requires e.Between? && Saves(e.expr, 3) && Saves(e.low, 4) && Saves(e.high, 4)
    ensures SavesBare(e)
  {
    if Printable(e) {
      var x, low, high := Unparse(e.expr, 3), Unparse(e.low, 4), Unparse(e.high, 4);
      assert Bare(e) == SBetween(x, NotTokens(e.negate), KwToken(BETWEEN), low, KwToken(AND), high);
      BoundsSpare(Toks(x), Needs(e.expr), e.negate, Toks(low), Needs(e.low), Toks(high), Needs(e.high));
    }
  }

  lemma BoundsSpare(l: seq<Token>, m: nat, negate: bool, low: seq<Token>, n: nat, high: seq<Token>, k: nat)
    requires Spare(l, m) && Spare(low, n) && Spare(high, k)
    ensures Spare(l + (NotTokens(negate) + ([KwToken(BETWEEN)] + (low + ([KwToken(AND)] + high)))),
                  m + Flag(negate) + 2 + n + k)
  {
    KwHonest(AND);
    SpareInfix(low, n, KwToken(AND), high, k);
    TailSpare(l, m, negate, BETWEEN, low + ([KwToken(AND)] + high), n + 1 + k);
  }

  lemma IsNullSaves(e: Node)
    requires e.IsNull? && Saves(e.expr, 3)
    ensures SavesBare(e)
  {
    if Printable(e) {
      KwHonest(NULL);
      KwHonest(IS);
      NotSpare(e.negate);
      SpareOne(KwToken(NULL));
      SpareCat(NotTokens(e.negate), Flag(e.negate), [KwToken(NULL)], 1);
      SpareInfix(Toks(Unparse(e.expr, 3)), Needs(e.expr), KwToken(IS), NotTokens(e.negate) + [KwToken(NULL)],
                 Flag(e.negate) + 1);
    }
  }

  lemma FuncSaves(e: Node)
    requires e.Func? && SavesList(e.args, if e.distinct then [KwToken(DISTINCT)] else [])
    requires e.params.WithParams? ==> SavesList(e.params.list, [])
    ensures SavesBare(e)
  {
    var Func(name, args, params, distinct) := e;
    if Printable(e) {
      var a := UnparseList(args, if distinct then [KwToken(DISTINCT)] else []);
      var last := Wrap(a, ToksItems(a.items));
      var t := MakeToken(IdentTok, name);
      SpareOne(t);
      if params.NoParams? {
        SpareCat([t], Named(name), last, Flag(distinct) + NeedsList(args));
      } else {
        var b := UnparseList(params.list, []);
        var first := Wrap(b, ToksItems(b.items));
        SpareCat(first, NeedsList(params.list), last, NeedsList(args));
        SpareCat([t], Named(name), first + last, NeedsList(params.list) + NeedsList(args));
      }
    }
  }

  lemma EitherSpare(s: Syn, t: Syn, n: nat)
    requires Spare(Toks(s), n) && (t == s || t == SParen(OPEN, s, CLOSE))
    ensures Spare(Toks(t), n)
  {
    SpareParen(Toks(s), n);
  }

  lemma {:induction false} UnparseSaves(e: Node, p: nat)
    ensures Saves(e, p)
    decreases e, 2
  {
    BareSaves(e);
    if Printable(e) {
      EitherSpare(Bare(e), Unparse(e, p), Needs(e));
    }
  }

  lemma {:induction false} BareSaves(e: Node)
    ensures SavesBare(e)
    decreases e, 1
  {
    match e
    case Interval(_) => IntervalSaves(e);
    case Binary(op, l, r) =>
      UnparseSaves(l, op.Prec());
      UnparseSaves(r, op.Prec() + 1);
      InfixSaves(e);
    case Neg(x) =>
      UnparseSaves(x, 9);
      NegSaves(e);
    case Not(x) =>
      UnparseSaves(x, 3);
      NotSaves(e);
    case In(x, list, _) =>
      UnparseSaves(x, 3);
      ListSaves(list, []);
      InSaves(e);
    case Like(x, pat, _) =>
      UnparseSaves(x, 3);
      UnparseSaves(pat, 4);
      LikeSaves(e);
    case Between(x, low, high, _) =>
      UnparseSaves(x, 3);
      UnparseSaves(low, 4);
      UnparseSaves(high, 4);
      BetweenSaves(e);
    case IsNull(x, _) =>
      UnparseSaves(x, 3);
      IsNullSaves(e);
    case Func(_, args, params, distinct) =>
      ListSaves(args, if distinct then [KwToken(DISTINCT)] else []);
      if params.WithParams? {
        ListSaves(params.list, []);
      }
      FuncSaves(e);
    case _ => LeafSaves(e);
  }

  lemma {:induction false} ListSaves(list: seq<Node>, distinct: seq<Token>)
    requires distinct == [] || distinct == [KwToken(DISTINCT)]
    ensures SavesList(list, distinct)
    decreases list, 4
  {
    if list != [] {
      UnparseSaves(list[0], 0);
      TailSaves(list[1..]);
    }
    if forall x :: x in list ==> Printable(x) {
      var a := UnparseList(list, distinct);
      var items := ToksItems(a.items);
      if list != [] {
        GuardedSpare(Unparse(list[0], 0), Needs(list[0]));
        SpareCat(Toks(a.items.head), Needs(list[0]), ToksItems(a.items.tail), NeedsList(list[1..]));
        assert items == Toks(a.items.head) + ToksItems(a.items.tail);
      }
      KwHonest(DISTINCT);
      SpareWrap(distinct, items, NeedsList(list));
    }
  }

  lemma SpareWrap(distinct: seq<Token>, items: seq<Token>, n: nat)
    requires Spare(items, n) && (distinct == [] || distinct == [KwToken(DISTINCT)])
    ensures Spare([OPEN] + (distinct + (items + [CLOSE])), Flag(distinct != []) + n)
  {
    KwHonest(DISTINCT);
    SpareOne(KwToken(DISTINCT));
    SpareCat(items, n, [CLOSE], 0);
    SpareCat(distinct, Flag(distinct != []), items + [CLOSE], n);
    SpareCat([OPEN], 0, distinct + (items + [CLOSE]), Flag(distinct != []) + n);
  }

  lemma GuardedSpare(s: Syn, n: nat)
    requires Spare(Toks(s), n)
    ensures Spare(Toks(Guarded(s)), n)
  {
    EitherSpare(s, Guarded(s), n);
  }

  lemma {:induction false} TailSaves(list: seq<Node>)
    ensures SavesTail(list)
    decreases list, 3
  {
    if list != [] {
      UnparseSaves(list[0], 0);
      TailSaves(list[1..]);
      if forall x :: x in list ==> Printable(x) {
        var head, tail := Toks(Unparse(list[0], 0)), ToksItems(UnparseTail(list[1..]));
        SpareCat(head, Needs(list[0]), tail, NeedsList(list[1..]));
        SpareCat([COMMA], 0, head + tail, NeedsList(list));
      }
    }
  }

  // ---- Lists ----

  /** The tokens of a list after its opening parenthesis, its first item not guarded. */
  function Bracketed(list: seq<Node>): seq<Token>
    requires |list| > 0
  {
    Toks(Unparse(list[0], 0)) + (ToksItems(UnparseTail(list[1..])) + [CLOSE])
  }

  /** No list can be read out of fewer tokens than it needs. */
  lemma TooFewTokens(list: seq<Node>, ts: seq<Token>, rest: seq<Token>)
    requires AllHonest(ts) && Weight(ts) < NeedsList(list)
    ensures ParseItems(ts + rest) != OkList(list, rest)
  {
    if ParseItems(ts + rest) == OkList(list, rest) {
      var a := SoundItems(OPEN, ts + rest);
      var items := ToksItems(a.items);
      assert ts + rest == (items + [a.close]) + rest;
      assert ts == items + [a.close] by {
        assert |ts| == |items + [a.close]|;
        assert (ts + rest)[..|ts|] == ts && ((items + [a.close]) + rest)[..|ts|] == items + [a.close];
      }
      assert forall t :: t in items ==> t in ts;
      ItemsAtLeast(a.items);
      WeightCat(items, [a.close]);
    }
  }

  /** An argument list reads back as itself exactly when its first token spells neither the closer nor DISTINCT, be it
      quoted or not. */
  lemma ArgsReadBackIff(list: seq<Node>, rest: seq<Token>)
    requires |list| > 0 && forall a :: a in list ==> Printable(a)
    ensures var first := First(Unparse(list[0], 0));
            ParseArgs(Bracketed(list) + rest) == OkList(list, rest) <==> !first.mark.RParen? && !first.IsWord(DISTINCT)
  {
    var head, tail := Unparse(list[0], 0), UnparseTail(list[1..]);
    var ts := Bracketed(list) + rest;
    assert ts == Toks(head) + (ToksItems(tail) + ([CLOSE] + rest));
    ListReadsBackIff(list, rest);
    StartsWithFirst(head);
    if First(head).IsWord(DISTINCT) {
      UnparseSaves(list[0], 0);
      TailSaves(list[1..]);
      SpareCat(ToksItems(tail), NeedsList(list[1..]), [CLOSE], 0);
      SpareCat(Toks(head), Needs(list[0]), ToksItems(tail) + [CLOSE], NeedsList(list[1..]));
      var fewer := Bracketed(list)[1..];
      assert ts[1..] == fewer + rest;
      assert Weight(Bracketed(list)) == NeedsList(list) == 1 + Weight(fewer);
      TooFewTokens(list, fewer, rest);
    }
  }

  /** `IN (')')`: the literal closes the list, which is read as empty. */
  lemma CloserWitness()
    ensures ParseItems([MakeToken(StrTok, ")"), CLOSE]) == OkList([], [CLOSE])
    ensures Bracketed([Str(")")]) == [MakeToken(StrTok, ")"), CLOSE]
  {
    assert MakeToken(StrTok, ")").mark.RParen?;
    assert [MakeToken(StrTok, ")"), CLOSE][1..] == [CLOSE];
    assert ToksItems(UnparseTail([])) + [CLOSE] == [CLOSE];
  }

  /** `f("distinct")`: the quoted name is taken for the keyword, and the argument is lost. */
  lemma DistinctWitness(name: string)
    requires name == "distinct"
    ensures Bracketed([Col(name)]) == [MakeToken(IdentTok, name), CLOSE] && MakeToken(IdentTok, name).IsWord(DISTINCT)
    ensures ParseArgs([MakeToken(IdentTok, name), CLOSE]) == OkList([], [])
  {
    var t := MakeToken(IdentTok, name);
    assert ToUpper(name) == "DISTINCT";
    assert t.IsWord(DISTINCT);
    assert ToksItems(UnparseTail([])) + [CLOSE] == [CLOSE];
    assert [Col(name)][1..] == [] && Toks(Unparse(Col(name), 0)) == [t];
    assert [t, CLOSE][1..] == [CLOSE] && [CLOSE][1..] == [];
  }
}
