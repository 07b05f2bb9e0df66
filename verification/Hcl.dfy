/** The compiler from hardware control expressions to C: what it emits, read back with C's precedences,
    means what the expression means. */
module Hcl {
  import opened Y86Words

  // ------------------------------------------------------------------------------------------
  // Source expressions

  datatype CompOp = EQ | NE | LT | LE | GT | GE

  /** NODE: set elements and case arms are linked lists that are never empty. */
  datatype Expr =
    | Var(name: string)
    | Num(n: word)
    | And(a: Expr, b: Expr)
    | Or(a: Expr, b: Expr)
    | Not(a: Expr)
    | Comp(op: CompOp, a: Expr, b: Expr)
    | Ele(a: Expr, elems: Elems)
    | Case(arms: Arms)

  datatype Elems = LastElem(e: Expr) | Elem(e: Expr, rest: Elems)

  datatype Arms = LastArm(cond: Expr, e: Expr) | Arm(cond: Expr, e: Expr, rest: Arms)

  /** The symbol table: which signals are declared, and whether as Boolean. */
  type Symbols = map<string, bool>

  /** The isbool field of a node. */
  predicate IsBool(e: Expr) { e.And? || e.Or? || e.Not? || e.Comp? || e.Ele? }

  /** check_arg */
  predicate CheckArg(syms: Symbols, e: Expr, wantBool: bool) {
    match e
    case Var(x) => x in syms && syms[x] == wantBool
    case Num(n) => wantBool ==> n == 0 || n == 1
    case _ => IsBool(e) == wantBool
  }

  /** No constructor that built the expression reported an error. Set elements are not checked by the
      constructor; they may be of either kind. What becomes of a case list among them is told in HclSets. */
  predicate Built(syms: Symbols, e: Expr) {
    match e
    case Var(_) => true
    case Num(_) => true
    case And(a, b) => CheckArg(syms, a, true) && CheckArg(syms, b, true) && Built(syms, a) && Built(syms, b)
    case Or(a, b) => CheckArg(syms, a, true) && CheckArg(syms, b, true) && Built(syms, a) && Built(syms, b)
    case Not(a) => CheckArg(syms, a, true) && Built(syms, a)
    case Comp(_, a, b) => CheckArg(syms, a, false) && CheckArg(syms, b, false) && Built(syms, a) && Built(syms, b)
    case Ele(a, es) => CheckArg(syms, a, false) && Built(syms, a) && BuiltElems(syms, es)
    case Case(arms) => BuiltArms(syms, arms)
  }

  predicate BuiltElems(syms: Symbols, es: Elems) {
    && Built(syms, es.e) && (CheckArg(syms, es.e, false) || CheckArg(syms, es.e, true))
    && (es.Elem? ==> BuiltElems(syms, es.rest))
  }

  predicate BuiltArms(syms: Symbols, arms: Arms) {
    && CheckArg(syms, arms.cond, true) && CheckArg(syms, arms.e, false)
    && Built(syms, arms.cond) && Built(syms, arms.e)
    && (arms.Arm? ==> BuiltArms(syms, arms.rest))
  }

  // ------------------------------------------------------------------------------------------
  // What a source expression means

  /** Values of the signals; a Boolean signal is 0 or 1. */
  type Env = map<string, word>

  predicate Conforms(env: Env, syms: Symbols) {
    forall x :: x in syms ==> x in env && (syms[x] ==> env[x] == 0 || env[x] == 1)
  }

  predicate Compare(op: CompOp, x: word, y: word) {
    match op
    case EQ => x == y
    case NE => x != y
    case LT => x < y
    case LE => x <= y
    case GT => x > y
    case GE => x >= y
  }

  function Bit(b: bool): word { if b then 1 else 0 }

  function Value(env: Env, x: string): word { if x in env then env[x] else 0 }

  /** A Boolean expression holds when its value is not 0; a case list is its first arm that holds, or 0. */
  function Eval(env: Env, e: Expr): word {
    match e
    case Var(x) => Value(env, x)
    case Num(n) => n
    case And(a, b) => Bit(Eval(env, a) != 0 && Eval(env, b) != 0)
    case Or(a, b) => Bit(Eval(env, a) != 0 || Eval(env, b) != 0)
    case Not(a) => Bit(Eval(env, a) == 0)
    case Comp(op, a, b) => Bit(Compare(op, Eval(env, a), Eval(env, b)))
    case Ele(a, es) => Bit(Eval(env, a) in Members(env, es))
    case Case(arms) => EvalArms(env, arms)
  }

  function Members(env: Env, es: Elems): set<word> {
    match es
    case LastElem(e) => {Eval(env, e)}
    case Elem(e, rest) => {Eval(env, e)} + Members(env, rest)
  }

  function EvalArms(env: Env, arms: Arms): word {
    if Eval(env, arms.cond) != 0 then Eval(env, arms.e)
    else match arms
      case LastArm(_, _) => 0
      case Arm(_, _, rest) => EvalArms(env, rest)
  }

  /** Boolean expressions are 0 or 1. */
  lemma BooleanIsBit(syms: Symbols, env: Env, e: Expr)
    requires Conforms(env, syms) && CheckArg(syms, e, true)
    ensures Eval(env, e) == 0 || Eval(env, e) == 1
  {
  }

  // ------------------------------------------------------------------------------------------
  // What is emitted

  datatype BinOp = LOGOR | BITOR | BITAND | CEQ | CNE | CLT | CLE | CGT | CGE

  datatype Token = TVar(name: string) | TNum(n: word) | TOp(op: BinOp) | TNot | TOpen | TClose | TQuestion | TColon

  function CompToken(op: CompOp): Token {
    match op
    case EQ => TOp(CEQ)
    case NE => TOp(CNE)
    case LT => TOp(CLT)
    case LE => TOp(CLE)
    case GT => TOp(CGT)
    case GE => TOp(CGE)
  }

  /** gen_expr, as the tokens it prints; line breaks fall between tokens. */
  function Gen(e: Expr): seq<Token>
    decreases e
  {
    match e
    case Var(x) => [TOpen, TVar(x), TClose]
    case Num(n) => [TNum(n)]
    case And(a, b) => [TOpen] + (Gen(a) + ([TOp(BITAND)] + (Gen(b) + [TClose])))
    case Or(a, b) => [TOpen] + (Gen(a) + ([TOp(BITOR)] + (Gen(b) + [TClose])))
    case Not(a) => [TNot] + Gen(a)
    case Comp(op, a, b) => [TOpen] + (Gen(a) + ([CompToken(op)] + (Gen(b) + [TClose])))
    case Ele(a, es) => [TOpen] + (GenElems(Gen(a), es) + [TClose])
    case Case(arms) => [TOpen] + (GenArms(arms) + [TClose])
  }

  function GenElems(a: seq<Token>, es: Elems): seq<Token>
    decreases es
  {
    var first := a + ([TOp(CEQ)] + Gen(es.e));
    match es
    case LastElem(_) => first
    case Elem(_, rest) => first + ([TOp(LOGOR)] + GenElems(a, rest))
  }

  /** An arm whose condition is the number 1 ends the list; otherwise the list ends with 0. */
  function GenArms(arms: Arms): seq<Token>
    decreases arms
  {
    if arms.cond == Num(1) then Gen(arms.e)
    else
      Gen(arms.cond) + ([TQuestion] + (Gen(arms.e) + ([TColon] +
        match arms
        case LastArm(_, _) => [TNum(0)]
        case Arm(_, _, rest) => GenArms(rest))))
  }

  // ------------------------------------------------------------------------------------------
  // C expressions: syntax by precedence, and meaning

  datatype CExpr =
    | CVar(name: string)
    | CNum(n: word)
    | CNot(a: CExpr)
    | CBin(op: BinOp, a: CExpr, b: CExpr)
    | CCond(c: CExpr, a: CExpr, b: CExpr)

  /** Binding strength: || weakest, then |, &, equality, relational. */
  function Prec(op: BinOp): nat {
    match op
    case LOGOR => 1
    case BITOR => 2
    case BITAND => 3
    case CEQ => 4
    case CNE => 4
    case CLT => 5
    case CLE => 5
    case CGT => 5
    case CGE => 5
  }

  datatype Parsed = Fail | Done(tree: CExpr, rest: seq<Token>)

  predicate Shorter(r: Parsed, ts: seq<Token>) { r.Done? ==> |r.rest| < |ts| }

  /** conditional-expression: right associative. */
  function ParseExpr(ts: seq<Token>): (r: Parsed)
    ensures Shorter(r, ts)
    decreases |ts|, 4
  {
    var c := ParseBin(1, ts);
    if c.Fail? then Fail
    else if |c.rest| == 0 || c.rest[0] != TQuestion then c
    else
      var a := ParseExpr(c.rest[1..]);
      if a.Fail? || |a.rest| == 0 || a.rest[0] != TColon then Fail
      else
        var b := ParseExpr(a.rest[1..]);
        if b.Fail? then Fail else Done(CCond(c.tree, a.tree, b.tree), b.rest)
  }

  /** Binary operators that bind at least as strongly as `p`: left associative. */
  function ParseBin(p: nat, ts: seq<Token>): (r: Parsed)
    ensures Shorter(r, ts)
    decreases |ts|, 3
  {
    var l := ParseUnary(ts);
    if l.Fail? then Fail else Climb(p, l.tree, l.rest)
  }

  function Climb(p: nat, l: CExpr, ts: seq<Token>): (r: Parsed)
    ensures r.Done? ==> |r.rest| <= |ts|
    decreases |ts|, 2
  {
    if |ts| == 0 || !ts[0].TOp? || Prec(ts[0].op) < p then Done(l, ts)
    else
      var r := ParseBin(Prec(ts[0].op) + 1, ts[1..]);
      if r.Fail? then Fail else Climb(p, CBin(ts[0].op, l, r.tree), r.rest)
  }

  function ParseUnary(ts: seq<Token>): (r: Parsed)
    ensures Shorter(r, ts)
    decreases |ts|, 1
  {
    if |ts| == 0 then Fail
    else match ts[0]
      case TVar(x) => Done(CVar(x), ts[1..])
      case TNum(n) => Done(CNum(n), ts[1..])
      case TNot =>
        var a := ParseUnary(ts[1..]);
        if a.Fail? then Fail else Done(CNot(a.tree), a.rest)
      case TOpen =>
        var a := ParseExpr(ts[1..]);
        if a.Fail? || |a.rest| == 0 || a.rest[0] != TClose then Fail else Done(a.tree, a.rest[1..])
      case _ => Fail
  }

  function BitOr(a: nat, b: nat, n: nat): nat {
    if n == 0 then 0 else (if a % 2 == 1 || b % 2 == 1 then 1 else 0) + 2 * BitOr(a / 2, b / 2, n - 1)
  }

  function CBinary(op: BinOp, x: word, y: word): word {
    match op
    case LOGOR => Bit(x != 0 || y != 0)
    case BITOR => Wrap(BitOr(Unsigned(x), Unsigned(y), 64))
    case BITAND => Wrap(BitAnd(Unsigned(x), Unsigned(y), 64))
    case CEQ => Bit(x == y)
    case CNE => Bit(x != y)
    case CLT => Bit(x < y)
    case CLE => Bit(x <= y)
    case CGT => Bit(x > y)
    case CGE => Bit(x >= y)
  }

  function CEval(env: Env, c: CExpr): word {
    match c
    case CVar(x) => Value(env, x)
    case CNum(n) => n
    case CNot(a) => Bit(CEval(env, a) == 0)
    case CBin(op, a, b) => CBinary(op, CEval(env, a), CEval(env, b))
    case CCond(c, a, b) => if CEval(env, c) != 0 then CEval(env, a) else CEval(env, b)
  }

  // ------------------------------------------------------------------------------------------
  // The tree that is read back

  function Tree(e: Expr): CExpr
    decreases e
  {
    match e
    case Var(x) => CVar(x)
    case Num(n) => CNum(n)
    case And(a, b) => CBin(BITAND, Tree(a), Tree(b))
    case Or(a, b) => CBin(BITOR, Tree(a), Tree(b))
    case Not(a) => CNot(Tree(a))
    case Comp(op, a, b) => CBin(CompToken(op).op, Tree(a), Tree(b))
    case Ele(a, es) =>
      var first := CBin(CEQ, Tree(a), Tree(es.e));
      if es.LastElem? then first else TreeElems(first, Tree(a), es.rest)
    case Case(arms) => TreeArms(arms)
  }

  /** The chain of || is read from the left. */
  function TreeElems(acc: CExpr, a: CExpr, es: Elems): CExpr
    decreases es
  {
    var next := CBin(LOGOR, acc, CBin(CEQ, a, Tree(es.e)));
    match es
    case LastElem(_) => next
    case Elem(_, rest) => TreeElems(next, a, rest)
  }

  function TreeArms(arms: Arms): CExpr
    decreases arms
  {
    if arms.cond == Num(1) then Tree(arms.e)
    else CCond(Tree(arms.cond), Tree(arms.e),
               match arms
               case LastArm(_, _) => CNum(0)
               case Arm(_, _, rest) => TreeArms(rest))
  }

  // ------------------------------------------------------------------------------------------
  // Reading back

  /** What follows an operand of an operator of strength `p` does not extend it. */
  predicate Ends(p: nat, ts: seq<Token>) { |ts| == 0 || !ts[0].TOp? || Prec(ts[0].op) < p }

  lemma Uncons(x: Token, ts: seq<Token>)
    ensures ([x] + ts)[0] == x && ([x] + ts)[1..] == ts
  {
  }

  /** A parenthesised phrase is a primary. */
  lemma Parenthesised(g: seq<Token>, tree: CExpr, rest: seq<Token>)
    requires ParseExpr(g + ([TClose] + rest)) == Done(tree, [TClose] + rest)
    ensures ParseUnary([TOpen] + (g + ([TClose] + rest))) == Done(tree, rest)
  {
    Uncons(TOpen, g + ([TClose] + rest));
    Uncons(TClose, rest);
  }

  /** An operand that stands as a unary phrase is read up to what cannot extend it. */
  lemma Operand(p: nat, ts: seq<Token>, tree: CExpr, rest: seq<Token>)
    requires ParseUnary(ts) == Done(tree, rest) && Ends(p, rest)
    ensures ParseBin(p, ts) == Done(tree, rest)
  {
  }

  lemma Whole(ts: seq<Token>, tree: CExpr, rest: seq<Token>)
    requires ParseUnary(ts) == Done(tree, rest) && Ends(1, rest) && (|rest| == 0 || rest[0] != TQuestion)
    ensures ParseExpr(ts) == Done(tree, rest)
  {
    Operand(1, ts, tree, rest);
  }

  /** One operator between two operands, and what then follows. */
  lemma Pair(p: nat, ts: seq<Token>, ta: CExpr, op: BinOp, tsb: seq<Token>, tb: CExpr, rest: seq<Token>)
    requires p <= Prec(op) && Ends(Prec(op) + 1, rest)
    requires ParseUnary(ts) == Done(ta, [TOp(op)] + tsb) && ParseUnary(tsb) == Done(tb, rest)
    ensures ParseBin(p, ts) == Climb(p, CBin(op, ta, tb), rest)
  {
    Uncons(TOp(op), tsb);
    Operand(Prec(op) + 1, tsb, tb, rest);
  }

  lemma PairWhole(ts: seq<Token>, ta: CExpr, op: BinOp, tsb: seq<Token>, tb: CExpr, r: seq<Token>)
    requires ParseUnary(ts) == Done(ta, [TOp(op)] + tsb) && ParseUnary(tsb) == Done(tb, r)
    requires |r| > 0 && r[0] == TClose
    ensures ParseExpr(ts) == Done(CBin(op, ta, tb), r)
  {
    Pair(1, ts, ta, op, tsb, tb, r);
    hide ParseUnary, ParseBin;
    assert Climb(1, CBin(op, ta, tb), r) == Done(CBin(op, ta, tb), r);
    hide Climb;
    assert ParseExpr(ts) == Done(CBin(op, ta, tb), r);
  }

  lemma Binary(ga: seq<Token>, ta: CExpr, op: BinOp, gb: seq<Token>, tb: CExpr, rest: seq<Token>)
    requires var r := [TClose] + rest;
      && ParseUnary(ga + ([TOp(op)] + (gb + r))) == Done(ta, [TOp(op)] + (gb + r))
      && ParseUnary(gb + r) == Done(tb, r)
    ensures ParseUnary([TOpen] + (ga + ([TOp(op)] + (gb + [TClose]))) + rest) == Done(CBin(op, ta, tb), rest)
  {
    hide ParseUnary, ParseExpr;
    var r := [TClose] + rest;
    var g := ga + ([TOp(op)] + gb);
    assert g + r == ga + ([TOp(op)] + (gb + r));
    PairWhole(g + r, ta, op, gb + r, tb, r);
    Parenthesised(g, CBin(op, ta, tb), rest);
    assert [TOpen] + (ga + ([TOp(op)] + (gb + [TClose]))) + rest == [TOpen] + (g + r);
    assert ParseUnary([TOpen] + (ga + ([TOp(op)] + (gb + [TClose]))) + rest) == Done(CBin(op, ta, tb), rest);
  }

  /** An emitted expression reads back whole, wherever it stands. */
  ghost predicate Reads(e: Expr) {
    forall rest: seq<Token> {:trigger Gen(e) + rest} :: ParseUnary(Gen(e) + rest) == Done(Tree(e), rest)
  }

  lemma ReadAt(e: Expr, rest: seq<Token>)
    requires Reads(e)
    ensures ParseUnary(Gen(e) + rest) == Done(Tree(e), rest)
  {
  }

  lemma {:induction false} ReadBack(e: Expr)
    ensures Reads(e)
    decreases e
  {
    hide Reads;
    match e
    case Var(x) =>
      ReadsVar(x);
    case Num(n) =>
      ReadsNum(n);
    case And(a, b) =>
      ReadBack(a);
      ReadBack(b);
      ReadsBinary(e, a, BITAND, b);
    case Or(a, b) =>
      ReadBack(a);
      ReadBack(b);
      ReadsBinary(e, a, BITOR, b);
    case Not(a) =>
      ReadBack(a);
      ReadsNot(a);
    case Comp(op, a, b) =>
      ReadBack(a);
      ReadBack(b);
      ReadsBinary(e, a, CompToken(op).op, b);
    case Ele(a, es) =>
      ReadBack(a);
      ReadsElems(a, es);
    case Case(arms) =>
      ReadsArms(arms);
  }

  lemma ReadsVar(x: string)
    ensures Reads(Var(x))
  {
    forall r: seq<Token> {:trigger [TVar(x)] + r} | |r| > 0 && r[0] == TClose
      ensures ParseExpr([TVar(x)] + r) == Done(CVar(x), r)
    {
      Uncons(TVar(x), r);
      Whole([TVar(x)] + r, CVar(x), r);
    }
    assert Gen(Var(x)) == [TOpen] + ([TVar(x)] + [TClose]);
    ReadsWrapped(Var(x), [TVar(x)]);
  }

  lemma ReadsNum(n: word)
    ensures Reads(Num(n))
  {
    forall rest: seq<Token> {:trigger Gen(Num(n)) + rest}
      ensures ParseUnary(Gen(Num(n)) + rest) == Done(CNum(n), rest)
    {
      Uncons(TNum(n), rest);
    }
  }

  lemma ReadsNot(a: Expr)
    requires Reads(a)
    ensures Reads(Not(a))
  {
    forall rest: seq<Token> {:trigger Gen(Not(a)) + rest}
      ensures ParseUnary(Gen(Not(a)) + rest) == Done(CNot(Tree(a)), rest)
    {
      Uncons(TNot, Gen(a) + rest);
      assert Gen(Not(a)) + rest == [TNot] + (Gen(a) + rest);
    }
  }

  lemma ReadsBinary(e: Expr, a: Expr, op: BinOp, b: Expr)
    requires Gen(e) == [TOpen] + (Gen(a) + ([TOp(op)] + (Gen(b) + [TClose]))) && Tree(e) == CBin(op, Tree(a), Tree(b))
    requires Reads(a) && Reads(b)
    ensures Reads(e)
  {
    forall rest: seq<Token> {:trigger Gen(e) + rest}
      ensures ParseUnary(Gen(e) + rest) == Done(Tree(e), rest)
    {
      ReadAt(a, [TOp(op)] + (Gen(b) + ([TClose] + rest)));
      ReadAt(b, [TClose] + rest);
      hide Reads, Gen, Tree, ParseUnary;
      Binary(Gen(a), Tree(a), op, Gen(b), Tree(b), rest);
    }
  }

  /** The tokens after the first equality of a membership chain. */
  function AfterFirst(a: Expr, es: Elems, r: seq<Token>): seq<Token> {
    if es.LastElem? then r else [TOp(LOGOR)] + (GenElems(Gen(a), es.rest) + r)
  }

  /** One equality of a membership chain, and the rest of the chain. */
  lemma ReadElem(p: nat, a: Expr, es: Elems, r: seq<Token>)
    requires p <= 2 && |r| > 0 && r[0] == TClose && Reads(a) && Reads(es.e)
    ensures ParseBin(p, GenElems(Gen(a), es) + r) == Climb(p, CBin(CEQ, Tree(a), Tree(es.e)), AfterFirst(a, es, r))
  {
    var rest := AfterFirst(a, es, r);
    ReadAt(a, [TOp(CEQ)] + (Gen(es.e) + rest));
    ReadAt(es.e, rest);
    ElemsShape(Gen(a), es, r, rest);
    Pair(p, Gen(a) + ([TOp(CEQ)] + (Gen(es.e) + rest)), Tree(a), CEQ, Gen(es.e) + rest, Tree(es.e), rest);
  }

  lemma ElemsShape(ga: seq<Token>, es: Elems, r: seq<Token>, rest: seq<Token>)
    requires rest == if es.LastElem? then r else [TOp(LOGOR)] + (GenElems(ga, es.rest) + r)
    ensures GenElems(ga, es) + r == ga + ([TOp(CEQ)] + (Gen(es.e) + rest))
  {
    var first := ga + ([TOp(CEQ)] + Gen(es.e));
    assert first + rest == ga + ([TOp(CEQ)] + (Gen(es.e) + rest));
    if es.Elem? {
      var more := GenElems(ga, es.rest);
      assert first + ([TOp(LOGOR)] + more) + r == first + ([TOp(LOGOR)] + (more + r));
    }
  }

  lemma {:induction false} ReadsElems(a: Expr, es: Elems)
    requires Reads(a)
    ensures Reads(Ele(a, es))
    decreases es, 1
  {
    hide Reads, ParseExpr, ParseUnary, Tree;
    forall r: seq<Token> {:trigger GenElems(Gen(a), es) + r} | |r| > 0 && r[0] == TClose
      ensures ParseExpr(GenElems(Gen(a), es) + r) == Done(Tree(Ele(a, es)), r)
    {
      ReadElems(a, es, r);
    }
    ReadsWrapped(Ele(a, es), GenElems(Gen(a), es));
  }

  lemma {:induction false} ReadElems(a: Expr, es: Elems, r: seq<Token>)
    requires Reads(a) && |r| > 0 && r[0] == TClose
    ensures ParseExpr(GenElems(Gen(a), es) + r) == Done(Tree(Ele(a, es)), r)
    decreases es, 0
  {
    hide Reads;
    ReadBack(es.e);
    ReadElem(1, a, es, r);
    var eq := CBin(CEQ, Tree(a), Tree(es.e));
    if es.Elem? {
      ReadChain(eq, a, es.rest, r);
    }
    hide ParseBin, ParseUnary, Gen, GenElems;
    assert Climb(1, eq, AfterFirst(a, es, r)) == Done(Tree(Ele(a, es)), r);
    hide Climb, Tree, AfterFirst;
    assert ParseExpr(GenElems(Gen(a), es) + r) == Done(Tree(Ele(a, es)), r);
  }

  /** A phrase that is read up to a closing parenthesis can be put in parentheses. */
  lemma ReadsWrapped(e: Expr, g: seq<Token>)
    requires Gen(e) == [TOpen] + (g + [TClose])
    requires forall r: seq<Token> {:trigger g + r} :: |r| > 0 && r[0] == TClose ==> ParseExpr(g + r) == Done(Tree(e), r)
    ensures Reads(e)
  {
    forall rest: seq<Token> {:trigger Gen(e) + rest}
      ensures ParseUnary(Gen(e) + rest) == Done(Tree(e), rest)
    {
      assert ParseExpr(g + ([TClose] + rest)) == Done(Tree(e), [TClose] + rest);
      hide Gen, Tree, ParseUnary, ParseExpr;
      Parenthesised(g, Tree(e), rest);
      assert Gen(e) + rest == [TOpen] + (g + ([TClose] + rest));
    }
  }

  lemma {:induction false} ReadChain(acc: CExpr, a: Expr, es: Elems, r: seq<Token>)
    requires |r| > 0 && r[0] == TClose && Reads(a)
    ensures Climb(1, acc, [TOp(LOGOR)] + (GenElems(Gen(a), es) + r)) == Done(TreeElems(acc, Tree(a), es), r)
    decreases es
  {
    hide Reads;
    var after := AfterFirst(a, es, r);
    var eq := CBin(CEQ, Tree(a), Tree(es.e));
    Uncons(TOp(LOGOR), GenElems(Gen(a), es) + r);
    ReadBack(es.e);
    ReadElem(2, a, es, r);
    assert Climb(2, eq, after) == Done(eq, after);
    if es.Elem? {
      ReadChain(CBin(LOGOR, acc, eq), a, es.rest, r);
    }
  }

  lemma {:induction false} ReadsArms(arms: Arms)
    ensures Reads(Case(arms))
    decreases arms, 1
  {
    hide Reads;
    forall r: seq<Token> {:trigger GenArms(arms) + r} | |r| > 0 && r[0] == TClose
      ensures ParseExpr(GenArms(arms) + r) == Done(Tree(Case(arms)), r)
    {
      ReadArms(arms, r);
    }
    ReadsWrapped(Case(arms), GenArms(arms));
  }

  lemma {:induction false} ReadArms(arms: Arms, r: seq<Token>)
    requires |r| > 0 && r[0] == TClose
    ensures ParseExpr(GenArms(arms) + r) == Done(TreeArms(arms), r)
    decreases arms, 0
  {
    hide Reads, Gen, Tree, ParseUnary, ParseBin;
    ReadBack(arms.e);
    if arms.cond == Num(1) {
      ReadAt(arms.e, r);
      Whole(Gen(arms.e) + r, Tree(arms.e), r);
    } else {
      ReadBack(arms.cond);
      if arms.LastArm? {
        Uncons(TNum(0), r);
        ReadZero(r);
        OneArm(arms, [TNum(0)], CNum(0), r);
      } else {
        ReadArms(arms.rest, r);
        OneArm(arms, GenArms(arms.rest), TreeArms(arms.rest), r);
      }
    }
  }

  lemma ReadZero(r: seq<Token>)
    requires |r| > 0 && r[0] == TClose
    ensures ParseExpr([TNum(0)] + r) == Done(CNum(0), r)
  {
    Uncons(TNum(0), r);
    Whole([TNum(0)] + r, CNum(0), r);
  }

  /** One arm that is not the last word, with what stands after its colon. */
  lemma OneArm(arms: Arms, tail: seq<Token>, tree: CExpr, r: seq<Token>)
    requires Reads(arms.cond) && Reads(arms.e) && ParseExpr(tail + r) == Done(tree, r)
    ensures ParseExpr((Gen(arms.cond) + ([TQuestion] + (Gen(arms.e) + ([TColon] + tail)))) + r) ==
            Done(CCond(Tree(arms.cond), Tree(arms.e), tree), r)
  {
    var gc, ge := Gen(arms.cond), Gen(arms.e);
    var other := [TColon] + (tail + r);
    hide Gen, Tree, ParseExpr;
    assert (gc + ([TQuestion] + (ge + ([TColon] + tail)))) + r == gc + ([TQuestion] + (ge + other));
    hide Reads;
    ReadAt(arms.cond, [TQuestion] + (ge + other));
    ReadAt(arms.e, other);
    ReadCond(gc, Tree(arms.cond), ge, Tree(arms.e), tail + r, tree, r);
  }

  /** A condition, a value and what stands after the colon, once each of them is read. */
  lemma ReadCond(gc: seq<Token>, c: CExpr, ge: seq<Token>, a: CExpr, rest: seq<Token>, b: CExpr, r: seq<Token>)
    requires ParseUnary(gc + ([TQuestion] + (ge + ([TColon] + rest)))) ==
             Done(c, [TQuestion] + (ge + ([TColon] + rest)))
    requires ParseUnary(ge + ([TColon] + rest)) == Done(a, [TColon] + rest)
    requires ParseExpr(rest) == Done(b, r)
    ensures ParseExpr(gc + ([TQuestion] + (ge + ([TColon] + rest)))) == Done(CCond(c, a, b), r)
  {
    hide ParseUnary, ParseBin;
    var other := [TColon] + rest;
    var ts := gc + ([TQuestion] + (ge + other));
    Operand(1, ts, c, [TQuestion] + (ge + other));
    Uncons(TQuestion, ge + other);
    Whole(ge + other, a, other);
    Uncons(TColon, rest);
    assert ParseExpr(ts) == Done(CCond(c, a, b), r);
  }

  // ------------------------------------------------------------------------------------------
  // Meaning preserved

  /** On 0 and 1 the bitwise operators are the Boolean ones. */
  lemma BitwiseIsBoolean(x: word, y: word)
    requires (x == 0 || x == 1) && (y == 0 || y == 1)
    ensures CBinary(BITAND, x, y) == Bit(x != 0 && y != 0)
    ensures CBinary(BITOR, x, y) == Bit(x != 0 || y != 0)
  {
    LowBit(x, y, 64);
    hide BitAnd, BitOr;
    assert Unsigned(x) == x && Unsigned(y) == y && Wrap(0) == 0 && Wrap(1) == 1;
    assert CBinary(BITAND, x, y) == Bit(x != 0 && y != 0);
    assert CBinary(BITOR, x, y) == Bit(x != 0 || y != 0);
  }

  lemma LowBit(x: nat, y: nat, n: nat)
    requires x < 2 && y < 2 && n > 0
    ensures BitAnd(x, y, n) == (if x == 1 && y == 1 then 1 else 0)
    ensures BitOr(x, y, n) == (if x == 1 || y == 1 then 1 else 0)
  {
    NoBits(n - 1);
  }

  lemma {:induction false} NoBits(n: nat)
    ensures BitAnd(0, 0, n) == 0 && BitOr(0, 0, n) == 0
  {
    if n > 0 {
      NoBits(n - 1);
    }
  }

  /** The operands of the two bitwise operators are Boolean. */
  predicate Meaningful(syms: Symbols, e: Expr) {
    match e
    case Var(_) => true
    case Num(_) => true
    case And(a, b) => CheckArg(syms, a, true) && CheckArg(syms, b, true) && Meaningful(syms, a) && Meaningful(syms, b)
    case Or(a, b) => CheckArg(syms, a, true) && CheckArg(syms, b, true) && Meaningful(syms, a) && Meaningful(syms, b)
    case Not(a) => Meaningful(syms, a)
    case Comp(_, a, b) => Meaningful(syms, a) && Meaningful(syms, b)
    case Ele(a, es) => Meaningful(syms, a) && MeaningfulElems(syms, es)
    case Case(arms) => MeaningfulArms(syms, arms)
  }

  predicate MeaningfulElems(syms: Symbols, es: Elems) {
    Meaningful(syms, es.e) && (es.Elem? ==> MeaningfulElems(syms, es.rest))
  }

  predicate MeaningfulArms(syms: Symbols, arms: Arms) {
    && Meaningful(syms, arms.cond) && Meaningful(syms, arms.e)
    && (arms.Arm? ==> MeaningfulArms(syms, arms.rest))
  }

  lemma {:induction false} BuiltIsMeaningful(syms: Symbols, e: Expr)
    requires Built(syms, e)
    ensures Meaningful(syms, e)
    decreases e, 1
  {
    hide CheckArg;
    match e
    case Var(_) =>
    case Num(_) =>
    case And(a, b) =>
      BuiltIsMeaningful(syms, a);
      BuiltIsMeaningful(syms, b);
    case Or(a, b) =>
      BuiltIsMeaningful(syms, a);
      BuiltIsMeaningful(syms, b);
    case Not(a) =>
      BuiltIsMeaningful(syms, a);
    case Comp(_, a, b) =>
      BuiltIsMeaningful(syms, a);
      BuiltIsMeaningful(syms, b);
    case Ele(a, es) =>
      BuiltIsMeaningful(syms, a);
      ElemsMeaningful(syms, es);
    case Case(arms) =>
      ArmsMeaningful(syms, arms);
  }

  lemma {:induction false} ElemsMeaningful(syms: Symbols, es: Elems)
    requires BuiltElems(syms, es)
    ensures MeaningfulElems(syms, es)
    decreases es, 0
  {
    hide CheckArg;
    BuiltIsMeaningful(syms, es.e);
    if es.Elem? {
      ElemsMeaningful(syms, es.rest);
    }
  }

  lemma {:induction false} ArmsMeaningful(syms: Symbols, arms: Arms)
    requires BuiltArms(syms, arms)
    ensures MeaningfulArms(syms, arms)
    decreases arms, 0
  {
    hide CheckArg;
    BuiltIsMeaningful(syms, arms.cond);
    BuiltIsMeaningful(syms, arms.e);
    if arms.Arm? {
      ArmsMeaningful(syms, arms.rest);
    }
  }

  /** The tree read back evaluates to what the expression means. */
  lemma {:induction false} TreeMeans(syms: Symbols, env: Env, e: Expr)
    requires Conforms(env, syms) && Meaningful(syms, e)
    ensures CEval(env, Tree(e)) == Eval(env, e)
    decreases e, 1
  {
    hide Conforms, CBinary, CheckArg, MeaningfulElems, MeaningfulArms;
    match e
    case Var(_) =>
    case Num(_) =>
    case And(a, b) =>
      TreeMeans(syms, env, a);
      TreeMeans(syms, env, b);
      BitsMean(syms, env, a, b);
    case Or(a, b) =>
      TreeMeans(syms, env, a);
      TreeMeans(syms, env, b);
      BitsMean(syms, env, a, b);
    case Not(a) =>
      TreeMeans(syms, env, a);
    case Comp(op, a, b) =>
      TreeMeans(syms, env, a);
      TreeMeans(syms, env, b);
      CompMeans(op, Eval(env, a), Eval(env, b));
    case Ele(a, es) =>
      TreeMeans(syms, env, a);
      EleMeans(syms, env, a, es);
    case Case(arms) =>
      ArmsMean(syms, env, arms);
  }

  lemma BitsMean(syms: Symbols, env: Env, a: Expr, b: Expr)
    requires Conforms(env, syms) && CheckArg(syms, a, true) && CheckArg(syms, b, true)
    ensures CBinary(BITAND, Eval(env, a), Eval(env, b)) == Eval(env, And(a, b))
    ensures CBinary(BITOR, Eval(env, a), Eval(env, b)) == Eval(env, Or(a, b))
  {
    BooleanIsBit(syms, env, a);
    BooleanIsBit(syms, env, b);
    BitwiseIsBoolean(Eval(env, a), Eval(env, b));
    hide CBinary, Conforms, CheckArg;
    assert Eval(env, And(a, b)) == Bit(Eval(env, a) != 0 && Eval(env, b) != 0);
    assert Eval(env, Or(a, b)) == Bit(Eval(env, a) != 0 || Eval(env, b) != 0);
  }

  lemma CompMeans(op: CompOp, x: word, y: word)
    ensures CBinary(CompToken(op).op, x, y) == Bit(Compare(op, x, y))
  {
  }

  lemma {:induction false} EleMeans(syms: Symbols, env: Env, a: Expr, es: Elems)
    requires Conforms(env, syms) && MeaningfulElems(syms, es) && CEval(env, Tree(a)) == Eval(env, a)
    ensures CEval(env, Tree(Ele(a, es))) == Eval(env, Ele(a, es))
    decreases es, 1
  {
    TreeMeans(syms, env, es.e);
    if es.Elem? {
      ChainMeans(syms, env, CBin(CEQ, Tree(a), Tree(es.e)), a, es.rest);
    }
  }

  lemma {:induction false} ChainMeans(syms: Symbols, env: Env, acc: CExpr, a: Expr, es: Elems)
    requires Conforms(env, syms) && MeaningfulElems(syms, es)
    requires CEval(env, Tree(a)) == Eval(env, a)
    ensures CEval(env, TreeElems(acc, Tree(a), es)) == Bit(CEval(env, acc) != 0 || Eval(env, a) in Members(env, es))
    decreases es, 0
  {
    TreeMeans(syms, env, es.e);
    match es
    case LastElem(_) =>
    case Elem(x, rest) =>
      ChainMeans(syms, env, CBin(LOGOR, acc, CBin(CEQ, Tree(a), Tree(x))), a, rest);
  }

  lemma {:induction false} ArmsMean(syms: Symbols, env: Env, arms: Arms)
    requires Conforms(env, syms) && MeaningfulArms(syms, arms)
    ensures CEval(env, TreeArms(arms)) == EvalArms(env, arms)
    decreases arms, 0
  {
    TreeMeans(syms, env, arms.cond);
    TreeMeans(syms, env, arms.e);
    if arms.cond != Num(1) {
      match arms
      case LastArm(_, _) =>
      case Arm(_, _, rest) =>
        ArmsMean(syms, env, rest);
    }
  }

  /** What is emitted for any such expression is one C expression with its meaning. */
  lemma TokensMean(syms: Symbols, env: Env, e: Expr)
    requires Conforms(env, syms) && Meaningful(syms, e)
    ensures ParseExpr(Gen(e)) == Done(Tree(e), []) && CEval(env, Tree(e)) == Eval(env, e)
  {
    ReadBack(e);
    ReadAt(e, []);
    assert Gen(e) + [] == Gen(e);
    Whole(Gen(e), Tree(e), []);
    TreeMeans(syms, env, e);
  }

  /** The compiler is correct: for every expression built without an error report, the tokens emitted for its
      nodes are one C expression, and it evaluates to the meaning of the expression. */
  lemma CompilerCorrect(syms: Symbols, env: Env, e: Expr)
    requires Conforms(env, syms) && Built(syms, e)
    ensures ParseExpr(Gen(e)) == Done(Tree(e), []) && CEval(env, Tree(e)) == Eval(env, e)
  {
    BuiltIsMeaningful(syms, e);
    TokensMean(syms, env, e);
  }
}
