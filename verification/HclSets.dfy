/** Case lists as set elements. Elements and arms are linked through the same field, so that the arms of a case
    list in a set become elements of the set, and what stands behind the list in the set becomes more arms. */
module HclSets {
  import opened Y86Words
  import opened Hcl

  // ------------------------------------------------------------------------------------------
  // How gen_expr reads the nodes

  /** The result of following the links, or of following a null pointer on the way. */
  datatype Reading<T> = Read(value: T) | NullRead

  /** A node in the list of a set: an arm of a case list, or any other expression. What is below it is as
      gen_expr finds it. */
  datatype Node = Plain(e: Expr) | ArmNode(cond: Expr, e: Expr)

  datatype Parts = Parts(cond: Expr, e: Expr)

  /** The first and second argument of a node, which is what gen_expr takes for condition and value of an arm.
      Signals, numbers and negations lack one of them. The second argument of a membership test is the first
      element of its set. */
  function AsArm(n: Node): Reading<Parts> {
    match n
    case ArmNode(c, e) => Read(Parts(c, e))
    case Plain(And(a, b)) => Read(Parts(a, b))
    case Plain(Or(a, b)) => Read(Parts(a, b))
    case Plain(Comp(_, a, b)) => Read(Parts(a, b))
    case Plain(Ele(a, es)) => Read(Parts(a, es.e))
    case _ => NullRead
  }

  /** The loop of gen_expr over a case list: it goes on to the end of the nodes or to an arm whose condition is
      the number 1. */
  function ArmsAt(nodes: seq<Node>): Reading<Arms>
    requires nodes != []
  {
    var first := AsArm(nodes[0]);
    if first.NullRead? then NullRead
    else if first.value.cond == Num(1) || |nodes| == 1 then Read(LastArm(first.value.cond, first.value.e))
    else
      var rest := ArmsAt(nodes[1..]);
      if rest.NullRead? then NullRead else Read(Arm(first.value.cond, first.value.e, rest.value))
  }

  /** An element is printed on its own, a case list from the arm on at which it is met. */
  function ElemAt(nodes: seq<Node>): Reading<Expr>
    requires nodes != []
  {
    if nodes[0].Plain? then Read(nodes[0].e)
    else
      var arms := ArmsAt(nodes);
      if arms.NullRead? then NullRead else Read(Case(arms.value))
  }

  function ElemsAt(nodes: seq<Node>): Reading<Elems>
    requires nodes != []
  {
    var first := ElemAt(nodes);
    if first.NullRead? then NullRead
    else if |nodes| == 1 then Read(LastElem(first.value))
    else
      var rest := ElemsAt(nodes[1..]);
      if rest.NullRead? then NullRead else Read(Elem(first.value, rest.value))
  }

  /** An expression as gen_expr finds it. Arms behind one whose condition is the number 1 are not looked at. */
  function Linked(e: Expr): Reading<Expr>
    decreases e, 0
  {
    match e
    case Var(_) => Read(e)
    case Num(_) => Read(e)
    case And(a, b) =>
      var x, y := Linked(a), Linked(b);
      if x.NullRead? || y.NullRead? then NullRead else Read(And(x.value, y.value))
    case Or(a, b) =>
      var x, y := Linked(a), Linked(b);
      if x.NullRead? || y.NullRead? then NullRead else Read(Or(x.value, y.value))
    case Not(a) =>
      var x := Linked(a);
      if x.NullRead? then NullRead else Read(Not(x.value))
    case Comp(op, a, b) =>
      var x, y := Linked(a), Linked(b);
      if x.NullRead? || y.NullRead? then NullRead else Read(Comp(op, x.value, y.value))
    case Ele(a, es) =>
      var x, nodes := Linked(a), NodesOf(es);
      if x.NullRead? || nodes.NullRead? then NullRead
      else
        var elems := ElemsAt(nodes.value);
        if elems.NullRead? then NullRead else Read(Ele(x.value, elems.value))
    case Case(arms) =>
      var x := LinkedArms(arms);
      if x.NullRead? then NullRead else Read(Case(x.value))
  }

  function LinkedArms(arms: Arms): Reading<Arms>
    decreases arms
  {
    var c, x := Linked(arms.cond), Linked(arms.e);
    if c.NullRead? || x.NullRead? then NullRead
    else match arms
      case LastArm(_, _) => Read(LastArm(c.value, x.value))
      case Arm(_, _, rest) =>
        if arms.cond == Num(1) then Read(Arm(c.value, x.value, rest))
        else
          var r := LinkedArms(rest);
          if r.NullRead? then NullRead else Read(Arm(c.value, x.value, r.value))
  }

  /** The nodes of a set, a case list giving one for each arm. */
  function NodesOf(es: Elems): (r: Reading<seq<Node>>)
    ensures r.Read? ==> r.value != []
    decreases es
  {
    var first := NodesOfElem(es.e);
    if first.NullRead? then NullRead
    else match es
      case LastElem(_) => first
      case Elem(_, rest) =>
        var r := NodesOf(rest);
        if r.NullRead? then NullRead else Read(first.value + r.value)
  }

  function NodesOfElem(e: Expr): (r: Reading<seq<Node>>)
    ensures r.Read? ==> r.value != []
    decreases e, 1
  {
    match e
    case Case(arms) => NodesOfArms(arms)
    case _ =>
      var x := Linked(e);
      if x.NullRead? then NullRead else Read([Plain(x.value)])
  }

  function NodesOfArms(arms: Arms): (r: Reading<seq<Node>>)
    ensures r.Read? ==> r.value != [] && r.value[0].ArmNode?
    decreases arms
  {
    var c, x := Linked(arms.cond), Linked(arms.e);
    if c.NullRead? || x.NullRead? then NullRead
    else match arms
      case LastArm(_, _) => Read([ArmNode(c.value, x.value)])
      case Arm(_, _, rest) =>
        var r := NodesOfArms(rest);
        if r.NullRead? then NullRead else Read([ArmNode(c.value, x.value)] + r.value)
  }

  /** A null pointer is followed exactly when some node lacks an argument and no arm in front of it, from the
      one on at which the list is met, has the number 1 as its condition. */
  lemma {:induction false} NullIsFollowed(nodes: seq<Node>)
    requires nodes != []
    ensures ArmsAt(nodes).NullRead? <==> exists k :: 0 <= k < |nodes| && Dangling(nodes, k)
  {
    hide AsArm;
    var first := AsArm(nodes[0]);
    if first.NullRead? {
      assert Dangling(nodes, 0);
    } else if first.value.cond == Num(1) {
      assert forall k :: 0 < k < |nodes| ==> !Dangling(nodes, k);
    } else if |nodes| > 1 {
      NullIsFollowed(nodes[1..]);
      forall k | 0 < k < |nodes|
        ensures Dangling(nodes, k) <==> Dangling(nodes[1..], k - 1)
      {
        DanglingLater(nodes, k);
      }
      assert !Dangling(nodes, 0);
      if k :| 0 <= k < |nodes| - 1 && Dangling(nodes[1..], k) {
        assert Dangling(nodes, k + 1);
      }
    }
  }

  ghost predicate Dangling(nodes: seq<Node>, k: int)
    requires 0 <= k < |nodes|
  {
    && AsArm(nodes[k]).NullRead?
    && forall j :: 0 <= j < k ==> AsArm(nodes[j]).Read? && AsArm(nodes[j]).value.cond != Num(1)
  }

  lemma DanglingLater(nodes: seq<Node>, k: int)
    requires 0 < k < |nodes| && AsArm(nodes[0]).Read? && AsArm(nodes[0]).value.cond != Num(1)
    ensures Dangling(nodes, k) <==> Dangling(nodes[1..], k - 1)
  {
    hide AsArm;
    var later := nodes[1..];
    assert forall j {:trigger later[j]} :: 0 <= j < |later| ==> later[j] == nodes[j + 1];
    assert forall j {:trigger nodes[j]} :: 0 < j < |nodes| ==> nodes[j] == later[j - 1];
  }

  // ------------------------------------------------------------------------------------------
  // When the links are those of the source

  /** Every case list in a set has one arm, and stands last or has the number 1 as its condition. */
  predicate Kept(e: Expr) {
    match e
    case Var(_) => true
    case Num(_) => true
    case And(a, b) => Kept(a) && Kept(b)
    case Or(a, b) => Kept(a) && Kept(b)
    case Not(a) => Kept(a)
    case Comp(_, a, b) => Kept(a) && Kept(b)
    case Ele(a, es) => Kept(a) && KeptElems(es)
    case Case(arms) => KeptArms(arms)
  }

  predicate KeptElems(es: Elems) {
    && (if es.e.Case? then
          && es.e.arms.LastArm? && Kept(es.e.arms.cond) && Kept(es.e.arms.e)
          && (es.Elem? ==> es.e.arms.cond == Num(1))
        else Kept(es.e))
    && (es.Elem? ==> KeptElems(es.rest))
  }

  predicate KeptArms(arms: Arms) {
    && Kept(arms.cond) && Kept(arms.e)
    && (arms.Arm? && arms.cond != Num(1) ==> KeptArms(arms.rest))
  }

  /** gen_expr finds the expression that was written exactly then. */
  lemma {:induction false} LinksKept(e: Expr)
    ensures Linked(e) == Read(e) <==> Kept(e)
    decreases e, 1
  {
    match e
    case Var(_) =>
    case Num(_) =>
    case And(a, b) =>
      LinksKept(a);
      LinksKept(b);
    case Or(a, b) =>
      LinksKept(a);
      LinksKept(b);
    case Not(a) =>
      LinksKept(a);
    case Comp(_, a, b) =>
      LinksKept(a);
      LinksKept(b);
    case Ele(a, es) =>
      LinksKept(a);
      ElemsKept(es);
    case Case(arms) =>
      ArmsKept(arms);
  }

  lemma {:induction false} ArmsKept(arms: Arms)
    ensures LinkedArms(arms) == Read(arms) <==> KeptArms(arms)
    decreases arms, 0
  {
    LinksKept(arms.cond);
    LinksKept(arms.e);
    if arms.Arm? {
      ArmsKept(arms.rest);
    }
  }

  ghost predicate SameElems(es: Elems) {
    NodesOf(es).Read? && ElemsAt(NodesOf(es).value) == Read(es)
  }

  lemma {:induction false} ElemsKept(es: Elems)
    ensures SameElems(es) <==> KeptElems(es)
    decreases es, 1
  {
    match es
    case LastElem(e) =>
      ElementKept(e);
    case Elem(e, rest) =>
      ElemsKept(rest);
      if e.Case? {
        ListKept(e.arms, rest);
      } else {
        LinksKept(e);
        PlainFirst(e, rest);
      }
  }

  lemma {:induction false} ElementKept(e: Expr)
    ensures SameElems(LastElem(e)) <==> KeptElems(LastElem(e))
    decreases e, 2
  {
    assert NodesOf(LastElem(e)) == NodesOfElem(e);
    if e.Case? {
      LinksKept(e.arms.cond);
      LinksKept(e.arms.e);
      if NodesOfArms(e.arms).Read? {
        var nodes := NodesOfArms(e.arms).value;
        if e.arms.LastArm? {
          var n := ArmNode(Linked(e.arms.cond).value, Linked(e.arms.e).value);
          assert nodes == [n] && ArmsAt([n]) == Read(LastArm(n.cond, n.e));
          assert ElemsAt([n]) == Read(LastElem(Case(LastArm(n.cond, n.e))));
        } else {
          MoreNodes(e.arms.rest);
          if ElemsAt(nodes).Read? {
            LengthOfElems(nodes);
          }
        }
      }
    } else {
      LinksKept(e);
      if Linked(e).Read? {
        var x := Linked(e).value;
        assert ElemsAt([Plain(x)]) == Read(LastElem(x));
      }
    }
  }

  lemma PlainFirst(e: Expr, rest: Elems)
    requires !e.Case?
    ensures SameElems(Elem(e, rest)) <==> Linked(e) == Read(e) && SameElems(rest)
  {
    assert NodesOfElem(e).Read? <==> Linked(e).Read?;
    if Linked(e).Read? && NodesOf(rest).Read? {
      var x, nodes := Linked(e).value, NodesOf(rest).value;
      var all := [Plain(x)] + nodes;
      assert NodesOf(Elem(e, rest)) == Read(all) && all[1..] == nodes;
      assert ElemAt(all) == Read(x);
    }
  }

  /** A set gives a node for each element at least, so more than one arm gives too many. */
  lemma {:induction false} ListKept(arms: Arms, rest: Elems)
    requires SameElems(rest) <==> KeptElems(rest)
    ensures SameElems(Elem(Case(arms), rest)) <==> KeptElems(Elem(Case(arms), rest))
    decreases Elem(Case(arms), rest), 0
  {
    hide Kept;
    assert NodesOf(Elem(Case(arms), rest)).Read? <==> NodesOfArms(arms).Read? && NodesOf(rest).Read?;
    if arms.LastArm? {
      LinksKept(arms.cond);
      LinksKept(arms.e);
      OneArmFirst(arms.cond, arms.e, rest);
      assert arms == LastArm(arms.cond, arms.e);
    } else if NodesOfArms(arms).Read? && NodesOf(rest).Read? {
      var all := NodesOfArms(arms).value + NodesOf(rest).value;
      MoreNodes(arms.rest);
      NodesEnough(rest);
      if ElemsAt(all).Read? {
        LengthOfElems(all);
      }
    }
  }

  lemma OneArmFirst(c: Expr, e: Expr, rest: Elems)
    ensures SameElems(Elem(Case(LastArm(c, e)), rest)) <==>
      Linked(c) == Read(c) && Linked(e) == Read(e) && c == Num(1) && SameElems(rest)
  {
    var arms := LastArm(c, e);
    assert NodesOfElem(Case(arms)) == NodesOfArms(arms);
    assert NodesOfArms(arms).Read? <==> Linked(c).Read? && Linked(e).Read?;
    if Linked(c).Read? && Linked(e).Read? && NodesOf(rest).Read? {
      var n, nodes := ArmNode(Linked(c).value, Linked(e).value), NodesOf(rest).value;
      var all := [n] + nodes;
      assert NodesOfElem(Case(LastArm(c, e))) == NodesOfArms(LastArm(c, e)) == Read([n]);
      assert NodesOf(Elem(Case(LastArm(c, e)), rest)) == Read(all) && all[1..] == nodes && all[0] == n;
      assert ArmsAt(all).Read? ==>
        ArmsAt(all).value.cond == n.cond && ArmsAt(all).value.e == n.e &&
        (ArmsAt(all).value.LastArm? <==> n.cond == Num(1));
    }
  }

  function Length(es: Elems): nat { if es.LastElem? then 1 else 1 + Length(es.rest) }

  lemma {:induction false} LengthOfElems(nodes: seq<Node>)
    requires nodes != [] && ElemsAt(nodes).Read?
    ensures Length(ElemsAt(nodes).value) == |nodes|
  {
    hide ElemAt;
    if |nodes| > 1 {
      LengthOfElems(nodes[1..]);
    }
  }

  lemma {:induction false} NodesEnough(es: Elems)
    requires NodesOf(es).Read?
    ensures |NodesOf(es).value| >= Length(es)
  {
    hide NodesOfElem;
    if es.Elem? {
      NodesEnough(es.rest);
    }
  }

  lemma MoreNodes(arms: Arms)
    requires NodesOfArms(arms).Read?
    ensures |NodesOfArms(arms).value| >= 1
  {
  }

  // ------------------------------------------------------------------------------------------
  // What is emitted, and what it means

  lemma SameKind(syms: Symbols, e: Expr, want: bool)
    requires Linked(e).Read?
    ensures CheckArg(syms, Linked(e).value, want) == CheckArg(syms, e, want)
  {
  }

  ghost predicate NodesMeaningful(syms: Symbols, nodes: seq<Node>) {
    forall k {:trigger nodes[k]} :: 0 <= k < |nodes| ==>
      Meaningful(syms, nodes[k].e) && (nodes[k].ArmNode? ==> Meaningful(syms, nodes[k].cond))
  }

  lemma {:induction false} LinkedMeaningful(syms: Symbols, e: Expr)
    requires Built(syms, e) && Linked(e).Read?
    ensures Meaningful(syms, Linked(e).value)
    decreases e, 1
  {
    hide CheckArg;
    match e
    case Var(_) =>
    case Num(_) =>
    case And(a, b) =>
      LinkedMeaningful(syms, a);
      LinkedMeaningful(syms, b);
      SameKind(syms, a, true);
      SameKind(syms, b, true);
    case Or(a, b) =>
      LinkedMeaningful(syms, a);
      LinkedMeaningful(syms, b);
      SameKind(syms, a, true);
      SameKind(syms, b, true);
    case Not(a) =>
      LinkedMeaningful(syms, a);
    case Comp(_, a, b) =>
      LinkedMeaningful(syms, a);
      LinkedMeaningful(syms, b);
    case Ele(a, es) =>
      LinkedMeaningful(syms, a);
      SetMeaningful(syms, es);
      MeaningfulAt(syms, NodesOf(es).value);
    case Case(arms) =>
      ListMeaningful(syms, arms);
  }

  lemma {:induction false} ListMeaningful(syms: Symbols, arms: Arms)
    requires BuiltArms(syms, arms) && LinkedArms(arms).Read?
    ensures MeaningfulArms(syms, LinkedArms(arms).value)
    decreases arms, 0
  {
    hide CheckArg;
    LinkedMeaningful(syms, arms.cond);
    LinkedMeaningful(syms, arms.e);
    if arms.Arm? {
      if arms.cond == Num(1) {
        ArmsMeaningful(syms, arms.rest);
      } else {
        ListMeaningful(syms, arms.rest);
      }
    }
  }

  lemma {:induction false} SetMeaningful(syms: Symbols, es: Elems)
    requires BuiltElems(syms, es) && NodesOf(es).Read?
    ensures NodesMeaningful(syms, NodesOf(es).value)
    decreases es, 0
  {
    hide CheckArg, Meaningful;
    if es.e.Case? {
      ArmNodesMeaningful(syms, es.e.arms);
    } else {
      LinkedMeaningful(syms, es.e);
    }
    if es.Elem? {
      SetMeaningful(syms, es.rest);
    }
  }

  lemma {:induction false} ArmNodesMeaningful(syms: Symbols, arms: Arms)
    requires BuiltArms(syms, arms) && NodesOfArms(arms).Read?
    ensures NodesMeaningful(syms, NodesOfArms(arms).value)
    decreases arms, 0
  {
    hide CheckArg, Meaningful;
    LinkedMeaningful(syms, arms.cond);
    LinkedMeaningful(syms, arms.e);
    if arms.Arm? {
      ArmNodesMeaningful(syms, arms.rest);
    }
  }

  lemma PartsMeaningful(syms: Symbols, n: Node)
    requires Meaningful(syms, n.e) && (n.ArmNode? ==> Meaningful(syms, n.cond)) && AsArm(n).Read?
    ensures Meaningful(syms, AsArm(n).value.cond) && Meaningful(syms, AsArm(n).value.e)
  {
  }

  lemma {:induction false} ArmsAtMeaningful(syms: Symbols, nodes: seq<Node>)
    requires nodes != [] && NodesMeaningful(syms, nodes) && ArmsAt(nodes).Read?
    ensures MeaningfulArms(syms, ArmsAt(nodes).value)
  {
    hide Meaningful, AsArm;
    PartsMeaningful(syms, nodes[0]);
    if AsArm(nodes[0]).value.cond != Num(1) && |nodes| > 1 {
      ArmsAtMeaningful(syms, nodes[1..]);
    }
  }

  lemma {:induction false} MeaningfulAt(syms: Symbols, nodes: seq<Node>)
    requires nodes != [] && NodesMeaningful(syms, nodes) && ElemsAt(nodes).Read?
    ensures MeaningfulElems(syms, ElemsAt(nodes).value)
  {
    if nodes[0].ArmNode? {
      ArmsAtMeaningful(syms, nodes);
    }
    if |nodes| > 1 {
      MeaningfulAt(syms, nodes[1..]);
    }
  }

  /** For every expression built without an error report, if gen_expr does not follow a null pointer, the tokens
      it emits are one C expression with the meaning of what it finds, which is what was written exactly when
      the case lists in sets are as described. */
  lemma EmittedMeans(syms: Symbols, env: Env, e: Expr)
    requires Conforms(env, syms) && Built(syms, e) && Linked(e).Read?
    ensures var x := Linked(e).value;
      ParseExpr(Gen(x)) == Done(Tree(x), []) && CEval(env, Tree(x)) == Eval(env, x) && (x == e <==> Kept(e))
  {
    LinkedMeaningful(syms, e);
    TokensMean(syms, env, Linked(e).value);
    LinksKept(e);
  }

  // ------------------------------------------------------------------------------------------
  // Where the meaning changes

  /** The value of the first arm that holds, the nodes being read as arms. */
  function Through(env: Env, nodes: seq<Node>): word {
    if nodes == [] || AsArm(nodes[0]).NullRead? then 0
    else if Eval(env, AsArm(nodes[0]).value.cond) != 0 then Eval(env, AsArm(nodes[0]).value.e)
    else Through(env, nodes[1..])
  }

  lemma {:induction false} ArmsThrough(env: Env, nodes: seq<Node>)
    requires nodes != [] && ArmsAt(nodes).Read?
    ensures EvalArms(env, ArmsAt(nodes).value) == Through(env, nodes)
  {
    hide AsArm;
    var first := AsArm(nodes[0]).value;
    if first.cond != Num(1) && |nodes| > 1 {
      ArmsThrough(env, nodes[1..]);
    } else {
      assert first.cond == Num(1) ==> Eval(env, first.cond) == 1;
      assert |nodes| == 1 ==> nodes[1..] == [];
    }
  }

  /** The first arm that holds, or `other`. */
  function ValueOr(env: Env, arms: Arms, other: word): word {
    if Eval(env, arms.cond) != 0 then Eval(env, arms.e)
    else if arms.LastArm? then other
    else ValueOr(env, arms.rest, other)
  }

  /** The values of a case list from each of its arms on, `other` being what comes when none of them holds. */
  function Remainders(env: Env, arms: Arms, other: word): set<word> {
    {ValueOr(env, arms, other)} + if arms.LastArm? then {} else Remainders(env, arms.rest, other)
  }

  /** The members a set has as it is emitted. A case list gives one for each of its arms, and where it should
      be 0 because no arm holds it goes on with what stands behind it in the set. */
  function EmittedMembers(env: Env, es: Elems): set<word>
    requires NodesOf(es).Read?
  {
    var behind := if es.Elem? then Through(env, NodesOf(es.rest).value) else 0;
    (if es.e.Case? then Remainders(env, es.e.arms, behind) else {Eval(env, es.e)}) +
    (if es.Elem? then EmittedMembers(env, es.rest) else {})
  }

  /** Nothing but the links between the elements differs from the source. */
  predicate KeptInside(es: Elems) {
    && (if es.e.Case? then ArmsInside(es.e.arms) else Kept(es.e))
    && (es.Elem? ==> KeptInside(es.rest))
  }

  predicate ArmsInside(arms: Arms) {
    Kept(arms.cond) && Kept(arms.e) && (arms.Arm? ==> ArmsInside(arms.rest))
  }

  /** The member printed at each node. */
  function NodeValue(env: Env, nodes: seq<Node>): word
    requires nodes != []
  {
    if nodes[0].Plain? then Eval(env, nodes[0].e) else Through(env, nodes)
  }

  function NodeValues(env: Env, nodes: seq<Node>): set<word> {
    if nodes == [] then {} else {NodeValue(env, nodes)} + NodeValues(env, nodes[1..])
  }

  lemma {:induction false} MembersAt(env: Env, nodes: seq<Node>)
    requires nodes != [] && ElemsAt(nodes).Read?
    ensures Members(env, ElemsAt(nodes).value) == NodeValues(env, nodes)
  {
    hide Through, ArmsAt;
    if nodes[0].ArmNode? {
      ArmsThrough(env, nodes);
    }
    if |nodes| > 1 {
      MembersAt(env, nodes[1..]);
    } else {
      assert nodes[1..] == [];
    }
  }

  lemma {:induction false} ListValues(env: Env, arms: Arms, behind: seq<Node>)
    requires NodesOfArms(arms).Read? && ArmsInside(arms)
    ensures Through(env, NodesOfArms(arms).value + behind) == ValueOr(env, arms, Through(env, behind))
    ensures NodeValues(env, NodesOfArms(arms).value + behind) ==
      Remainders(env, arms, Through(env, behind)) + NodeValues(env, behind)
  {
    LinksKept(arms.cond);
    LinksKept(arms.e);
    var nodes := NodesOfArms(arms).value + behind;
    assert nodes[0] == ArmNode(arms.cond, arms.e);
    if arms.LastArm? {
      assert nodes[1..] == behind;
    } else {
      ListValues(env, arms.rest, behind);
      assert nodes[1..] == NodesOfArms(arms.rest).value + behind;
    }
  }

  lemma {:induction false} EmittedValues(env: Env, es: Elems)
    requires NodesOf(es).Read? && KeptInside(es)
    ensures NodeValues(env, NodesOf(es).value) == EmittedMembers(env, es)
    decreases es
  {
    hide Through, ArmsInside, Kept, NodesOfArms;
    var nodes := NodesOf(es).value;
    var behind := if es.Elem? then NodesOf(es.rest).value else [];
    if es.Elem? {
      EmittedValues(env, es.rest);
    }
    assert Through(env, []) == 0 by { NothingBehind(env); }
    if es.e.Case? {
      ListValues(env, es.e.arms, behind);
      assert nodes == NodesOfArms(es.e.arms).value + behind;
    } else {
      LinksKept(es.e);
      assert nodes == [Plain(es.e)] + behind;
      assert nodes[1..] == behind;
    }
  }

  lemma NothingBehind(env: Env)
    ensures Through(env, []) == 0
  {
  }

  /** A membership test means what was written exactly when its value is a member of the set as emitted if and
      only if it is one of the set as written. */
  lemma SharedSet(env: Env, a: Expr, es: Elems)
    requires Kept(a) && KeptInside(es) && Linked(Ele(a, es)).Read?
    ensures Eval(env, Linked(Ele(a, es)).value) == Eval(env, Ele(a, es)) <==>
      (Eval(env, a) in EmittedMembers(env, es) <==> Eval(env, a) in Members(env, es))
  {
    LinksKept(a);
    MembersAt(env, NodesOf(es).value);
    EmittedValues(env, es);
  }

  predicate LastList(es: Elems) {
    match es
    case LastElem(e) => e.Case?
    case Elem(e, rest) => !e.Case? && LastList(rest)
  }

  function ListOf(es: Elems): Arms
    requires LastList(es)
  {
    match es
    case LastElem(e) => e.arms
    case Elem(_, rest) => ListOf(rest)
  }

  /** For one case list at the end of a set what is added are the values of its proper remainders. */
  lemma {:induction false} ListAtTheEnd(env: Env, es: Elems)
    requires NodesOf(es).Read? && LastList(es)
    ensures var arms := ListOf(es);
      EmittedMembers(env, es) == Members(env, es) + if arms.LastArm? then {} else Remainders(env, arms.rest, 0)
    decreases es
  {
    match es
    case LastElem(e) =>
      OrZero(env, e.arms);
    case Elem(_, rest) =>
      ListAtTheEnd(env, rest);
  }

  lemma {:induction false} OrZero(env: Env, arms: Arms)
    ensures ValueOr(env, arms, 0) == EvalArms(env, arms)
  {
    if arms.Arm? {
      OrZero(env, arms.rest);
    }
  }

  // ------------------------------------------------------------------------------------------
  // Examples

  /** x in {[b : 1; 1 : 2]} with b = 1 and x = 2: the value of the list is 1, the emitted test succeeds. */
  lemma SharedExample(env: Env)
    requires Value(env, "b") == 1 && Value(env, "x") == 2
    ensures var e := Ele(Var("x"), LastElem(Case(Arm(Var("b"), Num(1), LastArm(Num(1), Num(2))))));
      Linked(e).Read? && Eval(env, e) == 0 && Eval(env, Linked(e).value) == 1
  {
    var rest := LastArm(Num(1), Num(2));
    var arms := Arm(Var("b"), Num(1), rest);
    var n1, n2 := ArmNode(Var("b"), Num(1)), ArmNode(Num(1), Num(2));
    assert NodesOfArms(rest) == Read([n2]) && NodesOfArms(arms) == Read([n1] + [n2]);
    assert [n1, n2] == [n1] + [n2] && [n1, n2][1..] == [n2];
    assert ArmsAt([n2]) == Read(rest) && ArmsAt([n1, n2]) == Read(arms);
    assert ElemsAt([n2]) == Read(LastElem(Case(rest)));
    assert ElemsAt([n1, n2]) == Read(Elem(Case(arms), LastElem(Case(rest))));
    assert NodesOf(LastElem(Case(arms))) == Read([n1, n2]);
    assert EvalArms(env, rest) == 2 && EvalArms(env, arms) == 1;
    assert Members(env, LastElem(Case(arms))) == {1};
    assert Members(env, LastElem(Case(rest))) == {2};
    assert Members(env, Elem(Case(arms), LastElem(Case(rest)))) == {1} + {2};
  }

  /** x in {[b : 1], 5}: behind the only arm comes a number, which has no condition. */
  lemma NullExample()
    ensures Linked(Ele(Var("x"), Elem(Case(LastArm(Var("b"), Num(1))), LastElem(Num(5))))).NullRead?
  {
    var es := Elem(Case(LastArm(Var("b"), Num(1))), LastElem(Num(5)));
    var nodes := [ArmNode(Var("b"), Num(1)), Plain(Num(5))];
    assert NodesOf(LastElem(Num(5))) == Read([Plain(Num(5))]);
    assert NodesOf(es) == Read([ArmNode(Var("b"), Num(1))] + [Plain(Num(5))]);
    assert [ArmNode(Var("b"), Num(1))] + [Plain(Num(5))] == nodes;
    assert Dangling(nodes, 1);
    NullIsFollowed(nodes);
  }

  /** x in {[b : 1], p & q} with b = 0, p = q = 1 and x = 0: the list is 0, but as emitted it goes on with p for
      a condition and q for a value. */
  lemma MisreadExample(env: Env)
    requires Value(env, "b") == 0 && Value(env, "p") == 1 && Value(env, "q") == 1 && Value(env, "x") == 0
    ensures var e := Ele(Var("x"), Elem(Case(LastArm(Var("b"), Num(1))), LastElem(And(Var("p"), Var("q")))));
      Linked(e).Read? && Eval(env, e) == 1 && Eval(env, Linked(e).value) == 0
  {
    var both := And(Var("p"), Var("q"));
    var es := Elem(Case(LastArm(Var("b"), Num(1))), LastElem(both));
    var n1, n2 := ArmNode(Var("b"), Num(1)), Plain(both);
    assert NodesOf(LastElem(both)) == Read([n2]);
    assert NodesOf(es) == Read([n1] + [n2]);
    assert [n1, n2] == [n1] + [n2] && [n1, n2][1..] == [n2];
    assert ArmsAt([n2]) == Read(LastArm(Var("p"), Var("q")));
    var arms := Arm(Var("b"), Num(1), LastArm(Var("p"), Var("q")));
    assert ArmsAt([n1, n2]) == Read(arms);
    assert ElemsAt([n1, n2]) == Read(Elem(Case(arms), LastElem(both)));
    assert EvalArms(env, LastArm(Var("p"), Var("q"))) == 1 && EvalArms(env, arms) == 1;
    assert Eval(env, both) == 1 && EvalArms(env, LastArm(Var("b"), Num(1))) == 0;
    assert Members(env, es) == {0} + {1};
    assert Members(env, Elem(Case(arms), LastElem(both))) == {1} + {1};
  }
}
