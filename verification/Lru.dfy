/** Least-recently-used replacement as a stack of uses: the specification of the cache simulator. */
module Lru {
  import opened Bytes

  /** A tag and the time of its latest use. */
  datatype Use = Use(tag: nat, time: nat)

  /** How addresses are cut: `b` block offset bits, `s` set index bits, the rest is the tag. */
  datatype Shape = Shape(s: nat, b: nat)

  function TagOf(c: Shape, address: nat): nat { Shift(address, c.s + c.b) }

  function SetOf(c: Shape, address: nat): (i: nat)
    ensures i < Pow2(c.s)
  {
    Shift(address, c.b) % Pow2(c.s)
  }

  /** The stack without the uses of `tag`. */
  function Without(stack: seq<Use>, tag: nat): (r: seq<Use>)
    ensures forall u :: u in r <==> u in stack && u.tag != tag
  {
    if stack == [] then []
    else if stack[0].tag == tag then Without(stack[1..], tag)
    else [stack[0]] + Without(stack[1..], tag)
  }

  function Touch(stack: seq<Use>, tag: nat, now: nat): seq<Use> { [Use(tag, now)] + Without(stack, tag) }

  /** The uses of set `i` after the accesses `trace`: every tag once, the latest first. */
  function Stack(c: Shape, trace: seq<nat>, i: nat): seq<Use> {
    if trace == [] then []
    else
      var n := |trace| - 1;
      var before := Stack(c, trace[..n], i);
      if SetOf(c, trace[n]) == i then Touch(before, TagOf(c, trace[n]), n) else before
  }

  /** What a set of `e` lines holds: the first `e` uses, or all there are. */
  function Held(stack: seq<Use>, e: nat): (r: seq<Use>)
    ensures |r| == if |stack| < e then |stack| else e
  {
    if |stack| < e then stack else stack[..e]
  }

  ghost predicate Holds(stack: seq<Use>, tag: nat) {
    exists k {:trigger stack[k]} :: 0 <= k < |stack| && stack[k].tag == tag
  }

  // ------------------------------------------------------------------------------------------
  // The stack is what its description says

  /** `time` is the last access to `tag` in set `i`. */
  ghost predicate LastUse(c: Shape, trace: seq<nat>, i: nat, u: Use) {
    && u.time < |trace| && SetOf(c, trace[u.time]) == i && TagOf(c, trace[u.time]) == u.tag
    && forall j {:trigger trace[j]} :: u.time < j < |trace| && SetOf(c, trace[j]) == i ==> TagOf(c, trace[j]) != u.tag
  }

  ghost predicate Decreasing(stack: seq<Use>) {
    forall j, k {:trigger stack[j], stack[k]} :: 0 <= j < k < |stack| ==> stack[k].time < stack[j].time
  }

  lemma {:induction false} WithoutKeepsOrder(stack: seq<Use>, tag: nat)
    requires Decreasing(stack)
    ensures Decreasing(Without(stack, tag))
  {
    if stack != [] {
      var rest := stack[1..];
      WithoutKeepsOrder(rest, tag);
      forall u | u in Without(rest, tag)
        ensures u.time < stack[0].time
      {
        var k :| 0 <= k < |rest| && rest[k] == u;
        assert stack[k + 1] == u;
      }
    }
  }

  /** The stack lists exactly the last uses of the tags of its set, the latest first. */
  lemma {:induction false} StackIsLastUses(c: Shape, trace: seq<nat>, i: nat)
    ensures Decreasing(Stack(c, trace, i))
    ensures forall u {:trigger LastUse(c, trace, i, u)} :: u in Stack(c, trace, i) <==> LastUse(c, trace, i, u)
  {
    if trace != [] {
      var n := |trace| - 1;
      var t := trace[..n];
      StackIsLastUses(c, t, i);
      var before := Stack(c, t, i);
      forall u
        ensures u in Stack(c, trace, i) <==> LastUse(c, trace, i, u)
      {
        LastUseStep(c, trace, i, u);
        assert u in before <==> LastUse(c, t, i, u);
      }
      WithoutKeepsOrder(before, TagOf(c, trace[n]));
      forall u | u in before
        ensures u.time < n
      {
        assert LastUse(c, t, i, u);
      }
    }
  }

  /** One more access: its own tag's last use is now, other tags of the set keep theirs. */
  lemma LastUseStep(c: Shape, trace: seq<nat>, i: nat, u: Use)
    requires trace != []
    ensures var n := |trace| - 1; var tag := TagOf(c, trace[n]);
      LastUse(c, trace, i, u) <==>
        if SetOf(c, trace[n]) == i && u.tag == tag then u == Use(tag, n) else LastUse(c, trace[..n], i, u)
  {
    var n := |trace| - 1;
    assert forall j :: 0 <= j < n ==> trace[..n][j] == trace[j];
    if LastUse(c, trace[..n], i, u) && !(SetOf(c, trace[n]) == i && u.tag == TagOf(c, trace[n])) {
      assert forall j :: u.time < j < n ==> trace[..n][j] == trace[j];
    }
    if LastUse(c, trace, i, u) && u.time < n {
      forall j | u.time < j < n && SetOf(c, trace[..n][j]) == i
        ensures TagOf(c, trace[..n][j]) != u.tag
      {
        assert trace[..n][j] == trace[j];
      }
    }
  }

  lemma TagsDistinct(c: Shape, trace: seq<nat>, i: nat, j: nat, k: nat)
    requires j < k < |Stack(c, trace, i)|
    ensures Stack(c, trace, i)[j].tag != Stack(c, trace, i)[k].tag
  {
    StackIsLastUses(c, trace, i);
    var stack := Stack(c, trace, i);
    assert LastUse(c, trace, i, stack[j]) && LastUse(c, trace, i, stack[k]);
    assert stack[k].time < stack[j].time;
  }

  /** The tags used in set `i` after time `k`. */
  ghost function UsedSince(c: Shape, trace: seq<nat>, i: nat, k: nat): set<nat> {
    set j {:trigger trace[j]} | k < j < |trace| && SetOf(c, trace[j]) == i :: TagOf(c, trace[j])
  }

  function TagSet(stack: seq<Use>): (r: set<nat>)
    ensures forall t :: t in r <==> Holds(stack, t)
  {
    set k {:trigger stack[k]} | 0 <= k < |stack| :: stack[k].tag
  }

  lemma {:induction false} TagSetSize(stack: seq<Use>)
    requires forall j, k {:trigger stack[j], stack[k]} :: 0 <= j < k < |stack| ==> stack[j].tag != stack[k].tag
    ensures |TagSet(stack)| == |stack|
  {
    if stack != [] {
      var n := |stack| - 1;
      var rest := stack[..n];
      assert forall k :: 0 <= k < n ==> rest[k] == stack[k];
      TagSetSize(rest);
      assert TagSet(stack) == TagSet(rest) + {stack[n].tag};
    }
  }

  /** Position in the stack is reuse distance: the number of other tags used since. */
  lemma StackDistance(c: Shape, trace: seq<nat>, i: nat, k: nat)
    requires k < |Stack(c, trace, i)|
    ensures |UsedSince(c, trace, i, Stack(c, trace, i)[k].time)| == k
  {
    var stack := Stack(c, trace, i);
    StackIsLastUses(c, trace, i);
    forall a, b | 0 <= a < b < k
      ensures stack[..k][a].tag != stack[..k][b].tag
    {
      TagsDistinct(c, trace, i, a, b);
    }
    TagSetSize(stack[..k]);
    UsedSinceIsTop(c, trace, i, k);
  }

  lemma UsedSinceIsTop(c: Shape, trace: seq<nat>, i: nat, k: nat)
    requires k < |Stack(c, trace, i)|
    ensures UsedSince(c, trace, i, Stack(c, trace, i)[k].time) == TagSet(Stack(c, trace, i)[..k])
  {
    var stack := Stack(c, trace, i);
    var time := stack[k].time;
    StackIsLastUses(c, trace, i);
    forall t | t in UsedSince(c, trace, i, time)
      ensures t in TagSet(stack[..k])
    {
      var j :| time < j < |trace| && SetOf(c, trace[j]) == i && TagOf(c, trace[j]) == t;
      var u := LastUseExists(c, trace, i, j);
      var p :| 0 <= p < |stack| && stack[p] == u;
      assert p < k;
      assert stack[..k][p] == u;
    }
    forall t | t in TagSet(stack[..k])
      ensures t in UsedSince(c, trace, i, time)
    {
      var p :| 0 <= p < k && stack[..k][p].tag == t;
      assert LastUse(c, trace, i, stack[p]) && stack[k].time < stack[p].time;
      assert trace[stack[p].time] == trace[stack[p].time];
    }
  }

  /** Every access has a last use of its tag at or after it. */
  lemma {:induction false} LastUseExists(c: Shape, trace: seq<nat>, i: nat, j: nat) returns (u: Use)
    requires j < |trace| && SetOf(c, trace[j]) == i
    ensures LastUse(c, trace, i, u) && u.tag == TagOf(c, trace[j]) && u.time >= j
    decreases |trace| - j
  {
    var tag := TagOf(c, trace[j]);
    if k :| j < k < |trace| && SetOf(c, trace[k]) == i && TagOf(c, trace[k]) == tag {
      u := LastUseExists(c, trace, i, k);
    } else {
      u := Use(tag, j);
    }
  }

  // ------------------------------------------------------------------------------------------
  // Hits, misses and evictions of a run

  /** The access to `a` after `trace` finds its tag among the first `e` uses. */
  ghost predicate Hit(c: Shape, e: nat, trace: seq<nat>, a: nat) {
    Holds(Held(Stack(c, trace, SetOf(c, a)), e), TagOf(c, a))
  }

  /** It is a hit exactly when its tag was used before and fewer than `e` other tags of the set since. */
  lemma HitMeansRecent(c: Shape, e: nat, trace: seq<nat>, a: nat)
    ensures Hit(c, e, trace, a) <==>
      exists u {:trigger LastUse(c, trace, SetOf(c, a), u)} ::
        LastUse(c, trace, SetOf(c, a), u) && u.tag == TagOf(c, a) && |UsedSince(c, trace, SetOf(c, a), u.time)| < e
  {
    var i := SetOf(c, a);
    var stack := Stack(c, trace, i);
    StackIsLastUses(c, trace, i);
    if Hit(c, e, trace, a) {
      var k :| 0 <= k < |Held(stack, e)| && Held(stack, e)[k].tag == TagOf(c, a);
      StackDistance(c, trace, i, k);
      assert LastUse(c, trace, i, stack[k]);
    }
    if u :| LastUse(c, trace, i, u) && u.tag == TagOf(c, a) && |UsedSince(c, trace, i, u.time)| < e {
      var k :| 0 <= k < |stack| && stack[k] == u;
      StackDistance(c, trace, i, k);
      assert Held(stack, e)[k] == u;
    }
  }

  ghost function Hits(c: Shape, e: nat, trace: seq<nat>): nat {
    if trace == [] then 0
    else var n := |trace| - 1; Hits(c, e, trace[..n]) + if Hit(c, e, trace[..n], trace[n]) then 1 else 0
  }

  ghost function Misses(c: Shape, e: nat, trace: seq<nat>): nat {
    if trace == [] then 0
    else var n := |trace| - 1; Misses(c, e, trace[..n]) + if Hit(c, e, trace[..n], trace[n]) then 0 else 1
  }

  /** A miss in a full set. */
  ghost predicate Evicts(c: Shape, e: nat, trace: seq<nat>, a: nat) {
    !Hit(c, e, trace, a) && |Stack(c, trace, SetOf(c, a))| >= e
  }

  ghost function Evictions(c: Shape, e: nat, trace: seq<nat>): nat {
    if trace == [] then 0
    else var n := |trace| - 1; Evictions(c, e, trace[..n]) + if Evicts(c, e, trace[..n], trace[n]) then 1 else 0
  }

  lemma {:induction false} AllCounted(c: Shape, e: nat, trace: seq<nat>)
    ensures Hits(c, e, trace) + Misses(c, e, trace) == |trace|
  {
    if trace != [] {
      AllCounted(c, e, trace[..|trace| - 1]);
    }
  }

  /** Inclusion: what fewer lines hold, more lines hold too. */
  lemma Inclusion(c: Shape, e: nat, f: nat, trace: seq<nat>, i: nat, tag: nat)
    requires e <= f && Holds(Held(Stack(c, trace, i), e), tag)
    ensures Holds(Held(Stack(c, trace, i), f), tag)
  {
    var stack := Stack(c, trace, i);
    var k :| 0 <= k < |Held(stack, e)| && Held(stack, e)[k].tag == tag;
    assert Held(stack, f)[k].tag == tag;
  }

  /** More lines never hit less often. */
  lemma {:induction false} HitsMonotone(c: Shape, e: nat, f: nat, trace: seq<nat>)
    requires e <= f
    ensures Hits(c, e, trace) <= Hits(c, f, trace) && Misses(c, f, trace) <= Misses(c, e, trace)
  {
    if trace != [] {
      var t, a := trace[..|trace| - 1], trace[|trace| - 1];
      HitsMonotone(c, e, f, t);
      if Hit(c, e, t, a) {
        Inclusion(c, e, f, t, SetOf(c, a), TagOf(c, a));
      }
    }
  }

  lemma {:induction false} WithoutSize(stack: seq<Use>, tag: nat)
    requires forall j, k {:trigger stack[j], stack[k]} :: 0 <= j < k < |stack| ==> stack[j].tag != stack[k].tag
    ensures |Without(stack, tag)| == |stack| - (if Holds(stack, tag) then 1 else 0)
  {
    if stack != [] {
      var rest := stack[1..];
      assert forall k :: 0 <= k < |rest| ==> rest[k] == stack[k + 1];
      WithoutSize(rest, tag);
      if Holds(rest, tag) {
        var k :| 0 <= k < |rest| && rest[k].tag == tag;
        assert stack[k + 1].tag == tag;
      }
      if Holds(stack, tag) && stack[0].tag != tag {
        var k :| 0 <= k < |stack| && stack[k].tag == tag;
        assert rest[k - 1].tag == tag;
      }
    }
  }

  lemma TouchSize(c: Shape, trace: seq<nat>, i: nat, tag: nat, now: nat)
    ensures var stack := Stack(c, trace, i);
      |Touch(stack, tag, now)| == |stack| + if Holds(stack, tag) then 0 else 1
  {
    forall j, k | 0 <= j < k < |Stack(c, trace, i)|
      ensures Stack(c, trace, i)[j].tag != Stack(c, trace, i)[k].tag
    {
      TagsDistinct(c, trace, i, j, k);
    }
    WithoutSize(Stack(c, trace, i), tag);
  }

  /** The number of lines in use in the first `n` sets. */
  ghost function InUse(c: Shape, e: nat, trace: seq<nat>, n: nat): nat {
    if n == 0 then 0 else InUse(c, e, trace, n - 1) + |Held(Stack(c, trace, n - 1), e)|
  }

  /** One access changes the number held in its own set only, and only when it fills a line. */
  lemma HeldStep(c: Shape, e: nat, trace: seq<nat>, a: nat, i: nat)
    ensures |Held(Stack(c, trace + [a], i), e)| == |Held(Stack(c, trace, i), e)| +
      if SetOf(c, a) == i && !Hit(c, e, trace, a) && !Evicts(c, e, trace, a) then 1 else 0
  {
    assert (trace + [a])[..|trace|] == trace;
    var stack, tag := Stack(c, trace, i), TagOf(c, a);
    TouchSize(c, trace, i, tag, |trace|);
    if SetOf(c, a) == i && Holds(Held(stack, e), tag) {
      var k :| 0 <= k < |Held(stack, e)| && Held(stack, e)[k].tag == tag;
      assert stack[k].tag == tag;
    }
  }

  lemma {:induction false} InUseStep(c: Shape, e: nat, trace: seq<nat>, a: nat, n: nat)
    ensures InUse(c, e, trace + [a], n) == InUse(c, e, trace, n) +
      if SetOf(c, a) < n && !Hit(c, e, trace, a) && !Evicts(c, e, trace, a) then 1 else 0
  {
    hide Stack, Held, Hit, Evicts, SetOf;
    if n > 0 {
      InUseStep(c, e, trace, a, n - 1);
      HeldStep(c, e, trace, a, n - 1);
    }
  }

  lemma {:induction false} NothingInUse(c: Shape, e: nat, n: nat)
    ensures InUse(c, e, [], n) == 0
  {
    if n > 0 {
      NothingInUse(c, e, n - 1);
    }
  }

  /** The lines in use are the misses that evicted nothing. */
  lemma {:induction false} MissesFill(c: Shape, e: nat, trace: seq<nat>)
    ensures Misses(c, e, trace) - Evictions(c, e, trace) == InUse(c, e, trace, Pow2(c.s))
  {
    if trace == [] {
      NothingInUse(c, e, Pow2(c.s));
    } else {
      var t, a := trace[..|trace| - 1], trace[|trace| - 1];
      MissesFill(c, e, t);
      InUseStep(c, e, t, a, Pow2(c.s));
      assert t + [a] == trace;
    }
  }
}
