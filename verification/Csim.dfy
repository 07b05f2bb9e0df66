/** The cache simulator: sets of lines in no particular order, with a time stamp in each line. */
module Csim {
  import opened Bytes
  import opened Lru

  datatype Line = Line(valid: bool, tag: nat, lastUsed: nat)

  function UseOf(l: Line): Use { Use(l.tag, l.lastUsed) }

  function CountValid(row: seq<Line>): (n: nat)
    ensures n <= |row|
  {
    if row == [] then 0 else CountValid(row[..|row| - 1]) + if row[|row| - 1].valid then 1 else 0
  }

  /** The lines of a set hold exactly the uses the set should hold, each once. */
  ghost predicate RowOk(row: seq<Line>, stack: seq<Use>) {
    var h := Held(stack, |row|);
    && CountValid(row) == |h|
    && (forall j {:trigger row[j]} :: 0 <= j < |row| && row[j].valid ==> UseOf(row[j]) in h)
    && (forall u :: u in h ==> HasUse(row, u))
    && (forall j, k {:trigger row[j], row[k]} ::
          0 <= j < k < |row| && row[j].valid && row[k].valid ==> row[j].tag != row[k].tag)
  }

  ghost predicate HasUse(row: seq<Line>, u: Use) {
    exists j {:trigger row[j]} :: 0 <= j < |row| && row[j].valid && UseOf(row[j]) == u
  }

  // ------------------------------------------------------------------------------------------
  // Counting lines in use

  lemma {:induction false} CountUpdate(row: seq<Line>, i: nat, l: Line)
    requires i < |row|
    ensures CountValid(row[i := l]) ==
      CountValid(row) - (if row[i].valid then 1 else 0) + (if l.valid then 1 else 0)
  {
    var n := |row| - 1;
    if i < n {
      CountUpdate(row[..n], i, l);
      assert row[i := l][..n] == row[..n][i := l];
    } else {
      assert row[i := l][..n] == row[..n];
    }
  }

  lemma {:induction false} CountFull(row: seq<Line>)
    ensures CountValid(row) == |row| <==> forall j :: 0 <= j < |row| ==> row[j].valid
  {
    if row != [] {
      CountFull(row[..|row| - 1]);
    }
  }

  lemma {:induction false} CountEmpty(row: seq<Line>)
    requires forall j :: 0 <= j < |row| ==> !row[j].valid
    ensures CountValid(row) == 0
  {
    if row != [] {
      CountEmpty(row[..|row| - 1]);
    }
  }

  // ------------------------------------------------------------------------------------------
  // One access

  ghost predicate Distinct(stack: seq<Use>) {
    forall j, k {:trigger stack[j], stack[k]} :: 0 <= j < k < |stack| ==> stack[j].tag != stack[k].tag
  }

  lemma {:induction false} WithoutConcat(a: seq<Use>, b: seq<Use>, tag: nat)
    ensures Without(a + b, tag) == Without(a, tag) + Without(b, tag)
  {
    if a == [] {
      assert a + b == b;
    } else {
      assert (a + b)[1..] == a[1..] + b;
      WithoutConcat(a[1..], b, tag);
    }
  }

  lemma {:induction false} WithoutAbsent(stack: seq<Use>, tag: nat)
    requires forall k :: 0 <= k < |stack| ==> stack[k].tag != tag
    ensures Without(stack, tag) == stack
  {
    if stack != [] {
      WithoutAbsent(stack[1..], tag);
    }
  }

  lemma WithoutPresent(a: seq<Use>, x: Use, b: seq<Use>)
    requires forall k :: 0 <= k < |a| ==> a[k].tag != x.tag
    requires forall k :: 0 <= k < |b| ==> b[k].tag != x.tag
    ensures Without(a + [x] + b, x.tag) == a + b
  {
    WithoutAbsent(a, x.tag);
    WithoutAbsent(b, x.tag);
    WithoutConcat(a + [x], b, x.tag);
    WithoutConcat(a, [x], x.tag);
    assert Without([x], x.tag) == [];
    assert a + [] == a;
  }

  /** A hit replaces the use of its tag. */
  lemma HeldAfterHit(stack: seq<Use>, e: nat, tag: nat, now: nat)
    requires Distinct(stack) && Holds(Held(stack, e), tag)
    ensures var h, after := Held(stack, e), Held(Touch(stack, tag, now), e);
      |after| == |h| && forall u :: u in after <==> u == Use(tag, now) || (u in h && u.tag != tag)
  {
    hide Without, Touch;
    var h := Held(stack, e);
    var k :| 0 <= k < |h| && h[k].tag == tag;
    var a: seq<Use>, x: Use, b: seq<Use>, c: seq<Use> := stack[..k], stack[k], stack[k + 1..|h|], stack[|h|..];
    assert stack == a + [x] + (b + c) && h == a + [x] + b;
    forall j | 0 <= j < |b + c|
      ensures (b + c)[j].tag != x.tag
    {
      assert (b + c)[j] == stack[k + 1 + j];
    }
    forall j | 0 <= j < |b|
      ensures b[j].tag != x.tag
    {
      assert b[j] == stack[k + 1 + j];
    }
    WithoutPresent(a, x, b + c);
    TouchShape(a, x, b, c, tag, now, e);
    MembersReplaced(a, x, b, Use(tag, now));
    hide Held;
    assert Held(Touch(stack, tag, now), e) == [Use(tag, now)] + (a + b);
  }

  lemma TouchShape(a: seq<Use>, x: Use, b: seq<Use>, c: seq<Use>, tag: nat, now: nat, e: nat)
    requires Without(a + [x] + (b + c), tag) == a + (b + c)
    requires |a + [x] + b| == e || (|a + [x] + b| < e && c == [])
    ensures Held(Touch(a + [x] + (b + c), tag, now), e) == [Use(tag, now)] + (a + b)
  {
    assert [Use(tag, now)] + (a + (b + c)) == [Use(tag, now)] + (a + b) + c;
  }

  lemma MembersReplaced(a: seq<Use>, x: Use, b: seq<Use>, y: Use)
    requires forall k :: 0 <= k < |a| ==> a[k].tag != x.tag
    requires forall k :: 0 <= k < |b| ==> b[k].tag != x.tag
    ensures forall u :: u in [y] + (a + b) <==> u == y || (u in a + [x] + b && u.tag != x.tag)
  {
    assert forall u :: u in a + [x] + b <==> u in a || u == x || u in b;
    assert forall u :: u in a + b <==> u in a || u in b;
  }

  /** A miss in a set with room adds a use. */
  lemma HeldAfterFill(stack: seq<Use>, e: nat, tag: nat, now: nat)
    requires !Holds(Held(stack, e), tag) && |stack| < e
    ensures var h, after := Held(stack, e), Held(Touch(stack, tag, now), e);
      |after| == |h| + 1 && forall u :: u in after <==> u == Use(tag, now) || u in h
  {
    WithoutAbsent(stack, tag);
    assert Held(Touch(stack, tag, now), e) == [Use(tag, now)] + stack;
  }

  /** A miss in a full set drops the least recent use it holds. */
  lemma HeldAfterEviction(stack: seq<Use>, e: nat, tag: nat, now: nat)
    requires !Holds(Held(stack, e), tag) && 0 < e <= |stack| && Distinct(stack)
    ensures var h, after := Held(stack, e), Held(Touch(stack, tag, now), e);
      |after| == |h| && forall u :: u in after <==> u == Use(tag, now) || (u in h && u != stack[e - 1])
  {
    var a, x, c := stack[..e - 1], stack[e - 1], stack[e..];
    assert Held(stack, e) == a + [x] && stack == a + [x] + c;
    WithoutAbsent(a + [x], tag);
    WithoutConcat(a + [x], c, tag);
    EvictShape(a, x, Without(c, tag), Use(tag, now), e);
    MembersReplaced(a, x, [], Use(tag, now));
    forall k | 0 <= k < e - 1
      ensures a[k].tag != x.tag
    {
      assert a[k] == stack[k];
    }
  }

  lemma EvictShape(a: seq<Use>, x: Use, d: seq<Use>, y: Use, e: nat)
    requires e == |a| + 1
    ensures Held([y] + (a + [x] + d), e) == [y] + a
  {
  }

  /** Writing the access into line `i` is right when the uses held change in just that way. */
  lemma RowUpdated(row: seq<Line>, stack: seq<Use>, i: nat, tag: nat, now: nat)
    requires RowOk(row, stack) && i < |row|
    requires forall j :: 0 <= j < |row| && j != i && row[j].valid ==> row[j].tag != tag
    requires var h := Held(Touch(stack, tag, now), |row|);
      && |h| == |Held(stack, |row|)| + (if row[i].valid then 0 else 1)
      && forall u :: u in h <==>
           u == Use(tag, now) || (u in Held(stack, |row|) && !(row[i].valid && u == UseOf(row[i])))
    ensures RowOk(row[i := Line(true, tag, now)], Touch(stack, tag, now))
  {
    var l := Line(true, tag, now);
    var after := row[i := l];
    var h := Held(Touch(stack, tag, now), |row|);
    CountUpdate(row, i, l);
    forall j | 0 <= j < |row| && after[j].valid
      ensures UseOf(after[j]) in h
    {
      if j != i && row[i].valid {
        assert row[j].tag != row[i].tag;
      }
    }
    forall u | u in h
      ensures HasUse(after, u)
    {
      if u == Use(tag, now) {
        assert after[i].valid && UseOf(after[i]) == u;
      } else {
        var j :| 0 <= j < |row| && row[j].valid && UseOf(row[j]) == u;
        assert after[j].valid && UseOf(after[j]) == u;
      }
    }
  }

  /** The use of a matching line is the only one of its tag that is held. */
  lemma MatchHeld(row: seq<Line>, stack: seq<Use>, i: nat)
    requires RowOk(row, stack) && i < |row| && row[i].valid && Distinct(stack)
    ensures Holds(Held(stack, |row|), row[i].tag) && UseOf(row[i]) in Held(stack, |row|)
    ensures forall u: Use {:trigger u in Held(stack, |row|)} ::
      u in Held(stack, |row|) && u.tag == row[i].tag ==> u == UseOf(row[i])
    ensures forall j :: 0 <= j < |row| && j != i && row[j].valid ==> row[j].tag != row[i].tag
  {
    hide CountValid;
    var h := Held(stack, |row|);
    var k :| 0 <= k < |h| && h[k] == UseOf(row[i]);
    assert h[k].tag == row[i].tag;
    forall u: Use | u in h && u.tag == row[i].tag
      ensures u == UseOf(row[i])
    {
      var m :| 0 <= m < |h| && h[m] == u;
      assert stack[m] == u && stack[k] == h[k];
    }
    forall j | 0 <= j < |row| && j != i && row[j].valid
      ensures row[j].tag != row[i].tag
    {
    }
  }

  lemma RowHit(row: seq<Line>, stack: seq<Use>, i: nat, tag: nat, now: nat)
    requires RowOk(row, stack) && i < |row| && row[i].valid && row[i].tag == tag && Distinct(stack)
    ensures Holds(Held(stack, |row|), tag)
    ensures RowOk(row[i := Line(true, tag, now)], Touch(stack, tag, now))
  {
    hide RowOk, Touch, Distinct, Held, Holds;
    MatchHeld(row, stack, i);
    HeldAfterHit(stack, |row|, tag, now);
    RowUpdated(row, stack, i, tag, now);
  }

  /** No line matches: the access is a miss. */
  lemma RowMiss(row: seq<Line>, stack: seq<Use>, tag: nat)
    requires RowOk(row, stack) && forall j :: 0 <= j < |row| && row[j].valid ==> row[j].tag != tag
    ensures !Holds(Held(stack, |row|), tag)
  {
    var h := Held(stack, |row|);
    forall k | 0 <= k < |h|
      ensures h[k].tag != tag
    {
      assert HasUse(row, h[k]);
    }
  }

  lemma RowFill(row: seq<Line>, stack: seq<Use>, i: nat, tag: nat, now: nat)
    requires RowOk(row, stack) && i < |row| && !row[i].valid
    requires forall j :: 0 <= j < |row| && row[j].valid ==> row[j].tag != tag
    ensures |stack| < |row|
    ensures RowOk(row[i := Line(true, tag, now)], Touch(stack, tag, now))
  {
    CountFull(row);
    RowMiss(row, stack, tag);
    HeldAfterFill(stack, |row|, tag, now);
    RowUpdated(row, stack, i, tag, now);
  }

  /** In a full set the oldest stamp marks the least recent use. */
  lemma OldestIsLast(row: seq<Line>, stack: seq<Use>, i: nat)
    requires RowOk(row, stack) && i < |row| && Decreasing(stack)
    requires forall j :: 0 <= j < |row| ==> row[j].valid && row[i].lastUsed <= row[j].lastUsed
    ensures |stack| >= |row| && UseOf(row[i]) == stack[|row| - 1]
  {
    hide Decreasing;
    CountFull(row);
    var e := |row|;
    assert Held(stack, e)[e - 1] == stack[e - 1];
    assert HasUse(row, stack[e - 1]);
    var j :| 0 <= j < e && row[j].valid && UseOf(row[j]) == stack[e - 1];
    assert UseOf(row[i]) in Held(stack, e);
    var k :| 0 <= k < e && Held(stack, e)[k] == UseOf(row[i]);
    assert stack[k] == UseOf(row[i]);
    EarlierIsLater(stack, k, e - 1);
  }

  lemma EarlierIsLater(stack: seq<Use>, j: nat, k: nat)
    requires Decreasing(stack) && j <= k < |stack|
    ensures j < k ==> stack[k].time < stack[j].time
  {
  }

  lemma RowEvict(row: seq<Line>, stack: seq<Use>, i: nat, tag: nat, now: nat)
    requires RowOk(row, stack) && i < |row| && Distinct(stack) && Decreasing(stack)
    requires forall j :: 0 <= j < |row| ==> row[j].valid && row[j].tag != tag && row[i].lastUsed <= row[j].lastUsed
    ensures |stack| >= |row|
    ensures RowOk(row[i := Line(true, tag, now)], Touch(stack, tag, now))
  {
    hide RowOk, Touch, Distinct, Decreasing;
    RowMiss(row, stack, tag);
    OldestIsLast(row, stack, i);
    HeldAfterEviction(stack, |row|, tag, now);
    RowUpdated(row, stack, i, tag, now);
  }

  // ------------------------------------------------------------------------------------------
  // The simulator

  /** The lines of a trace file that are not instruction fetches. */
  datatype Op = Load(address: nat) | Store(address: nat) | Modify(address: nat) | Other

  /** The accesses an operation makes. */
  function OpAccesses(op: Op): seq<nat> {
    match op
    case Load(a) => [a]
    case Store(a) => [a]
    case Modify(a) => [a, a]
    case Other => []
  }

  function Accesses(ops: seq<Op>): seq<nat> {
    if ops == [] then []
    else
      var n := |ops| - 1;
      Accesses(ops[..n]) + OpAccesses(ops[n])
  }

  class Cache {
    const shape: Shape
    const E: nat
    const lines: array2<Line>
    var hit: int
    var miss: int
    var eviction: int
    var useLog: int
    ghost var trace: seq<nat>

    function Row(i: nat): seq<Line>
      requires i < lines.Length0
      reads lines
    {
      seq(lines.Length1, j requires 0 <= j < lines.Length1 reads lines => lines[i, j])
    }

    ghost predicate RowsOk()
      requires lines.Length0 == Pow2(shape.s)
      reads this`trace, lines
    {
      forall i {:trigger Row(i)} :: 0 <= i < lines.Length0 ==> RowOk(Row(i), Stack(shape, trace, i))
    }

    ghost predicate Valid()
      reads this, lines
    {
      && 0 < E == lines.Length1 && lines.Length0 == Pow2(shape.s)
      && hit == Hits(shape, E, trace) && miss == Misses(shape, E, trace) && eviction == Evictions(shape, E, trace)
      && useLog == |trace|
      && RowsOk()
    }

    /** initCache */
    constructor (s: nat, e: nat, b: nat)
      requires e > 0
      ensures Valid() && trace == [] && shape == Shape(s, b) && E == e && fresh(lines)
    {
      shape, E := Shape(s, b), e;
      lines := new Line[Pow2(s), e]((i, j) => Line(false, 0, 0));
      hit, miss, eviction, useLog := 0, 0, 0, 0;
      trace := [];
      new;
      forall i | 0 <= i < lines.Length0
        ensures RowOk(Row(i), [])
      {
        CountEmpty(Row(i));
      }
    }

    /** The three searches of load: the line holding `tag`, a line not in use, the line used longest ago. */
    method FindTag(i: nat, tag: nat) returns (j: nat)
      requires i < lines.Length0 && E == lines.Length1
      ensures j <= E
      ensures forall k :: 0 <= k < j ==> !(Row(i)[k].valid && Row(i)[k].tag == tag)
      ensures j < E ==> Row(i)[j].valid && Row(i)[j].tag == tag
    {
      j := 0;
      while j < E
        invariant 0 <= j <= E
        invariant forall k :: 0 <= k < j ==> !(Row(i)[k].valid && Row(i)[k].tag == tag)
      {
        if lines[i, j].valid && lines[i, j].tag == tag {
          return;
        }
        j := j + 1;
      }
    }

    method FindInvalid(i: nat) returns (j: nat)
      requires i < lines.Length0 && E == lines.Length1
      ensures j <= E
      ensures forall k :: 0 <= k < j ==> Row(i)[k].valid
      ensures j < E ==> !Row(i)[j].valid
    {
      j := 0;
      while j < E
        invariant 0 <= j <= E
        invariant forall k :: 0 <= k < j ==> Row(i)[k].valid
      {
        if !lines[i, j].valid {
          return;
        }
        j := j + 1;
      }
    }

    method FindOldest(i: nat) returns (min: nat)
      requires i < lines.Length0 && 0 < E == lines.Length1
      ensures min < E
      ensures forall k :: 0 <= k < E ==> Row(i)[min].lastUsed <= Row(i)[k].lastUsed
    {
      min := 0;
      for j := 1 to E
        invariant 0 <= min < E
        invariant forall k :: 0 <= k < j ==> Row(i)[min].lastUsed <= Row(i)[k].lastUsed
      {
        if lines[i, j].lastUsed < lines[i, min].lastUsed {
          min := j;
        }
      }
    }

    /** load: one access. */
    method Load(address: nat)
      requires Valid() && useLog < MAX_INT
      modifies this`hit, this`miss, this`eviction, this`useLog, this`trace, lines
      ensures Valid() && trace == old(trace) + [address]
    {
      hide RowOk, Hits, Misses, Evictions, Stack, Touch, TagOf, SetOf, Row, Hit, Held, Decreasing, Distinct;
      var tag, i := TagOf(shape, address), SetOf(shape, address);
      StackFacts(shape, trace, i);
      Appended(shape, E, trace, address);
      RowSize(i);
      assert RowOk(Row(i), Stack(shape, trace, i));
      var j := FindTag(i, tag);
      if j < E {
        RowHit(Row(i), Stack(shape, trace, i), j, tag, useLog);
        HitMeansHeld(i, address);
        hit := hit + 1;
      } else {
        RowMiss(Row(i), Stack(shape, trace, i), tag);
        HitMeansHeld(i, address);
        miss := miss + 1;
        j := FindInvalid(i);
        if j < E {
          RowFill(Row(i), Stack(shape, trace, i), j, tag, useLog);
        } else {
          eviction := eviction + 1;
          j := FindOldest(i);
          RowEvict(Row(i), Stack(shape, trace, i), j, tag, useLog);
        }
      }
      SetLine(i, j, tag, address);
    }

    lemma HitMeansHeld(i: nat, address: nat)
      requires i == SetOf(shape, address)
      ensures Hit(shape, E, trace, address) <==> Holds(Held(Stack(shape, trace, i), E), TagOf(shape, address))
    {
    }

    lemma RowSize(i: nat)
      requires i < lines.Length0
      ensures |Row(i)| == lines.Length1
    {
    }

    /** The line is stamped with the clock, and the clock advances. */
    method SetLine(i: nat, j: nat, tag: nat, address: nat)
      requires lines.Length0 == Pow2(shape.s) && i == SetOf(shape, address) && tag == TagOf(shape, address)
      requires j < lines.Length1 && useLog == |trace| && RowsOk()
      requires RowOk(Row(i)[j := Line(true, tag, useLog)], Touch(Stack(shape, trace, i), tag, useLog))
      modifies this`useLog, this`trace, lines
      ensures RowsOk() && trace == old(trace) + [address] && useLog == |trace|
    {
      hide RowOk, Touch, TagOf, SetOf;
      lines[i, j] := Line(true, tag, useLog);
      trace := trace + [address];
      useLog := useLog + 1;
      assert trace[..|trace| - 1] == old(trace);
      forall k {:trigger Row(k)} | 0 <= k < lines.Length0
        ensures RowOk(Row(k), Stack(shape, trace, k))
      {
        if k == i {
          assert Row(k) == old(Row(k))[j := Line(true, tag, useLog - 1)];
        } else {
          assert Row(k) == old(Row(k));
          assert RowOk(old(Row(k)), Stack(shape, old(trace), k));
        }
      }
    }

    /** store */
    method Store(address: nat)
      requires Valid() && useLog < MAX_INT
      modifies this`hit, this`miss, this`eviction, this`useLog, this`trace, lines
      ensures Valid() && trace == old(trace) + [address]
    {
      Load(address);
    }
  }

  lemma StackFacts(c: Shape, trace: seq<nat>, i: nat)
    ensures Distinct(Stack(c, trace, i)) && Decreasing(Stack(c, trace, i))
  {
    StackIsLastUses(c, trace, i);
    forall j, k | 0 <= j < k < |Stack(c, trace, i)|
      ensures Stack(c, trace, i)[j].tag != Stack(c, trace, i)[k].tag
    {
      TagsDistinct(c, trace, i, j, k);
    }
  }

  /** The counts after one more access. */
  lemma Appended(c: Shape, e: nat, trace: seq<nat>, a: nat)
    ensures Hits(c, e, trace + [a]) == Hits(c, e, trace) + if Hit(c, e, trace, a) then 1 else 0
    ensures Misses(c, e, trace + [a]) == Misses(c, e, trace) + if Hit(c, e, trace, a) then 0 else 1
    ensures Evictions(c, e, trace + [a]) == Evictions(c, e, trace) + if Evicts(c, e, trace, a) then 1 else 0
  {
    assert (trace + [a])[..|trace|] == trace;
  }

  /** The dispatch in main on the operation's letter. */
  method Dispatch(cache: Cache, op: Op)
    requires cache.Valid() && cache.useLog + |OpAccesses(op)| <= MAX_INT
    modifies cache`hit, cache`miss, cache`eviction, cache`useLog, cache`trace, cache.lines
    ensures cache.Valid() && cache.trace == old(cache.trace) + OpAccesses(op)
  {
    hide cache.RowsOk;
    match op {
      case Load(a) =>
        cache.Load(a);
      case Store(a) =>
        cache.Store(a);
      case Modify(a) =>
        cache.Load(a);
        cache.Store(a);
      case Other =>
    }
  }

  /** main: the trace file's operations in order, on a new cache. */
  method Simulate(s: nat, e: nat, b: nat, ops: seq<Op>) returns (hit: int, miss: int, eviction: int)
    requires e > 0 && |Accesses(ops)| <= MAX_INT
    ensures hit == Hits(Shape(s, b), e, Accesses(ops))
    ensures miss == Misses(Shape(s, b), e, Accesses(ops))
    ensures eviction == Evictions(Shape(s, b), e, Accesses(ops))
  {
    hide Hits, Misses, Evictions, OpAccesses;
    var cache := new Cache(s, e, b);
    for i := 0 to |ops|
      invariant cache.Valid() && cache.trace == Accesses(ops[..i])
      invariant cache.shape == Shape(s, b) && cache.E == e
      invariant fresh(cache) && fresh(cache.lines)
    {
      assert ops[..i + 1][..i] == ops[..i];
      AccessesGrow(ops, i + 1);
      Dispatch(cache, ops[i]);
    }
    assert ops[..|ops|] == ops;
    return cache.hit, cache.miss, cache.eviction;
  }

  lemma {:induction false} AccessesGrow(ops: seq<Op>, i: nat)
    requires i <= |ops|
    ensures |Accesses(ops[..i])| <= |Accesses(ops)|
    decreases |ops|
  {
    if i < |ops| {
      var rest := ops[..|ops| - 1];
      assert rest[..i] == ops[..i];
      AccessesGrow(rest, i);
    } else {
      assert ops[..i] == ops;
    }
  }

  // ------------------------------------------------------------------------------------------
  // Caches compared

  /** On the same accesses, whatever tag a cache with fewer lines holds, one with more lines holds too. */
  lemma LargerHoldsMore(small: Cache, large: Cache, i: nat, j: nat)
    requires small.Valid() && large.Valid() && small.shape == large.shape && small.trace == large.trace
    requires small.E <= large.E && i < Pow2(small.shape.s) && j < small.E && small.lines[i, j].valid
    ensures exists k :: 0 <= k < large.E && large.lines[i, k].valid && large.lines[i, k].tag == small.lines[i, j].tag
    ensures small.hit <= large.hit && large.miss <= small.miss
  {
    var stack := Stack(small.shape, small.trace, i);
    var l := small.Row(i)[j];
    assert UseOf(l) in Held(stack, small.E);
    assert UseOf(l) in Held(stack, large.E);
    assert HasUse(large.Row(i), UseOf(l));
    var k :| 0 <= k < large.E && large.Row(i)[k].valid && UseOf(large.Row(i)[k]) == UseOf(l);
    assert large.lines[i, k].valid && large.lines[i, k].tag == small.lines[i, j].tag;
    HitsMonotone(small.shape, small.E, large.E, small.trace);
  }

  /** Every valid line's stamp is the time of the last use of its tag; no two lines anywhere share a stamp;
      and a set holds exactly its most recently used tags. */
  lemma LinesAreRecent(c: Cache, i: nat, j: nat)
    requires c.Valid() && i < Pow2(c.shape.s) && j < c.E && c.lines[i, j].valid
    ensures LastUse(c.shape, c.trace, i, UseOf(c.lines[i, j]))
    ensures |UsedSince(c.shape, c.trace, i, c.lines[i, j].lastUsed)| < c.E
  {
    var stack := Stack(c.shape, c.trace, i);
    StackIsLastUses(c.shape, c.trace, i);
    var u := UseOf(c.Row(i)[j]);
    assert u in Held(stack, c.E);
    var k :| 0 <= k < |Held(stack, c.E)| && Held(stack, c.E)[k] == u;
    assert stack[k] == u;
    StackDistance(c.shape, c.trace, i, k);
  }

  lemma StampsDistinct(c: Cache, i: nat, j: nat, i': nat, j': nat)
    requires c.Valid() && i < Pow2(c.shape.s) && j < c.E && i' < Pow2(c.shape.s) && j' < c.E
    requires c.lines[i, j].valid && c.lines[i', j'].valid && (i, j) != (i', j')
    ensures c.lines[i, j].lastUsed != c.lines[i', j'].lastUsed
  {
    LinesAreRecent(c, i, j);
    LinesAreRecent(c, i', j');
    if i == i' {
      assert c.Row(i)[j].tag != c.Row(i)[j'].tag;
    }
  }

  /** The counters: every access is a hit or a miss, and the misses that evicted nothing fill the lines. */
  lemma CountersAgree(c: Cache)
    requires c.Valid()
    ensures c.hit + c.miss == c.useLog == |c.trace|
    ensures c.miss - c.eviction == LinesInUse(c, Pow2(c.shape.s))
  {
    AllCounted(c.shape, c.E, c.trace);
    MissesFill(c.shape, c.E, c.trace);
    RowsInUse(c, Pow2(c.shape.s));
  }

  ghost function LinesInUse(c: Cache, n: nat): nat
    requires n <= c.lines.Length0
    reads c, c.lines
  {
    if n == 0 then 0 else LinesInUse(c, n - 1) + CountValid(c.Row(n - 1))
  }

  lemma {:induction false} RowsInUse(c: Cache, n: nat)
    requires c.Valid() && n <= c.lines.Length0
    ensures LinesInUse(c, n) == InUse(c.shape, c.E, c.trace, n)
  {
    if n > 0 {
      RowsInUse(c, n - 1);
      assert RowOk(c.Row(n - 1), Stack(c.shape, c.trace, n - 1));
    }
  }

  /** The store of a modify operation always hits. */
  lemma {:induction false} SecondAccessHits(c: Shape, e: nat, trace: seq<nat>, a: nat)
    requires e > 0
    ensures Hit(c, e, trace + [a], a)
  {
    assert (trace + [a])[..|trace|] == trace;
    assert Held(Stack(c, trace + [a], SetOf(c, a)), e)[0].tag == TagOf(c, a);
  }
}
