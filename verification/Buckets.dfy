/** Which of the 16 segregated lists holds a free block of a given size. */
module Buckets {
  import opened Bytes

  const LISTMAX := 16
  const LINEARMAX := 2

  /** The largest block size list `k` may hold; the last list has no limit. */
  function Limit(k: nat): nat {
    if k == 0 then 16 else if k == 1 then 24 else Pow2(k + 3)
  }

  /** The first list from `k` on whose limit is not exceeded by `size`. */
  function FirstFrom(k: nat, size: nat): (r: nat)
    requires k < LISTMAX
    ensures k <= r < LISTMAX
    ensures r < LISTMAX - 1 ==> size <= Limit(r)
    ensures r > k ==> size > Limit(r - 1)
    decreases LISTMAX - k
  {
    if k == LISTMAX - 1 || size <= Limit(k) then k else FirstFrom(k + 1, size)
  }

  function BucketOf(size: nat): (k: nat)
    ensures k < LISTMAX
  {
    FirstFrom(0, size)
  }

  lemma LimitsGrow(j: nat, k: nat)
    requires j <= k
    ensures Limit(j) <= Limit(k)
    decreases k - j
  {
    if j < k {
      assert Pow2(5) == 32;
      LimitsGrow(j + 1, k);
    }
  }

  /** List `k` holds exactly the sizes in (Limit(k-1), Limit(k)]. */
  lemma BucketRange(size: nat, k: nat)
    requires k < LISTMAX
    ensures BucketOf(size) == k <==>
      (k == 0 || Limit(k - 1) < size) && (k == LISTMAX - 1 || size <= Limit(k))
  {
    var r := BucketOf(size);
    if r < k {
      LimitsGrow(r, k - 1);
    } else if k < r {
      LimitsGrow(k, r - 1);
    }
  }

  /** The bounds written out: 16, 24, 32, then (2^(k+2), 2^(k+3)], then everything above 2^17. */
  lemma BucketClosedForm(size: nat, k: nat)
    requires size % 8 == 0 && size >= 16 && k < LISTMAX
    ensures BucketOf(size) == k <==>
      if k == 0 then size == 16
      else if k == 1 then size == 24
      else if k == 2 then size == 32
      else if k < 15 then Pow2(k + 2) < size <= Pow2(k + 3)
      else 131072 < size
  {
    BucketRange(size, k);
    assert Pow2(5) == 32;
    if k == 15 {
      assert Pow2(11) == 2048;
      assert Pow2(17) == 131072;
    }
  }

  /** A larger block is never kept in an earlier list. */
  lemma BucketMonotone(s: nat, t: nat)
    requires s <= t
    ensures BucketOf(s) <= BucketOf(t)
  {
    var j, k := BucketOf(s), BucketOf(t);
    if k < j {
      LimitsGrow(k, j - 1);
    }
  }

  lemma {:induction false} ShiftNext(x: nat, n: nat)
    ensures Shift(x, n + 1) == Shift(x, n) / 2
  {
    if n > 0 {
      ShiftNext(x / 2, n - 1);
    }
  }

  lemma {:induction false} ShiftZero(x: nat, n: nat)
    ensures Shift(x, n) == 0 <==> x < Pow2(n)
  {
    if n > 0 {
      ShiftZero(x / 2, n - 1);
    }
  }

  lemma ShiftFive(x: nat)
    ensures Shift(x, 5) == x / 32
  {
    assert Shift(x, 5) == Shift(x / 2, 4) == Shift(x / 4, 3);
    assert Shift(x / 4, 3) == Shift(x / 8, 2) == Shift(x / 16, 1);
  }

  lemma LinearPart(size: nat)
    requires size % 8 == 0 && size >= 16
    ensures if size / 8 - 2 < LINEARMAX then BucketOf(size) == size / 8 - 2 else Limit(LINEARMAX - 1) < size
  {
    BucketClosedForm(size, 0);
    BucketClosedForm(size, 1);
  }

  /** One turn of the loop: the list is found, or is one of the later ones. */
  lemma ThisListOrLater(size: nat, i: nat)
    requires size > 0 && LINEARMAX <= i < LISTMAX - 1 && Limit(i - 1) < size
    ensures if Shift(size - 1, i + 3) == 0 then BucketOf(size) == i else Limit(i) < size
    ensures Shift(size - 1, i + 4) == Shift(size - 1, i + 3) / 2
  {
    hide Shift, BucketOf;
    ShiftZero(size - 1, i + 3);
    ShiftNext(size - 1, i + 3);
    BucketRange(size, i);
  }

  /** get_free_listpp: the index computed by the source's division and shifting loop. */
  method GetFreeListIndex(size: nat) returns (k: nat)
    requires size % 8 == 0 && size >= 16
    ensures k == BucketOf(size)
  {
    hide Shift, BucketOf, Pow2, Limit;
    var linearGroup := size / 8 - 2;
    LinearPart(size);
    if linearGroup < LINEARMAX {
      return linearGroup;
    }
    k := SearchList(size);
  }

  /** The loop, for a size that is too large for the linear lists. */
  method SearchList(size: nat) returns (k: nat)
    requires Limit(LINEARMAX - 1) < size
    ensures k == BucketOf(size)
  {
    hide Shift, BucketOf, Pow2, Limit;
    var search := (size - 1) / 32;
    var i := LINEARMAX;
    ShiftFive(size - 1);
    while i < LISTMAX - 1
      invariant LINEARMAX <= i <= LISTMAX - 1
      invariant search == Shift(size - 1, i + 3)
      invariant Limit(i - 1) < size
    {
      ThisListOrLater(size, i);
      if search == 0 {
        return i;
      }
      search := search / 2;
      i := i + 1;
    }
    BucketRange(size, LISTMAX - 1);
    k := LISTMAX - 1;
  }
}
