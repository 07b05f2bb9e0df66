/** The cache-conscious matrix transposes, which work block by block and may park values in their output. */
module Transpose {

  /** B holds the transpose of A in rows [r0, r1) and columns [c0, c1) of A. */
  ghost predicate Moved(A: array2<int>, B: array2<int>, r0: int, r1: int, c0: int, c1: int)
    requires B.Length0 == A.Length1 && B.Length1 == A.Length0
    reads A, B
  {
    forall c, r {:trigger B[c, r]} ::
      0 <= c < A.Length1 && 0 <= r < A.Length0 && r0 <= r < r1 && c0 <= c < c1 ==> B[c, r] == A[r, c]
  }

  predicate Inside(c: int, r: int, r0: int, r1: int, c0: int, c1: int) { r0 <= r < r1 && c0 <= c < c1 }

  /** Only that part of B was written. */
  twostate predicate Kept(B: array2<int>, r0: int, r1: int, c0: int, c1: int)
    reads B
  {
    forall c, r {:trigger B[c, r]} ::
      0 <= c < B.Length0 && 0 <= r < B.Length1 && !Inside(c, r, r0, r1, c0, c1) ==> B[c, r] == old(B[c, r])
  }

  /** Only those two parts were written. */
  twostate predicate Kept2(B: array2<int>, r0: int, r1: int, c0: int, c1: int, s0: int, s1: int, d0: int, d1: int)
    reads B
  {
    forall c, r {:trigger B[c, r]} :: 0 <= c < B.Length0 && 0 <= r < B.Length1 ==>
      Inside(c, r, r0, r1, c0, c1) || Inside(c, r, s0, s1, d0, d1) || B[c, r] == old(B[c, r])
  }

  ghost predicate Shapes(A: array2<int>, B: array2<int>) { A != B && B.Length0 == A.Length1 && B.Length1 == A.Length0 }

  /** Eight values of one row, read before any is written. */
  method Row(A: array2<int>, B: array2<int>, k: nat, j: nat)
    requires Shapes(A, B) && k < A.Length0 && j + 8 <= A.Length1
    modifies B
    ensures Moved(A, B, k, k + 1, j, j + 8) && Kept(B, k, k + 1, j, j + 8)
  {
    var tmp0, tmp1, tmp2, tmp3 := A[k, j], A[k, j + 1], A[k, j + 2], A[k, j + 3];
    var tmp4, tmp5, tmp6, tmp7 := A[k, j + 4], A[k, j + 5], A[k, j + 6], A[k, j + 7];
    B[j, k] := tmp0;
    B[j + 1, k] := tmp1;
    B[j + 2, k] := tmp2;
    B[j + 3, k] := tmp3;
    B[j + 4, k] := tmp4;
    B[j + 5, k] := tmp5;
    B[j + 6, k] := tmp6;
    B[j + 7, k] := tmp7;
  }

  /** The 8 by 8 blocks of the 32 by 32 case. */
  method Block(A: array2<int>, B: array2<int>, i: nat, j: nat)
    requires Shapes(A, B) && i + 8 <= A.Length0 && j + 8 <= A.Length1
    modifies B
    ensures Moved(A, B, i, i + 8, j, j + 8) && Kept(B, i, i + 8, j, j + 8)
  {
    for k := i to i + 8
      invariant Moved(A, B, i, k, j, j + 8) && Kept(B, i, k, j, j + 8)
    {
      Row(A, B, k, j);
    }
  }

  /** First phase of a 64 by 64 block: the upper left quadrant goes home, and the upper right one is parked
      where the lower left one belongs. */
  method Park(A: array2<int>, B: array2<int>, i: nat, j: nat)
    requires Shapes(A, B) && i + 8 <= A.Length0 && j + 8 <= A.Length1
    modifies B
    ensures Moved(A, B, i, i + 4, j, j + 4) && Kept(B, i, i + 8, j, j + 4)
    ensures Parked(A, B, i, i + 4, j)
  {
    for k := i to i + 4
      invariant Moved(A, B, i, k, j, j + 4) && Kept(B, i, i + 8, j, j + 4) && Parked(A, B, i, k, j)
    {
      ParkRow(A, B, k, j);
    }
  }

  method ParkRow(A: array2<int>, B: array2<int>, k: nat, j: nat)
    requires Shapes(A, B) && k + 4 < A.Length0 && j + 8 <= A.Length1
    modifies B
    ensures Moved(A, B, k, k + 1, j, j + 4) && Kept2(B, k, k + 1, j, j + 4, k + 4, k + 5, j, j + 4)
    ensures forall c {:trigger B[c, k + 4]} :: j <= c < j + 4 ==> B[c, k + 4] == A[k, c + 4]
  {
    var tmp0, tmp1, tmp2, tmp3 := A[k, j], A[k, j + 1], A[k, j + 2], A[k, j + 3];
    var tmp4, tmp5, tmp6, tmp7 := A[k, j + 4], A[k, j + 5], A[k, j + 6], A[k, j + 7];
    B[j, k] := tmp0;
    B[j + 1, k] := tmp1;
    B[j + 2, k] := tmp2;
    B[j + 3, k] := tmp3;
    B[j, k + 4] := tmp4;
    B[j + 1, k + 4] := tmp5;
    B[j + 2, k + 4] := tmp6;
    B[j + 3, k + 4] := tmp7;
  }

  /** Rows [i, k) of the upper right quadrant stand four columns too far right and four rows too high. */
  ghost predicate Parked(A: array2<int>, B: array2<int>, i: int, k: int, j: int)
    requires Shapes(A, B) && 0 <= i && i + 8 <= A.Length0 && 0 <= j && j + 8 <= A.Length1 && k <= i + 4
    reads A, B
  {
    forall c, r {:trigger B[c, r]} :: j <= c < j + 4 && i + 4 <= r < k + 4 ==> B[c, r] == A[r - 4, c + 4]
  }

  /** Second phase: each parked row goes home while the lower left quadrant takes its place. */
  method Unpark(A: array2<int>, B: array2<int>, i: nat, j: nat)
    requires Shapes(A, B) && i + 8 <= A.Length0 && j + 8 <= A.Length1
    requires Parked(A, B, i, i + 4, j)
    modifies B
    ensures Moved(A, B, i + 4, i + 8, j, j + 4) && Moved(A, B, i, i + 4, j + 4, j + 8)
    ensures Kept2(B, i + 4, i + 8, j, j + 4, i, i + 4, j + 4, j + 8)
  {
    for k := j to j + 4
      invariant Moved(A, B, i + 4, i + 8, j, k) && Moved(A, B, i, i + 4, j + 4, k + 4)
      invariant Kept2(B, i + 4, i + 8, j, k, i, i + 4, j + 4, k + 4)
    {
      UnparkRow(A, B, i, k);
    }
  }

  method UnparkRow(A: array2<int>, B: array2<int>, i: nat, k: nat)
    requires Shapes(A, B) && i + 8 <= A.Length0 && k + 4 < A.Length1
    modifies B
    ensures Moved(A, B, i + 4, i + 8, k, k + 1) && Kept2(B, i + 4, i + 8, k, k + 1, i, i + 4, k + 4, k + 5)
    ensures forall r {:trigger B[k + 4, r]} :: i <= r < i + 4 ==> B[k + 4, r] == old(B[k, r + 4])
  {
    var tmp0, tmp1, tmp2, tmp3 := A[i + 4, k], A[i + 5, k], A[i + 6, k], A[i + 7, k];
    var tmp4, tmp5, tmp6, tmp7 := B[k, i + 4], B[k, i + 5], B[k, i + 6], B[k, i + 7];
    B[k, i + 4] := tmp0;
    B[k, i + 5] := tmp1;
    B[k, i + 6] := tmp2;
    B[k, i + 7] := tmp3;
    B[k + 4, i] := tmp4;
    B[k + 4, i + 1] := tmp5;
    B[k + 4, i + 2] := tmp6;
    B[k + 4, i + 3] := tmp7;
  }

  /** Third phase: the lower right quadrant, value by value. */
  method Quadrant(A: array2<int>, B: array2<int>, i: nat, j: nat)
    requires Shapes(A, B) && i + 4 <= A.Length0 && j + 4 <= A.Length1
    modifies B
    ensures Moved(A, B, i, i + 4, j, j + 4) && Kept(B, i, i + 4, j, j + 4)
  {
    for k := i to i + 4
      invariant Moved(A, B, i, k, j, j + 4) && Kept(B, i, k, j, j + 4)
    {
      for l := j to j + 4
        invariant Moved(A, B, i, k, j, j + 4) && Moved(A, B, k, k + 1, j, l) && Kept(B, i, k + 1, j, j + 4)
      {
        B[l, k] := A[k, l];
      }
    }
  }

  /** A block of the 64 by 64 case: after the three phases every value is where it belongs, although the
      output served as scratch space. */
  method ScratchBlock(A: array2<int>, B: array2<int>, i: nat, j: nat)
    requires Shapes(A, B) && i + 8 <= A.Length0 && j + 8 <= A.Length1
    modifies B
    ensures Moved(A, B, i, i + 8, j, j + 8) && Kept(B, i, i + 8, j, j + 8)
  {
    Park(A, B, i, j);
    Unpark(A, B, i, j);
    Quadrant(A, B, i + 4, j + 4);
  }

  /** The blocks of a matrix whose sides are multiples of 8, in the order of the loops. */
  method Blocks(A: array2<int>, B: array2<int>, rows: nat, cols: nat, scratch: bool)
    requires Shapes(A, B) && rows <= A.Length0 && cols <= A.Length1 && rows % 8 == 0 && cols % 8 == 0
    modifies B
    ensures Moved(A, B, 0, rows, 0, cols) && Kept(B, 0, rows, 0, cols)
  {
    var i := 0;
    while i < rows
      invariant 0 <= i <= rows && i % 8 == 0
      invariant Moved(A, B, 0, i, 0, cols) && Kept(B, 0, i, 0, cols)
    {
      var j := 0;
      while j < cols
        invariant 0 <= j <= cols && j % 8 == 0
        invariant Moved(A, B, 0, i, 0, cols) && Moved(A, B, i, i + 8, 0, j) && Kept(B, 0, i + 8, 0, cols)
      {
        if scratch {
          ScratchBlock(A, B, i, j);
        } else {
          Block(A, B, i, j);
        }
        j := j + 8;
      }
      i := i + 8;
    }
  }

  /** One row of the 61 by 67 case: the last block of columns has only five. */
  method RaggedRow(A: array2<int>, B: array2<int>, k: nat, j: nat)
    requires Shapes(A, B) && k < A.Length0 && A.Length1 == 61 && j < 61 && j % 8 == 0
    modifies B
    ensures Moved(A, B, k, k + 1, j, j + 8) && Kept(B, k, k + 1, j, j + 8)
  {
    var tmp0, tmp1, tmp2, tmp3, tmp4 := A[k, j], A[k, j + 1], A[k, j + 2], A[k, j + 3], A[k, j + 4];
    var tmp5, tmp6, tmp7 := 0, 0, 0;
    if j + 5 < 61 {
      tmp5 := A[k, j + 5];
    }
    if j + 5 < 61 {
      tmp6 := A[k, j + 6];
    }
    if j + 5 < 61 {
      tmp7 := A[k, j + 7];
    }
    B[j, k] := tmp0;
    B[j + 1, k] := tmp1;
    B[j + 2, k] := tmp2;
    B[j + 3, k] := tmp3;
    B[j + 4, k] := tmp4;
    if j + 5 < 61 {
      B[j + 5, k] := tmp5;
    }
    if j + 5 < 61 {
      B[j + 6, k] := tmp6;
    }
    if j + 5 < 61 {
      B[j + 7, k] := tmp7;
    }
  }

  method RaggedBlock(A: array2<int>, B: array2<int>, i: nat, j: nat)
    requires Shapes(A, B) && A.Length1 == 61 && j < 61 && j % 8 == 0
    modifies B
    ensures Moved(A, B, i, i + 8, j, j + 8) && Kept(B, i, i + 8, j, j + 8)
  {
    var k := i;
    while k < i + 8 && k < A.Length0
      invariant i <= k <= i + 8
      invariant Moved(A, B, i, k, j, j + 8) && Kept(B, i, k, j, j + 8)
    {
      RaggedRow(A, B, k, j);
      k := k + 1;
    }
  }

  method Ragged(A: array2<int>, B: array2<int>)
    requires Shapes(A, B) && A.Length1 == 61
    modifies B
    ensures Moved(A, B, 0, A.Length0, 0, 61)
  {
    var i := 0;
    while i < A.Length0
      invariant 0 <= i && i % 8 == 0
      invariant Moved(A, B, 0, i, 0, 61)
    {
      var j := 0;
      while j < 61
        invariant 0 <= j && j % 8 == 0
        invariant Moved(A, B, 0, i, 0, 61) && Moved(A, B, i, i + 8, 0, j)
      {
        RaggedBlock(A, B, i, j);
        j := j + 8;
      }
      i := i + 8;
    }
  }

  /** The plain double loop. */
  method Plain(A: array2<int>, B: array2<int>)
    requires Shapes(A, B)
    modifies B
    ensures Moved(A, B, 0, A.Length0, 0, A.Length1)
  {
    for i := 0 to A.Length0
      invariant Moved(A, B, 0, i, 0, A.Length1)
    {
      for j := 0 to A.Length1
        invariant Moved(A, B, 0, i, 0, A.Length1) && Moved(A, B, i, i + 1, 0, j)
      {
        var tmp0 := A[i, j];
        B[j, i] := tmp0;
      }
    }
  }

  /** The 61 by 168 case: blocks for the upper left part, then three rows below it and five columns beside
      it. Rows from 67 on are never read. */
  method Partial(A: array2<int>, B: array2<int>)
    requires Shapes(A, B) && A.Length1 == 61 && A.Length0 == 168
    modifies B
    ensures Moved(A, B, 0, 67, 0, 61) && Kept(B, 0, 67, 0, 61)
  {
    Blocks(A, B, 64, 56, true);
    var i := 64;
    for j := 0 to 61
      invariant Moved(A, B, 0, 64, 0, 56) && Moved(A, B, 64, 67, 0, j) && Kept(B, 0, 67, 0, 61)
    {
      Strip(A, B, i, j);
    }
    i := 56;
    for j := 0 to 64
      invariant Moved(A, B, 0, 64, 0, 56) && Moved(A, B, 64, 67, 0, 61)
      invariant Moved(A, B, 0, j, 56, 61) && Kept(B, 0, 67, 0, 61)
    {
      Five(A, B, j, i);
    }
  }

  /** Three values of one column, and five of one row. */
  method Strip(A: array2<int>, B: array2<int>, i: nat, j: nat)
    requires Shapes(A, B) && i + 3 <= A.Length0 && j < A.Length1
    modifies B
    ensures Moved(A, B, i, i + 3, j, j + 1) && Kept(B, i, i + 3, j, j + 1)
  {
    var tmp0, tmp1, tmp2 := A[i, j], A[i + 1, j], A[i + 2, j];
    B[j, i] := tmp0;
    B[j, i + 1] := tmp1;
    B[j, i + 2] := tmp2;
  }

  method Five(A: array2<int>, B: array2<int>, j: nat, i: nat)
    requires Shapes(A, B) && j < A.Length0 && i + 5 <= A.Length1
    modifies B
    ensures Moved(A, B, j, j + 1, i, i + 5) && Kept(B, j, j + 1, i, i + 5)
  {
    var tmp0, tmp1, tmp2, tmp3, tmp4 := A[j, i], A[j, i + 1], A[j, i + 2], A[j, i + 3], A[j, i + 4];
    B[i, j] := tmp0;
    B[i + 1, j] := tmp1;
    B[i + 2, j] := tmp2;
    B[i + 3, j] := tmp3;
    B[i + 4, j] := tmp4;
  }

  /** transpose_submit: for every matrix B becomes the transpose of A, except that in the 61 by 168 case only
      the first 67 of the 168 rows are transposed and the rest of B is left as it was. */
  method TransposeSubmit(A: array2<int>, B: array2<int>)
    requires Shapes(A, B)
    modifies B
    ensures A.Length1 == 61 && A.Length0 == 168 ==> Moved(A, B, 0, 67, 0, 61) && Kept(B, 0, 67, 0, 61)
    ensures !(A.Length1 == 61 && A.Length0 == 168) ==> IsTransposed(A, B)
  {
    var M, N := A.Length1, A.Length0;
    if M == N && M == 32 {
      Blocks(A, B, N, M, false);
    } else if M == N && M == 64 {
      Blocks(A, B, N, M, true);
    } else if M == 61 && N == 67 {
      Ragged(A, B);
    } else if M == 61 && N == 168 {
      Partial(A, B);
    } else {
      Plain(A, B);
    }
  }

  ghost predicate IsTransposed(A: array2<int>, B: array2<int>)
    requires B.Length0 == A.Length1 && B.Length1 == A.Length0
    reads A, B
  {
    forall i, j {:trigger A[i, j]} :: 0 <= i < A.Length0 && 0 <= j < A.Length1 ==> A[i, j] == B[j, i]
  }

  /** is_transpose */
  method IsTranspose(A: array2<int>, B: array2<int>) returns (yes: bool)
    requires B.Length0 == A.Length1 && B.Length1 == A.Length0
    ensures yes <==> IsTransposed(A, B)
  {
    for i := 0 to A.Length0
      invariant forall r, c {:trigger A[r, c]} :: 0 <= r < i && 0 <= c < A.Length1 ==> A[r, c] == B[c, r]
    {
      for j := 0 to A.Length1
        invariant forall r, c {:trigger A[r, c]} :: 0 <= r < i && 0 <= c < A.Length1 ==> A[r, c] == B[c, r]
        invariant forall c {:trigger A[i, c]} :: 0 <= c < j ==> A[i, c] == B[c, i]
      {
        if A[i, j] != B[j, i] {
          return false;
        }
      }
    }
    return true;
  }
}
