/** 64-bit words, the ALU and the condition codes of the Y86-64 instruction set. */
module Y86Words {
  import opened Bytes

  /** word_t: a signed 64-bit integer. */
  type word = x: int | -0x8000_0000_0000_0000 <= x < 0x8000_0000_0000_0000

  const MIN_WORD := -0x8000_0000_0000_0000
  const MAX_WORD := 0x7FFF_FFFF_FFFF_FFFF

  /** The word with the same 64 low bits as `x`: what wrap-around arithmetic leaves. */
  function Wrap(x: int): word {
    var r := x % 0x1_0000_0000_0000_0000;
    if r < 0x8000_0000_0000_0000 then r else r - 0x1_0000_0000_0000_0000
  }

  /** The 64 bits of a word as a natural number. */
  function Unsigned(w: word): nat {
    if w < 0 then w + 0x1_0000_0000_0000_0000 else w
  }

  // alu_t and cond_t
  const A_ADD := 0
  const A_SUB := 1
  const A_AND := 2
  const A_XOR := 3
  const C_YES := 0
  const C_LE := 1
  const C_L := 2
  const C_E := 3
  const C_NE := 4
  const C_GE := 5
  const C_G := 6

  /** Bitwise operations on the `n` low bits of two naturals. */
  function BitAnd(a: nat, b: nat, n: nat): nat {
    if n == 0 then 0 else (if a % 2 == 1 && b % 2 == 1 then 1 else 0) + 2 * BitAnd(a / 2, b / 2, n - 1)
  }

  function BitXor(a: nat, b: nat, n: nat): nat {
    if n == 0 then 0 else (if a % 2 != b % 2 then 1 else 0) + 2 * BitXor(a / 2, b / 2, n - 1)
  }

  function ComputeAlu(op: int, argA: word, argB: word): word {
    if op == A_ADD then Wrap(argA + argB)
    else if op == A_SUB then Wrap(argB - argA)
    else if op == A_AND then Wrap(BitAnd(Unsigned(argA), Unsigned(argB), 64))
    else if op == A_XOR then Wrap(BitXor(Unsigned(argA), Unsigned(argB), 64))
    else 0
  }

  /** cc_t: the zero, sign and overflow flags. */
  datatype Cc = Cc(zf: bool, sf: bool, of: bool)

  const DEFAULT_CC := Cc(true, false, false)

  function ComputeCc(op: int, argA: word, argB: word): Cc {
    var val := ComputeAlu(op, argA, argB);
    var ovf :=
      if op == A_ADD then (argA < 0) == (argB < 0) && (val < 0) != (argA < 0)
      else if op == A_SUB then (argA > 0) == (argB < 0) && (val < 0) != (argB < 0)
      else false;
    Cc(val == 0, val < 0, ovf)
  }

  function CondHolds(cc: Cc, cond: int): bool {
    if cond == C_YES then true
    else if cond == C_LE then (cc.sf != cc.of) || cc.zf
    else if cond == C_L then cc.sf != cc.of
    else if cond == C_E then cc.zf
    else if cond == C_NE then !cc.zf
    else if cond == C_GE then cc.sf == cc.of
    else if cond == C_G then cc.sf == cc.of && !cc.zf
    else false
  }

  /** After a subtraction every condition decides the true order of its operands, wrap-around or not. */
  lemma SubDecidesOrder(a: word, b: word)
    ensures var cc := ComputeCc(A_SUB, a, b);
      && (CondHolds(cc, C_LE) <==> b <= a)
      && (CondHolds(cc, C_L) <==> b < a)
      && (CondHolds(cc, C_E) <==> b == a)
      && (CondHolds(cc, C_NE) <==> b != a)
      && (CondHolds(cc, C_GE) <==> b >= a)
      && (CondHolds(cc, C_G) <==> b > a)
  {
    WrapCases(b - a);
  }

  /** After an addition the overflow flag holds exactly when the true sum is not a word, and the other
      flags describe the wrapped sum. */
  lemma AddOverflow(a: word, b: word)
    ensures var cc := ComputeCc(A_ADD, a, b);
      && (cc.of <==> !(MIN_WORD <= a + b <= MAX_WORD))
      && (!cc.of ==> (cc.zf <==> a + b == 0) && (cc.sf <==> a + b < 0))
      && (cc.of ==> (cc.sf <==> a + b > 0))
  {
    WrapCases(a + b);
  }

  /** One step out of range is brought back by one modulus. */
  lemma WrapCases(x: int)
    requires 2 * MIN_WORD <= x <= 2 * MAX_WORD + 1
    ensures Wrap(x) == if x < MIN_WORD then x + 0x1_0000_0000_0000_0000
                       else if x > MAX_WORD then x - 0x1_0000_0000_0000_0000
                       else x
  {
  }

  lemma {:induction false} BitsOfSelf(a: nat, n: nat)
    requires a < Pow2(n)
    ensures BitAnd(a, a, n) == a && BitXor(a, a, n) == 0
  {
    if n > 0 {
      BitsOfSelf(a / 2, n - 1);
    }
  }

  /** The idioms on a register with itself: xor clears it, and tests it and nothing else. */
  lemma SelfOperands(a: word)
    ensures ComputeAlu(A_XOR, a, a) == 0 && ComputeAlu(A_AND, a, a) == a
    ensures ComputeCc(A_XOR, a, a) == Cc(true, false, false) && ComputeCc(A_AND, a, a) == Cc(a == 0, a < 0, false)
  {
    Pow2Of64();
    hide Pow2;
    BitsOfSelf(Unsigned(a), 64);
    hide BitAnd, BitXor;
    Reread(a);
    hide Wrap, Unsigned;
    assert ComputeAlu(A_XOR, a, a) == 0 && ComputeAlu(A_AND, a, a) == a;
    hide ComputeAlu;
    assert ComputeCc(A_XOR, a, a) == Cc(true, false, false) && ComputeCc(A_AND, a, a) == Cc(a == 0, a < 0, false);
  }

  lemma Reread(a: word)
    ensures Unsigned(a) < 0x1_0000_0000_0000_0000 && Wrap(Unsigned(a)) == a && Wrap(0) == 0
  {
  }

  lemma Pow2Of64()
    ensures Pow2(64) == 0x1_0000_0000_0000_0000
  {
    Doubled(32, 32);
    assert Pow2(32) == 0x1_0000_0000 by {
      Doubled(16, 16);
      assert Pow2(16) == 0x1_0000 by {
        Doubled(8, 8);
        assert Pow2(8) == 256;
      }
    }
  }

  lemma {:induction false} Doubled(m: nat, n: nat)
    ensures Pow2(m + n) == Pow2(m) * Pow2(n)
  {
    if m > 0 {
      Doubled(m - 1, n);
      assert Pow2(m + n) == 2 * Pow2(m - 1 + n);
      hide Pow2;
      TwoTimes(Pow2(m - 1), Pow2(n));
    }
  }

  lemma TwoTimes(x: int, y: int)
    ensures (2 * x) * y == 2 * (x * y)
  {
  }

  // ------------------------------------------------------------------------------------------
  // When another operation gives what addition gives

  /** Exclusive or is the sum without carries, and twice the common bits are the carries. */
  lemma {:induction false} BitsAddUp(a: nat, b: nat, n: nat, k: nat)
    requires a < Pow2(k) && b < Pow2(k) && k <= n
    ensures a + b == BitXor(a, b, n) + 2 * BitAnd(a, b, n)
    ensures BitXor(a, b, n) + BitAnd(a, b, n) < Pow2(k)
    ensures BitAnd(a, b, n) <= a && BitAnd(a, b, n) <= b
  {
    if n > 0 {
      BitsAddUp(a / 2, b / 2, n - 1, if k > 0 then k - 1 else 0);
    }
  }

  /** The ALU function `op` gives the sum of its operands, with the flags of an addition. */
  predicate AddsAnyway(op: int, a: word, b: word) {
    if op == A_ADD then true
    else if op == A_SUB then a == 0
    else if op == A_AND then a == 0 && b == 0
    else if op == A_XOR then BitAnd(Unsigned(a), Unsigned(b), 64) == 0
    else a + b == 0
  }

  ghost predicate SameAsAdd(op: int, a: word, b: word) {
    ComputeAlu(op, a, b) == Wrap(a + b) && ComputeCc(op, a, b) == ComputeCc(A_ADD, a, b)
  }

  lemma SameWrap(x: int, y: int)
    requires Wrap(x) == Wrap(y) && x <= y < x + 0x2_0000_0000_0000_0000
    ensures y == x || y == x + 0x1_0000_0000_0000_0000
  {
    var n := 0x1_0000_0000_0000_0000;
    assert x == n * (x / n) + x % n && y == n * (y / n) + y % n;
    assert x % n == y % n;
    assert y - x == n * (y / n - x / n);
  }

  lemma WrapUnsigned(a: word, b: word)
    ensures Wrap(Unsigned(a) + Unsigned(b)) == Wrap(a + b)
  {
    WrapAgain(a + b);
    WrapAgain(a + b + 0x1_0000_0000_0000_0000);
  }

  lemma WrapAgain(x: int)
    ensures Wrap(x + 0x1_0000_0000_0000_0000) == Wrap(x)
  {
    var n := 0x1_0000_0000_0000_0000;
    assert (x + n) % n == x % n;
  }

  /** The exact condition: addition itself; subtracting 0; the conjunction of zeros; an exclusive or without
      common bits; and, where the function code means nothing and the result is 0, opposite numbers. */
  lemma AddsAnywayExact(op: int, a: word, b: word)
    ensures SameAsAdd(op, a, b) <==> AddsAnyway(op, a, b)
  {
    WrapCases(a + b);
    if op == A_ADD {
    } else if op == A_SUB {
      WrapCases(b - a);
      hide Wrap;
    } else if op == A_AND {
      AndAdds(a, b);
    } else if op == A_XOR {
      XorAdds(a, b);
    } else {
      hide Wrap;
    }
  }

  lemma AndAdds(a: word, b: word)
    ensures SameAsAdd(A_AND, a, b) <==> a == 0 && b == 0
  {
    var x, y := Unsigned(a), Unsigned(b);
    Pow2Of64();
    hide Pow2, BitAnd, BitXor, Wrap;
    Reread(a);
    Reread(b);
    WrapCases(a + b);
    WrapUnsigned(a, b);
    BitsAddUp(x, y, 64, 64);
    if Wrap(BitAnd(x, y, 64)) == Wrap(x + y) {
      SameWrap(BitAnd(x, y, 64), x + y);
    }
    if a == 0 && b == 0 {
      assert BitAnd(x, y, 64) == 0;
    }
  }

  lemma HalfOf64()
    ensures Pow2(63) == 0x8000_0000_0000_0000
  {
    Pow2Of64();
    assert Pow2(64) == 2 * Pow2(63);
  }

  lemma WrapNat(x: nat)
    requires x < 0x1_0000_0000_0000_0000
    ensures Wrap(x) < 0 <==> x >= 0x8000_0000_0000_0000
  {
  }

  /** `both` being the common bits and `one` the others, there is an overflow if the sums agree with carries. */
  lemma Carries(a: word, b: word, one: nat, both: nat)
    requires Unsigned(a) + Unsigned(b) == one + 2 * both && one + both < 0x1_0000_0000_0000_0000
    requires both <= Unsigned(a) && both <= Unsigned(b)
    requires a >= 0 && b >= 0 ==> one + both < 0x8000_0000_0000_0000
    ensures both == 0 ==> Wrap(one) == Wrap(a + b) && !((a < 0) == (b < 0) && (Wrap(a + b) < 0) != (a < 0))
    ensures both != 0 && Wrap(one) == Wrap(a + b) ==> (a < 0) == (b < 0) && (Wrap(a + b) < 0) != (a < 0)
  {
    hide Wrap;
    WrapUnsigned(a, b);
    WrapNat(one);
    if Wrap(one) == Wrap(a + b) {
      SameWrap(one, one + 2 * both);
    }
  }

  lemma XorAdds(a: word, b: word)
    ensures SameAsAdd(A_XOR, a, b) <==> BitAnd(Unsigned(a), Unsigned(b), 64) == 0
  {
    var x, y := Unsigned(a), Unsigned(b);
    Pow2Of64();
    HalfOf64();
    hide Pow2, BitAnd, BitXor, Wrap;
    Reread(a);
    Reread(b);
    BitsAddUp(x, y, 64, 64);
    if a >= 0 && b >= 0 {
      BitsAddUp(x, y, 64, 63);
    }
    Carries(a, b, BitXor(x, y, 64), BitAnd(x, y, 64));
  }
}
