/** The byte arrays behind memories and register files, and the accessors that work on them in place. */
module MemRec {
  import opened Bytes
  import opened Y86Words
  import opened Isa

  lemma EncodeWord(v: word)
    ensures Encode(v, 8) == Encode(Unsigned(v), 8)
  {
    assert Pow256(8) == 0x1_0000_0000_0000_0000;
    EncodeWraps(v, 8);
  }

  lemma {:induction false} LittleEndianSnoc(s: seq<byte>, b: byte)
    ensures LittleEndian(s + [b]) == LittleEndian(s) + b * Pow256(|s|)
  {
    if s == [] {
      assert s + [b] == [b];
    } else {
      assert (s + [b])[1..] == s[1..] + [b];
      LittleEndianSnoc(s[1..], b);
      assert 256 * (b * Pow256(|s| - 1)) == b * Pow256(|s|);
    }
  }

  method GetByteVal(m: array<byte>, pos: word) returns (ok: bool, dest: byte)
    requires m.Length < 0x8000_0000
    ensures ok == ByteAt(m[..], pos) && dest == GetByte(m[..], pos)
  {
    if pos < 0 || pos >= m.Length {
      return false, 0;
    }
    return true, m[pos];
  }

  /** get_word_val: the eight bytes put together, the least significant first. */
  method GetWordVal(m: array<byte>, pos: word) returns (ok: bool, dest: word)
    requires m.Length < 0x8000_0000
    ensures ok == WordAt(m[..], pos) && dest == GetWord(m[..], pos)
  {
    if pos < 0 || pos + 8 > m.Length {
      return false, 0;
    }
    var val: nat, weight: nat := 0, 1;
    for i := 0 to 8
      invariant val == LittleEndian(m[pos..pos + i]) && weight == Pow256(i)
    {
      LittleEndianSnoc(m[pos..pos + i], m[pos + i]);
      assert m[pos..pos + i + 1] == m[pos..pos + i] + [m[pos + i]];
      val := val + m[pos + i] * weight;
      weight := weight * 256;
    }
    assert m[..][pos..pos + 8] == m[pos..pos + 8];
    return true, Wrap(val);
  }

  /** set_word_val: the low byte is stored and the value shifted right, eight times. */
  method SetWordVal(m: array<byte>, pos: word, val: word) returns (ok: bool)
    requires m.Length < 0x8000_0000
    modifies m
    ensures ok == WordAt(old(m[..]), pos)
    ensures m[..] == SetWord(old(m[..]), pos, val)
  {
    if pos < 0 || pos + 8 > m.Length {
      return false;
    }
    ghost var was, code := m[..], Encode(val, 8);
    var v: int := val;
    for i := 0 to 8
      invariant Encode(v, 8 - i) == code[i..]
      invariant forall j :: 0 <= j < i ==> m[pos + j] == code[j]
      invariant forall j :: 0 <= j < m.Length && !(pos <= j < pos + i) ==> m[j] == was[j]
    {
      assert code[i] == Encode(v, 8 - i)[0] && code[i + 1..] == Encode(v, 8 - i)[1..];
      m[pos + i] := v % 256;
      v := v / 256;
    }
    EncodeWord(val);
    assert m[..] == was[..pos] + code + was[pos + 8..];
    return true;
  }

  /** The memories agree on every word that starts below `len`, a word that does not fit counting as 0. */
  ghost predicate WordsAgree(m: Mem, n: Mem, len: nat) {
    forall p {:trigger GetWord(m, p)} :: 0 <= p < len && p % 8 == 0 ==> GetWord(m, p) == GetWord(n, p)
  }

  /** copy_mem and free_mem need no counterpart; diff_mem: some word of the common part differs. For lengths
      that are multiples of 8, which init_mem makes them, that is to say some byte of it does. */
  method DiffMem(oldm: array<byte>, newm: array<byte>) returns (diff: bool)
    requires oldm.Length < 0x8000_0000 && newm.Length < 0x8000_0000
    ensures var len := if newm.Length < oldm.Length then newm.Length else oldm.Length;
      && (diff <==> !WordsAgree(oldm[..], newm[..], len))
      && (oldm.Length % 8 == 0 && newm.Length % 8 == 0 ==> (diff <==> oldm[..len] != newm[..len]))
  {
    hide GetWord;
    var len := oldm.Length;
    if newm.Length < len {
      len := newm.Length;
    }
    diff := false;
    var pos := 0;
    while !diff && pos < len
      invariant 0 <= pos && pos % 8 == 0
      invariant !diff ==> WordsAgree(oldm[..], newm[..], pos)
      invariant diff ==> !WordsAgree(oldm[..], newm[..], len)
      decreases len - pos
    {
      var _, ov := GetWordVal(oldm, pos);
      var _, nv := GetWordVal(newm, pos);
      if nv != ov {
        diff := true;
      }
      pos := pos + 8;
    }
    if oldm.Length % 8 == 0 && newm.Length % 8 == 0 {
      BytesTell(oldm[..], newm[..], len);
      assert oldm[..][..len] == oldm[..len] && newm[..][..len] == newm[..len];
    }
  }

  lemma {:induction false} BytesTell(m: Mem, n: Mem, len: nat)
    requires len <= |m| && len <= |n| && len % 8 == 0
    ensures WordsAgree(m, n, len) <==> m[..len] == n[..len]
  {
    hide GetWord;
    if len > 0 {
      BytesTell(m, n, len - 8);
      WordsTell(m, n, len - 8);
      assert m[..len] == m[..len - 8] + m[len - 8..len] && n[..len] == n[..len - 8] + n[len - 8..len];
      OneWordMore(m, n, len);
    }
  }

  lemma OneWordMore(m: Mem, n: Mem, len: nat)
    requires 8 <= len && len % 8 == 0
    ensures WordsAgree(m, n, len) <==> WordsAgree(m, n, len - 8) && GetWord(m, len - 8) == GetWord(n, len - 8)
  {
    hide GetWord;
    assert (len - 8) % 8 == 0;
    if WordsAgree(m, n, len - 8) && GetWord(m, len - 8) == GetWord(n, len - 8) {
      forall p {:trigger GetWord(m, p)} | 0 <= p < len && p % 8 == 0
        ensures GetWord(m, p) == GetWord(n, p)
      {
        NoMultipleBetween(p, len);
      }
    }
  }

  lemma NoMultipleBetween(p: nat, len: nat)
    requires p < len && p % 8 == 0 && len % 8 == 0
    ensures p < len - 8 || p == len - 8
  {
    assert p == 8 * (p / 8) && len == 8 * (len / 8);
  }

  /** Two memories hold the same word at `p` exactly when they hold the same eight bytes there. */
  lemma WordsTell(m: Mem, n: Mem, p: int)
    requires WordAt(m, p) && WordAt(n, p)
    ensures GetWord(m, p) == GetWord(n, p) <==> m[p..p + 8] == n[p..p + 8]
  {
    hide Wrap, LittleEndian, Encode;
    var a, b := m[p..p + 8], n[p..p + 8];
    EncodeDecode(a);
    EncodeDecode(b);
    Pow256Of8();
    WrapTells(LittleEndian(a), LittleEndian(b));
  }

  lemma Pow256Of8()
    ensures Pow256(8) == 0x1_0000_0000_0000_0000
  {
  }

  lemma WrapTells(a: nat, b: nat)
    requires a < 0x1_0000_0000_0000_0000 && b < 0x1_0000_0000_0000_0000
    ensures Wrap(a) == Wrap(b) <==> a == b
  {
  }

  // ------------------------------------------------------------------------------------------
  // Register files

  const REG_BYTES := 128

  /** The registers in a register file's bytes. */
  function RegsOf(b: seq<byte>): Regs
    requires |b| == REG_BYTES
  {
    seq(15, i requires 0 <= i < 15 => GetWord(b, 8 * i))
  }

  lemma SetRegBytes(b: seq<byte>, id: int, v: word)
    requires |b| == REG_BYTES && RegValid(id)
    ensures RegsOf(SetWord(b, 8 * id, v)) == SetReg(RegsOf(b), id, v)
    ensures SetWord(b, 8 * id, v)[120..] == b[120..]
  {
    var n := SetWord(b, 8 * id, v);
    forall i | 0 <= i < 15
      ensures GetWord(n, 8 * i) == if i == id then v else GetWord(b, 8 * i)
    {
      SetGetWord(b, 8 * id, v, 8 * i);
    }
    hide GetWord, SetWord;
    assert RegsOf(n) == SetReg(RegsOf(b), id, v);
  }

  /** Register files that agree beyond the program registers differ exactly when some register does. */
  lemma RegBytesTell(a: seq<byte>, b: seq<byte>)
    requires |a| == REG_BYTES && |b| == REG_BYTES && a[120..] == b[120..]
    ensures a == b <==> RegsOf(a) == RegsOf(b)
  {
    hide GetWord;
    if RegsOf(a) == RegsOf(b) {
      forall k | 0 <= k < REG_BYTES
        ensures a[k] == b[k]
      {
        if k < 120 {
          RegByteTell(a, b, k / 8, k % 8);
        } else {
          assert a[k] == a[120..][k - 120] && b[k] == b[120..][k - 120];
        }
      }
    }
  }

  lemma RegByteTell(a: seq<byte>, b: seq<byte>, i: nat, j: nat)
    requires |a| == REG_BYTES && |b| == REG_BYTES && RegsOf(a) == RegsOf(b) && i < 15 && j < 8
    ensures a[8 * i + j] == b[8 * i + j]
  {
    assert RegsOf(a)[i] == RegsOf(b)[i];
    WordsTell(a, b, 8 * i);
    assert a[8 * i..8 * i + 8][j] == b[8 * i..8 * i + 8][j];
  }

  method GetRegVal(r: array<byte>, id: int) returns (val: word)
    requires r.Length == REG_BYTES
    ensures val == GetReg(RegsOf(r[..]), id)
  {
    if !RegValid(id) {
      return 0;
    }
    var _, v := GetWordVal(r, id * 8);
    return v;
  }

  method SetRegVal(r: array<byte>, id: int, val: word)
    requires r.Length == REG_BYTES
    modifies r
    ensures RegsOf(r[..]) == SetReg(RegsOf(old(r[..])), id, val)
    ensures r[120..] == old(r[120..])
  {
    if RegValid(id) {
      ghost var b := r[..];
      var _ := SetWordVal(r, id * 8, val);
      SetRegBytes(b, id, val);
      assert r[120..] == r[..][120..] && b[120..] == old(r[120..]);
    }
  }
}
