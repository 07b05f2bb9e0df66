/** The ISA simulator's state, updated in place one instruction at a time. */
module IsaSim {
  import opened Bytes
  import opened Y86Words
  import opened Isa
  import opened MemRec

  /** state_rec */
  class IsaState {
    var pc: word
    const r: array<byte>
    const m: array<byte>
    var cc: Cc

    ghost predicate Valid()
      reads this
    {
      r.Length == REG_BYTES && m.Length < 0x8000_0000 && m.Length % 8 == 0 && r != m
    }

    ghost function View(): State
      requires Valid()
      reads this, r, m
    {
      State(pc, RegsOf(r[..]), m[..], cc)
    }

    constructor (r0: array<byte>, m0: array<byte>, cc0: Cc)
      requires r0.Length == REG_BYTES && m0.Length < 0x8000_0000 && m0.Length % 8 == 0 && r0 != m0
      ensures Valid() && r == r0 && m == m0
      ensures View() == State(0, RegsOf(r0[..]), m0[..], cc0)
    {
      pc, r, m, cc := 0, r0, m0, cc0;
    }

    /** The byte at the program counter and what follows it, as far as it is there. */
    method FetchFields() returns (ok: bool, i: Instr)
      requires Valid()
      ensures ok == ByteAt(m[..], pc)
      ensures ok ==> i == Decode(m[..], pc)
    {
      var byte0, byte1: byte;
      ok, byte0 := GetByteVal(m, pc);
      if !ok {
        return false, Instr(0, 0, 0, 0, 0, 0, false, false);
      }
      var ftpc := pc + 1;
      var hi0, lo0 := byte0 / 16, byte0 % 16;
      var hi1, lo1, ok1, cval, okc := REG_NONE, REG_NONE, true, 0, true;
      if NeedRegids(hi0) {
        ok1, byte1 := GetByteVal(m, ftpc);
        ftpc := ftpc + 1;
        hi1, lo1 := byte1 / 16, byte1 % 16;
      }
      if NeedImm(hi0) {
        okc, cval := GetWordVal(m, ftpc);
        ftpc := ftpc + 8;
      }
      return true, Instr(hi0, lo0, hi1, lo1, cval, ftpc, ok1, okc);
    }

    /** step_state: one instruction. */
    method StepState() returns (stat: Stat)
      requires Valid()
      modifies this, r, m
      ensures Valid()
      ensures View() == Step(old(View())).0 && stat == StepStat(old(View()))
      ensures r[120..] == old(r[120..])
    {
      var ok, i := FetchFields();
      if !ok {
        return ADR;
      }
      if i.icode == I_NOP {
        pc := i.next;
        return AOK;
      } else if i.icode == I_HALT {
        return HLT;
      } else if i.icode == I_RRMOVQ || i.icode == I_IRMOVQ {
        stat := StepMove(i);
      } else if i.icode == I_RMMOVQ || i.icode == I_MRMOVQ {
        stat := StepMemory(i);
      } else if i.icode == I_ALU || i.icode == I_IADDQ {
        stat := StepAlu(i);
      } else if i.icode == I_JMP {
        if !i.okImm {
          return ADR;
        }
        pc := if CondHolds(cc, i.ifun) then i.valc else i.next;
        return AOK;
      } else if i.icode == I_CALL || i.icode == I_PUSHQ {
        stat := StepPush(i);
      } else if i.icode == I_RET || i.icode == I_POPQ {
        stat := StepPop(i);
      } else {
        return INS;
      }
    }

    method StepMove(i: Instr) returns (stat: Stat)
      requires Valid() && (i.icode == I_RRMOVQ || i.icode == I_IRMOVQ)
      modifies this, r
      ensures Valid() && (View(), stat) == Execute(old(View()), i) && r[120..] == old(r[120..])
    {
      hide RegsOf, GetWord, Splice, Wrap, LittleEndian, CondHolds, ComputeAlu, ComputeCc;
      if !i.okRegs {
        return ADR;
      }
      if i.icode == I_RRMOVQ {
        if !RegValid(i.ra) || !RegValid(i.rb) {
          return INS;
        }
        var val := GetRegVal(r, i.ra);
        if CondHolds(cc, i.ifun) {
          SetRegVal(r, i.rb, val);
        }
      } else {
        if !i.okImm || !RegValid(i.rb) {
          return INS;
        }
        SetRegVal(r, i.rb, i.valc);
      }
      pc := i.next;
      return AOK;
    }

    method StepMemory(i: Instr) returns (stat: Stat)
      requires Valid() && (i.icode == I_RMMOVQ || i.icode == I_MRMOVQ)
      modifies this, r, m
      ensures Valid() && (View(), stat) == Execute(old(View()), i) && r[120..] == old(r[120..])
    {
      hide RegsOf, GetWord, Splice, Wrap, LittleEndian, CondHolds, ComputeAlu, ComputeCc;
      if !i.okRegs {
        return ADR;
      }
      if !i.okImm || !RegValid(i.ra) {
        return INS;
      }
      var cval := i.valc;
      if RegValid(i.rb) {
        var base: int := GetRegVal(r, i.rb);
        cval := Wrap(cval + base);
      }
      if i.icode == I_RMMOVQ {
        var val := GetRegVal(r, i.ra);
        var ok := SetWordVal(m, cval, val);
        if !ok {
          return ADR;
        }
      } else {
        var ok, val := GetWordVal(m, cval);
        if !ok {
          return ADR;
        }
        SetRegVal(r, i.ra, val);
      }
      pc := i.next;
      return AOK;
    }

    method StepAlu(i: Instr) returns (stat: Stat)
      requires Valid() && (i.icode == I_ALU || i.icode == I_IADDQ)
      modifies this, r
      ensures Valid() && (View(), stat) == Execute(old(View()), i) && r[120..] == old(r[120..])
    {
      hide RegsOf, GetWord, Splice, Wrap, LittleEndian, CondHolds, ComputeAlu, ComputeCc;
      if !i.okRegs {
        return ADR;
      }
      if i.icode == I_ALU {
        var argA := GetRegVal(r, i.ra);
        var argB := GetRegVal(r, i.rb);
        var val := ComputeAlu(i.ifun, argA, argB);
        SetRegVal(r, i.rb, val);
        cc := ComputeCc(i.ifun, argA, argB);
      } else {
        if !i.okImm || !RegValid(i.rb) {
          return INS;
        }
        var argB := GetRegVal(r, i.rb);
        SetRegVal(r, i.rb, Wrap(argB + i.valc));
        cc := ComputeCc(A_ADD, i.valc, argB);
      }
      pc := i.next;
      return AOK;
    }

    method StepPush(i: Instr) returns (stat: Stat)
      requires Valid() && (i.icode == I_CALL || i.icode == I_PUSHQ)
      modifies this, r, m
      ensures Valid() && (View(), stat) == Execute(old(View()), i) && r[120..] == old(r[120..])
    {
      hide RegsOf, GetWord, Splice, Wrap, LittleEndian, CondHolds, ComputeAlu, ComputeCc;
      var val := i.next;
      if i.icode == I_CALL {
        if !i.okImm {
          return ADR;
        }
      } else {
        if !i.okRegs {
          return ADR;
        }
        if !RegValid(i.ra) {
          return INS;
        }
        val := GetRegVal(r, i.ra);
      }
      var sp: int := GetRegVal(r, REG_RSP);
      var dval := Wrap(sp - 8);
      SetRegVal(r, REG_RSP, dval);
      var ok := SetWordVal(m, dval, val);
      if !ok {
        return ADR;
      }
      pc := if i.icode == I_CALL then i.valc else i.next;
      return AOK;
    }

    method StepPop(i: Instr) returns (stat: Stat)
      requires Valid() && (i.icode == I_RET || i.icode == I_POPQ)
      modifies this, r
      ensures Valid() && (View(), stat) == Execute(old(View()), i) && r[120..] == old(r[120..])
    {
      hide RegsOf, GetWord, Splice, Wrap, LittleEndian, CondHolds, ComputeAlu, ComputeCc;
      var dval: int := GetRegVal(r, REG_RSP);
      if i.icode == I_RET {
        var ok, val := GetWordVal(m, dval);
        if !ok {
          return ADR;
        }
        SetRegVal(r, REG_RSP, Wrap(dval + 8));
        pc := val;
      } else {
        if !i.okRegs {
          return ADR;
        }
        if !RegValid(i.ra) {
          return INS;
        }
        SetRegVal(r, REG_RSP, Wrap(dval + 8));
        var ok, val := GetWordVal(m, dval);
        if !ok {
          return ADR;
        }
        SetRegVal(r, i.ra, val);
        pc := i.next;
      }
      return AOK;
    }
  }
}
