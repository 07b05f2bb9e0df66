/** From source line to executed instruction: what the assembler prints, loaded into memory, is decoded by
    the processor as the instruction that was written. */
module Assembled {
  import opened Bytes
  import opened Y86Words
  import opened Isa
  import opened MemRec
  import opened Yas
  import opened Listing

  // ------------------------------------------------------------------------------------------
  // Labels

  lemma {:induction false} FindAppend(table: SymbolTable, entry: SymbolTable, x: string)
    requires |entry| <= 1
    ensures Find(table + entry, x) == if Find(table, x).Some? then Find(table, x) else Find(entry, x)
  {
    if entry == [] {
      assert table + entry == table;
    } else {
      assert (table + entry)[..|table|] == table;
      assert entry[..0] == [];
    }
  }

  lemma FindEntry(line: seq<Token>, pos: int, x: string)
    ensures Find(LabelEntry(line, pos), x) == if LabelOf(line) == Some(x) then Some(pos) else None
  {
    var entry := LabelEntry(line, pos);
    if entry != [] {
      assert entry[..0] == [];
    }
  }

  lemma LabelStep(lines: seq<seq<Token>>, n: nat, x: string)
    requires n < |lines|
    ensures Find(Labels(lines, n + 1), x) ==
      if Find(Labels(lines, n), x).Some? then Find(Labels(lines, n), x)
      else if LabelOf(lines[n]) == Some(x) then Some(PosAt(lines, n)) else None
  {
    var entry := LabelEntry(lines[n], PosAt(lines, n));
    assert |entry| <= 1;
    assert Labels(lines, n + 1) == Labels(lines, n) + entry;
    hide Find, LabelOf, LabelEntry, PosAt, Labels;
    FindAppend(Labels(lines, n), entry, x);
    FindEntry(lines[n], PosAt(lines, n), x);
  }

  /** A label stands for the position of the first line that carries it, for uses before and after. */
  lemma {:induction false} LabelIsAddress(lines: seq<seq<Token>>, n: nat, x: string, k: nat)
    requires k < n <= |lines| && LabelOf(lines[k]) == Some(x)
    requires forall j :: 0 <= j < k ==> LabelOf(lines[j]) != Some(x)
    ensures Find(Labels(lines, n), x) == Some(PosAt(lines, k))
  {
    hide Find, LabelOf, LabelEntry, PosAt, Labels;
    LabelStep(lines, n - 1, x);
    if k < n - 1 {
      LabelIsAddress(lines, n - 1, x, k);
    } else {
      NotYetDefined(lines, k, x);
    }
  }

  lemma {:induction false} NotYetDefined(lines: seq<seq<Token>>, n: nat, x: string)
    requires n <= |lines| && forall j :: 0 <= j < n ==> LabelOf(lines[j]) != Some(x)
    ensures Find(Labels(lines, n), x) == None
  {
    hide LabelOf, PosAt, Find, Labels;
    if n > 0 {
      NotYetDefined(lines, n - 1, x);
      LabelStep(lines, n - 1, x);
      assert Find(Labels(lines, n), x) == None;
    } else {
      NoLabels(lines, x);
    }
  }

  lemma NoLabels(lines: seq<seq<Token>>, x: string)
    ensures Find(Labels(lines, 0), x) == None
  {
  }

  /** In an assembled source a label stands for the address printed for the first line that carries it, except
      exactly when that line is a directive that moves the position: the label is entered before the directive
      takes effect, the line is printed after. */
  lemma LabelIsPrinted(lines: seq<seq<Token>>, out: seq<Emitted>, x: string, k: nat)
    requires Printed(Labels(lines, |lines|), lines, |lines|, out) && k < |lines| && LabelOf(lines[k]) == Some(x)
    requires forall j :: 0 <= j < k ==> LabelOf(lines[j]) != Some(x)
    ensures var shape := ShapeOf(lines[k], PosAt(lines, k));
      Find(Labels(lines, |lines|), x) == Some(out[k].pos) <==> (shape.Directive? ==> shape.next == PosAt(lines, k))
  {
    hide Find, Labels, PosAt, ShapeOf, FieldsOf, Encoding;
    LabelIsAddress(lines, |lines|, x, k);
    assert LineOutput(Labels(lines, |lines|), lines[k], PosAt(lines, k)) == Some(out[k]);
  }

  /** x: .pos 8 */
  const LABELLED_POS := [TIdent("x"), TPunct(':'), TInstr(POS), TNum(8)]

  lemma LabelledShape()
    ensures LabelOf(LABELLED_POS) == Some("x") && ShapeOf(LABELLED_POS, 0) == Directive(8)
  {
    hide CDiv;
    assert Tok(LABELLED_POS, 1) == TPunct(':') && Tok(LABELLED_POS, 2) == TInstr(POS);
    assert Tok(LABELLED_POS, 3) == TNum(8) && ToInt(8) == 8;
  }

  /** Such a line at the head of a source: the label stands for 0, the line is printed at 8. */
  lemma LabelledDirective(lines: seq<seq<Token>>, out: seq<Emitted>)
    requires lines != [] && lines[0] == LABELLED_POS
    requires Printed(Labels(lines, |lines|), lines, |lines|, out)
    ensures Find(Labels(lines, |lines|), "x") == Some(0) && out[0].pos == 8
  {
    LabelledShape();
    assert PosAt(lines, 0) == 0;
    hide Find, Labels, PosAt, ShapeOf, FieldsOf, Encoding, LabelOf;
    LabelIsAddress(lines, |lines|, "x", 0);
    assert LineOutput(Labels(lines, |lines|), lines[0], PosAt(lines, 0)) == Some(out[0]);
  }

  // ------------------------------------------------------------------------------------------
  // Instructions

  /** What the processor should find for an instruction with these fields at `p`. */
  function Intended(d: Entry, f: Fields, p: word): Instr
    requires p + d.bytes <= MAX_WORD
  {
    Instr(d.icode, d.ifun,
          if NeedRegids(d.icode) then f.ra else REG_NONE, if NeedRegids(d.icode) then f.rb else REG_NONE,
          if NeedImm(d.icode) then f.val else 0, p + d.bytes, true, true)
  }

  /** Decoding undoes encoding: opcode, function, registers, all 64 bits of the constant, and length. */
  lemma EncodingDecodes(d: Entry, f: Fields, m: Mem, p: nat)
    requires Sound(d) && !IsData(d) && 0 <= f.ra < 16 && 0 <= f.rb < 16
    requires p + d.bytes <= |m| && m[p..p + d.bytes] == Encoding(d, f)
    ensures Decode(m, p) == Intended(d, f, p)
  {
    hide Encode, GetWord;
    var s := m[p..p + d.bytes];
    Lengths(d, f);
    assert m[p] == s[0];
    if NeedRegids(d.icode) {
      assert m[p + 1] == s[1];
    }
    if NeedImm(d.icode) {
      var at := if NeedRegids(d.icode) then 2 else 1;
      assert m[p + at..p + at + 8] == s[at..] == Encode(Unsigned(f.val), 8);
      WordReads(m, p + at, f.val);
    }
  }

  lemma Lengths(d: Entry, f: Fields)
    requires Sound(d) && !IsData(d) && 0 <= f.ra < 16 && 0 <= f.rb < 16
    ensures |Encoding(d, f)| == d.bytes
    ensures d.bytes == 1 + (if NeedRegids(d.icode) then 1 else 0) + (if NeedImm(d.icode) then 8 else 0)
  {
  }

  lemma WordReads(m: Mem, p: nat, v: word)
    requires p + 8 <= |m| && m[p..p + 8] == Encode(Unsigned(v), 8)
    ensures GetWord(m, p) == v
  {
    WordRoundTrip(v);
  }

  /** A .quad reads back as its value. */
  lemma QuadReads(f: Fields, m: Mem, p: nat)
    requires 0 <= f.ra < 16 && 0 <= f.rb < 16 && p + 8 <= |m| && m[p..p + 8] == Encoding(Table(QUAD), f)
    ensures GetWord(m, p) == f.val
  {
    EncodeWord(f.val);
    WordReads(m, p, f.val);
  }

  /** With these flags every conditional jump and move takes effect in just the order its name says. */
  predicate OrdersAs(cc: Cc, a: word, b: word) {
    && (CondHolds(cc, Table(JLE).ifun) <==> b <= a) && (CondHolds(cc, Table(CMOVLE).ifun) <==> b <= a)
    && (CondHolds(cc, Table(JL).ifun) <==> b < a) && (CondHolds(cc, Table(CMOVL).ifun) <==> b < a)
    && (CondHolds(cc, Table(JE).ifun) <==> b == a) && (CondHolds(cc, Table(CMOVE).ifun) <==> b == a)
    && (CondHolds(cc, Table(JNE).ifun) <==> b != a) && (CondHolds(cc, Table(CMOVNE).ifun) <==> b != a)
    && (CondHolds(cc, Table(JGE).ifun) <==> b >= a) && (CondHolds(cc, Table(CMOVGE).ifun) <==> b >= a)
    && (CondHolds(cc, Table(JG).ifun) <==> b > a) && (CondHolds(cc, Table(CMOVG).ifun) <==> b > a)
    && CondHolds(cc, Table(JMP).ifun) && CondHolds(cc, Table(RRMOVQ).ifun)
  }

  /** The mnemonics mean what they are called: after subq of a from b, each jump and each move takes effect
      in just the order its name says. */
  lemma MnemonicsMean(a: word, b: word)
    ensures OrdersAs(ComputeCc(Table(SUBQ).ifun, a, b), a, b)
    ensures ComputeAlu(Table(ADDQ).ifun, a, b) == Wrap(a + b) && ComputeAlu(Table(SUBQ).ifun, a, b) == Wrap(b - a)
    ensures ComputeAlu(Table(ANDQ).ifun, a, a) == a && ComputeAlu(Table(XORQ).ifun, a, a) == 0
  {
    TableFunctions();
    SubDecidesOrder(a, b);
    SelfOperands(a);
    hide ComputeCc, CondHolds, Table, BitAnd, BitXor;
    var cc := ComputeCc(A_SUB, a, b);
    assert CondHolds(cc, C_YES) by { Unconditional(cc); }
    assert OrdersAs(cc, a, b);
  }

  lemma Unconditional(cc: Cc)
    ensures CondHolds(cc, C_YES)
  {
  }

  lemma TableFunctions()
    ensures Table(JMP).ifun == C_YES && Table(RRMOVQ).ifun == C_YES
    ensures Table(JLE).ifun == Table(CMOVLE).ifun == C_LE && Table(JL).ifun == Table(CMOVL).ifun == C_L
    ensures Table(JE).ifun == Table(CMOVE).ifun == C_E && Table(JNE).ifun == Table(CMOVNE).ifun == C_NE
    ensures Table(JGE).ifun == Table(CMOVGE).ifun == C_GE && Table(JG).ifun == Table(CMOVG).ifun == C_G
    ensures Table(ADDQ).ifun == A_ADD && Table(SUBQ).ifun == A_SUB
    ensures Table(ANDQ).ifun == A_AND && Table(XORQ).ifun == A_XOR
  {
    hide Table;
    JumpFunctions();
    OtherJumpFunctions();
    MoveFunctions();
    AluFunctions();
  }

  lemma JumpFunctions()
    ensures Table(JMP).ifun == C_YES && Table(JLE).ifun == C_LE && Table(JL).ifun == C_L && Table(JE).ifun == C_E
  {
  }

  lemma OtherJumpFunctions()
    ensures Table(JNE).ifun == C_NE && Table(JGE).ifun == C_GE && Table(JG).ifun == C_G
  {
  }

  lemma MoveFunctions()
    ensures Table(RRMOVQ).ifun == C_YES && Table(CMOVLE).ifun == C_LE && Table(CMOVL).ifun == C_L
    ensures Table(CMOVE).ifun == C_E && Table(CMOVNE).ifun == C_NE
    ensures Table(CMOVGE).ifun == C_GE && Table(CMOVG).ifun == C_G
  {
  }

  lemma AluFunctions()
    ensures Table(ADDQ).ifun == A_ADD && Table(SUBQ).ifun == A_SUB
    ensures Table(ANDQ).ifun == A_AND && Table(XORQ).ifun == A_XOR
  {
  }

  // ------------------------------------------------------------------------------------------
  // Syntax

  /** Operands as they are written. */
  datatype Operand = OReg(id: regid) | OImm(t: Token) | OMem(disp: Option<Token>, base: Option<regid>)

  predicate IsImm(t: Token) { t.TNum? || t.TIdent? }

  function OperandTokens(o: Operand): seq<Token> {
    match o
    case OReg(id) => [TReg(id)]
    case OImm(t) => [t]
    case OMem(disp, base) =>
      (if disp.Some? then [disp.value] else []) +
      (if base.Some? then [TPunct('('), TReg(base.value), TPunct(')')] else [])
  }

  /** The operand fits the kind of argument, and its labels are defined. */
  predicate Suits(kind: Arg, table: SymbolTable, o: Operand) {
    match o
    case OReg(_) => kind == R
    case OImm(t) => kind == I && IsImm(t) && ImmOf(table, t).Some?
    case OMem(disp, base) =>
      && kind == M && (disp.Some? || base.Some?)
      && (disp.Some? ==> IsImm(disp.value) && ImmOf(table, disp.value).Some?)
  }

  function OperandReg(o: Operand): int {
    match o
    case OReg(id) => id
    case OImm(_) => REG_NONE
    case OMem(_, base) => if base.Some? then base.value else REG_NONE
  }

  function OperandVal(kind: Arg, table: SymbolTable, o: Operand): word
    requires Suits(kind, table, o)
  {
    match o
    case OReg(_) => 0
    case OImm(t) => ImmOf(table, t).value
    case OMem(disp, _) => if disp.Some? then ImmOf(table, disp.value).value else 0
  }

  /** Every written operand is read as what it says, in all five forms of a memory reference. */
  lemma OperandReads(kind: Arg, table: SymbolTable, line: seq<Token>, at: nat, o: Operand)
    requires Suits(kind, table, o)
    requires var n := |OperandTokens(o)|;
      at + n <= |line| && line[at..at + n] == OperandTokens(o) && Tok(line, at + n) != TPunct('(')
    ensures ParseArg(kind, table, line, at) ==
            Some(ArgVal(OperandReg(o), OperandVal(kind, table, o), at + |OperandTokens(o)|))
  {
    hide ImmOf;
    var toks := OperandTokens(o);
    var n := |toks|;
    assert forall i :: 0 <= i < n ==> Tok(line, at + i) == toks[i] by {
      forall i | 0 <= i < n
        ensures Tok(line, at + i) == toks[i]
      {
        assert line[at..at + n][i] == line[at + i];
      }
    }
    match o
    case OReg(id) => assert Tok(line, at + 0) == toks[0];
    case OImm(t) => assert Tok(line, at + 0) == toks[0];
    case OMem(disp, base) =>
      var i := if disp.Some? then 1 else 0;
      if disp.Some? {
        assert Tok(line, at + 0) == toks[0] == disp.value;
      }
      if base.Some? {
        assert Tok(line, at + i) == toks[i] == TPunct('(');
        assert Tok(line, at + (i + 1)) == toks[i + 1] == TReg(base.value);
        assert Tok(line, at + (i + 2)) == toks[i + 2] == TPunct(')');
      }
  }

  /** The fields a two-operand instruction is written to have: which operand is rA, which is rB. */
  function Written(d: Entry, table: SymbolTable, o1: Operand, o2: Operand): Fields
    requires Suits(d.arg1, table, o1) && Suits(d.arg2, table, o2)
  {
    match FormatOf(d)
    case FRegs => Fields(OperandReg(o1), OperandReg(o2), 0)
    case FImmReg => Fields(REG_NONE, OperandReg(o2), OperandVal(I, table, o1))
    case FRegMem => Fields(OperandReg(o1), OperandReg(o2), OperandVal(M, table, o2))
    case FMemReg => Fields(OperandReg(o2), OperandReg(o1), OperandVal(M, table, o1))
    case _ => Fields(REG_NONE, REG_NONE, 0)
  }

  /** Operands, comma and all, are read as the fields written. */
  lemma StatementReads(d: Entry, table: SymbolTable, pre: seq<Token>, o1: Operand, o2: Operand)
    requires Sound(d) && d.arg2 != NoArg && Suits(d.arg1, table, o1) && Suits(d.arg2, table, o2)
    ensures var line := pre + OperandTokens(o1) + [TPunct(',')] + OperandTokens(o2);
      FieldsOf(d, table, line, |pre|) == Some(Written(d, table, o1, o2))
  {
    hide OperandTokens, ParseArg, Suits, OperandReg, OperandVal;
    var t1, t2 := OperandTokens(o1), OperandTokens(o2);
    var line := pre + t1 + [TPunct(',')] + t2;
    var mid := |pre| + |t1|;
    assert line[|pre|..mid] == t1 && Tok(line, mid) == TPunct(',');
    OperandReads(d.arg1, table, line, |pre|, o1);
    assert line[mid + 1..mid + 1 + |t2|] == t2 && Tok(line, mid + 1 + |t2|) == TErr;
    OperandReads(d.arg2, table, line, mid + 1, o2);
    FieldsFollow(d, table, line, |pre|, o1, o2);
  }

  lemma FieldsFollow(d: Entry, table: SymbolTable, line: seq<Token>, at: nat, o1: Operand, o2: Operand)
    requires Sound(d) && d.arg2 != NoArg && Suits(d.arg1, table, o1) && Suits(d.arg2, table, o2)
    requires var mid := at + |OperandTokens(o1)|;
      && ParseArg(d.arg1, table, line, at) == Some(ArgVal(OperandReg(o1), OperandVal(d.arg1, table, o1), mid))
      && Tok(line, mid) == TPunct(',')
      && ParseArg(d.arg2, table, line, mid + 1) ==
         Some(ArgVal(OperandReg(o2), OperandVal(d.arg2, table, o2), mid + 1 + |OperandTokens(o2)|))
    ensures FieldsOf(d, table, line, at) == Some(Written(d, table, o1, o2))
  {
    hide ParseArg, OperandTokens, Tok, Suits, OperandReg, OperandVal;
  }

  // ------------------------------------------------------------------------------------------
  // The listing in memory

  predicate Printable(out: seq<Emitted>) {
    forall k :: 0 <= k < |out| ==> InRange(out[k])
  }

  /** The lines of the listing. */
  function Lines(out: seq<Emitted>, texts: seq<string>): (r: seq<string>)
    requires Printable(out) && |texts| == |out|
    ensures |r| == |out|
  {
    seq(|out|, k requires 0 <= k < |out| => Render(out[k], texts[k]))
  }

  predicate FitsMemory(out: seq<Emitted>, len: nat) {
    forall k :: 0 <= k < |out| ==> out[k].code == [] || out[k].pos + |out[k].code| <= len
  }

  /** The bytes of the first `n` lines put into memory one line after the other. */
  function Image(m: seq<byte>, out: seq<Emitted>, n: nat): seq<byte>
    requires n <= |out| && Printable(out) && FitsMemory(out, |m|)
    ensures |Image(m, out, n)| == |m|
  {
    if n == 0 then m
    else
      var e := out[n - 1];
      var before := Image(m, out, n - 1);
      if e.blank || e.code == [] then before else Splice(before, e.pos, e.code)
  }

  /** Loading the listing stores exactly the emitted bytes at their addresses, whatever the source text. */
  lemma {:induction false} ListingLoads(m: seq<byte>, out: seq<Emitted>, texts: seq<string>, n: nat)
    requires Printable(out) && |texts| == |out| && n <= |out| && FitsMemory(out, |m|)
    ensures forall k :: 0 <= k < n ==> FitsIn(ReadLine(Lines(out, texts)[k]), |m|)
    ensures LoadAll(m, Lines(out, texts), n) == Image(m, out, n)
  {
    hide Render, ReadLine, Splice;
    if n > 0 {
      ListingLoads(m, out, texts, n - 1);
      var e, line := out[n - 1], Lines(out, texts)[n - 1];
      RenderReads(e, texts[n - 1]);
      assert line == Render(e, texts[n - 1]);
      assert FitsIn(ReadLine(line), |m|);
      forall k | 0 <= k < n
        ensures FitsIn(ReadLine(Lines(out, texts)[k]), |m|)
      {
      }
    }
  }

  predicate Apart(a: Emitted, b: Emitted) { b.code == [] || b.pos + |b.code| <= a.pos || a.pos + |a.code| <= b.pos }

  /** A line's bytes are still there at the end if no later line covers them. */
  lemma {:induction false} BytesStay(m: seq<byte>, out: seq<Emitted>, k: nat, n: nat)
    requires k < n <= |out| && Printable(out) && FitsMemory(out, |m|) && !out[k].blank && out[k].code != []
    requires forall j :: k < j < n ==> Apart(out[k], out[j])
    ensures Image(m, out, n)[out[k].pos..out[k].pos + |out[k].code|] == out[k].code
  {
    var e := out[k];
    if k < n - 1 {
      BytesStay(m, out, k, n - 1);
      assert Apart(e, out[n - 1]);
      var before := Image(m, out, n - 1);
      assert Image(m, out, n)[e.pos..e.pos + |e.code|] == before[e.pos..e.pos + |e.code|];
    }
  }

  /** Line `k` is an instruction, not data. */
  ghost predicate InstrLine(lines: seq<seq<Token>>, k: nat)
    requires k < |lines|
  {
    var s := ShapeOf(lines[k], PosAt(lines, k));
    s.Code? && !IsData(Table(s.m))
  }

  /** The table entry and the fields of line `k`. */
  function LineDef(lines: seq<seq<Token>>, k: nat): Entry
    requires k < |lines| && InstrLine(lines, k)
  {
    Table(ShapeOf(lines[k], PosAt(lines, k)).m)
  }

  function LineFields(lines: seq<seq<Token>>, k: nat): Option<Fields>
    requires k < |lines| && InstrLine(lines, k)
  {
    FieldsOf(LineDef(lines, k), Labels(lines, |lines|), lines[k], ShapeOf(lines[k], PosAt(lines, k)).args)
  }

  lemma PrintedInstr(lines: seq<seq<Token>>, out: seq<Emitted>, k: nat)
    requires Printed(Labels(lines, |lines|), lines, |lines|, out) && k < |lines| && InstrLine(lines, k)
    ensures var d, f := LineDef(lines, k), LineFields(lines, k);
      && f.Some? && Sound(d) && !IsData(d) && 0 <= f.value.ra < 16 && 0 <= f.value.rb < 16
      && |out| == |lines| && out[k] == Emitted(PosAt(lines, k), Encoding(d, f.value), false)
  {
    hide FieldsOf, Encoding, Table, Labels, PosAt, Sound;
    assert LineOutput(Labels(lines, |lines|), lines[k], PosAt(lines, k)) == Some(out[k]);
  }

  /** The processor decodes, at the position of line `k`, the instruction written there. */
  ghost predicate DecodesAs(m: Mem, lines: seq<seq<Token>>, k: nat)
    requires k < |lines| && InstrLine(lines, k)
  {
    var d, f, p := LineDef(lines, k), LineFields(lines, k), PosAt(lines, k);
    f.Some? && 0 <= p && p + d.bytes <= |m| && d.bytes > 0 && Decode(m, p) == Intended(d, f.value, p)
  }

  /** An instruction line of an assembled source, its listing loaded into memory, is decoded at the line's
      position as the instruction that was written, if no later line writes over it. */
  lemma AssembledDecodes(lines: seq<seq<Token>>, out: seq<Emitted>, m: Mem, k: nat)
    requires Printed(Labels(lines, |lines|), lines, |lines|, out) && k < |lines| && InstrLine(lines, k)
    requires Printable(out) && FitsMemory(out, |m|)
    requires forall j :: k < j < |out| ==> Apart(out[k], out[j])
    ensures DecodesAs(Image(m, out, |out|), lines, k)
  {
    hide InstrLine, LineDef, LineFields, PosAt, Labels, Printed, Encoding, Image, Sound, Apart, DecodesAs, IsData;
    PrintedInstr(lines, out, k);
    var d, f := LineDef(lines, k), LineFields(lines, k).value;
    Lengths(d, f);
    BytesStay(m, out, k, |out|);
    BytesDecode(Image(m, out, |out|), lines, k);
    assert DecodesAs(Image(m, out, |out|), lines, k);
  }

  lemma BytesDecode(m: Mem, lines: seq<seq<Token>>, k: nat)
    requires k < |lines| && InstrLine(lines, k)
    requires var d, f, p := LineDef(lines, k), LineFields(lines, k), PosAt(lines, k);
      && f.Some? && Sound(d) && !IsData(d) && 0 <= f.value.ra < 16 && 0 <= f.value.rb < 16
      && 0 <= p && p + d.bytes <= |m| && m[p..p + d.bytes] == Encoding(d, f.value)
    ensures DecodesAs(m, lines, k)
  {
    hide InstrLine, LineDef, LineFields, PosAt, Encoding, Decode, Sound;
    var d, f := LineDef(lines, k), LineFields(lines, k).value;
    Lengths(d, f);
    EncodingDecodes(d, f, m, PosAt(lines, k));
    assert DecodesAs(m, lines, k);
  }
}
