/** The SystemZ post-rewrite pass: after register rewriting it selects the
    register-class-agnostic pseudos `LOCRMux` and `SELRMux` and the memory-folding
    pseudos into real SystemZ instructions, once the physical registers (low or high
    halves of the 64-bit GPRs) are known. */
module SystemZPostRewrite {
  import opened Wrappers

  type Reg = nat

  datatype Opcode =
    | LOCRMux | SELRMux
    | LOCR | LOCFHR | SELR | SELFHR
    | COPY | BRC
    | OtherOpcode(code: nat)

  /** What the pass asks of the target description. Both are uninterpreted:
      `SystemZ::isHighReg` and `SystemZ::getTargetMemOpcode` (`None` for -1). */
  datatype TargetInfo = TargetInfo(isHighReg: Reg -> bool, targetMemOpcode: Opcode -> Option<Opcode>)

  /** Machine operands: registers, 4-bit condition-code masks, block references, and
      anything else. */
  datatype Operand =
    | RegOp(reg: Reg)
    | CondOp(imm: bv4)
    | BlockOp(block: MachineBasicBlock)
    | OtherOp(value: int)

  /** A machine instruction; `tied` records `tieOperands(0, 1)`. */
  datatype Instr = Instr(opcode: Opcode, operands: seq<Operand>, tied: bool)

  /** The operand layout of a conditional move: destination, first source, second source,
      CC-valid mask, CC mask. */
  predicate CondMoveForm(mi: Instr) {
    |mi.operands| == 5 && mi.operands[0].RegOp? && mi.operands[1].RegOp? &&
    mi.operands[2].RegOp? && mi.operands[3].CondOp? && mi.operands[4].CondOp?
  }

  /** A memory-folding pseudo: destination and source registers first. */
  predicate MemFoldForm(mi: Instr) {
    |mi.operands| >= 2 && mi.operands[0].RegOp? && mi.operands[1].RegOp?
  }

  function Dest(mi: Instr): Reg
    requires |mi.operands| >= 1 && mi.operands[0].RegOp?
  {
    mi.operands[0].reg
  }

  function Src1(mi: Instr): Reg
    requires |mi.operands| >= 2 && mi.operands[1].RegOp?
  {
    mi.operands[1].reg
  }

  function Src2(mi: Instr): Reg
    requires CondMoveForm(mi)
  {
    mi.operands[2].reg
  }

  function CCValid(mi: Instr): bv4
    requires CondMoveForm(mi)
  {
    mi.operands[3].imm
  }

  function CCMask(mi: Instr): bv4
    requires CondMoveForm(mi)
  {
    mi.operands[4].imm
  }

  function Copy(dest: Reg, src: Reg): Instr {
    Instr(COPY, [RegOp(dest), RegOp(src)], false)
  }

  function Brc(valid: bv4, mask: bv4, target: MachineBasicBlock): Instr {
    Instr(BRC, [CondOp(valid), CondOp(mask), BlockOp(target)], false)
  }

  /** `MachineOperand::setReg` on operand `k`. */
  function SetReg(mi: Instr, k: nat, r: Reg): Instr
    requires k < |mi.operands| && mi.operands[k].RegOp?
  {
    mi.(operands := mi.operands[k := RegOp(r)])
  }

  /** `commuteInstruction(MI, false, 1, 2)` on a conditional move: the sources swap and the
      condition is inverted within the valid mask. */
  function Commute(mi: Instr): Instr
    requires CondMoveForm(mi)
  {
    mi.(operands := [mi.operands[0], mi.operands[2], mi.operands[1], mi.operands[3],
                     CondOp(CCMask(mi) ^ CCValid(mi))])
  }

  /** --- Selection of one instruction, as values --- */

  /** What selecting one instruction does to it:
      `Rewritten`: `copies` are inserted before it and it becomes `mi`;
      `ReplacedByCopy`: it is replaced by one COPY;
      `Expanded`: `copies` are inserted before it, and `mi` is expanded into a branch
      sequence by `expandCondMove`. */
  datatype Selection =
    | NotSelected
    | Rewritten(copies: seq<Instr>, mi: Instr)
    | ReplacedByCopy(copy: Instr)
    | Expanded(copies: seq<Instr>, mi: Instr)

  /** What `selectMI` demands of each pseudo: the operand kinds it reads, and for
      `LOCRMux` the tie of destination and first source whenever `expandCondMove` will be
      reached. */
  predicate WellFormed(ti: TargetInfo, mi: Instr) {
    if ti.targetMemOpcode(mi.opcode).Some? then MemFoldForm(mi)
    else if mi.opcode == LOCRMux then
      CondMoveForm(mi) && (ti.isHighReg(Dest(mi)) != ti.isHighReg(Src2(mi)) ==> Dest(mi) == Src1(mi))
    else mi.opcode == SELRMux ==> CondMoveForm(mi)
  }

  predicate IsPseudo(ti: TargetInfo, mi: Instr) {
    ti.targetMemOpcode(mi.opcode).Some? || mi.opcode == LOCRMux || mi.opcode == SELRMux
  }

  function SelectMemFoldOf(mi: Instr, target: Opcode): Selection
    requires MemFoldForm(mi)
  {
    var m := mi.(opcode := target, tied := true);
    if Dest(mi) != Src1(mi) then Rewritten([Copy(Dest(mi), Src1(mi))], SetReg(m, 1, Dest(mi)))
    else Rewritten([], m)
  }

  function SelectLOCRMuxOf(ti: TargetInfo, mi: Instr, low: Opcode, high: Opcode): Selection
    requires CondMoveForm(mi)
  {
    var destIsHigh := ti.isHighReg(Dest(mi));
    var srcIsHigh := ti.isHighReg(Src2(mi));
    if !destIsHigh && !srcIsHigh then Rewritten([], mi.(opcode := low))
    else if destIsHigh && srcIsHigh then Rewritten([], mi.(opcode := high))
    else Expanded([], mi)
  }

  /** The first simplification of `selectSELRMux`: when the destination is neither source,
      copy into it the first source, in operand order, whose class differs from it. */
  function SELRMuxCopyStage(ti: TargetInfo, mi: Instr): (seq<Instr>, Instr)
    requires CondMoveForm(mi)
  {
    var d, s1, s2 := Dest(mi), Src1(mi), Src2(mi);
    if d != s1 && d != s2 && ti.isHighReg(d) != ti.isHighReg(s1) then ([Copy(d, s1)], SetReg(mi, 1, d))
    else if d != s1 && d != s2 && ti.isHighReg(d) != ti.isHighReg(s2) then ([Copy(d, s2)], SetReg(mi, 2, d))
    else ([], mi)
  }

  /** The second simplification: a destination equal to the second source only is moved
      first by commuting. */
  function SELRMuxCommuteStage(mi: Instr): Instr
    requires CondMoveForm(mi)
  {
    if Dest(mi) != Src1(mi) && Dest(mi) == Src2(mi) then Commute(mi) else mi
  }

  /** Both simplifications: the copies inserted before the instruction and the
      instruction the final choice is made on. */
  function SELRMuxSimplify(ti: TargetInfo, mi: Instr): (seq<Instr>, Instr)
    requires CondMoveForm(mi)
  {
    var (copies, mi1) := SELRMuxCopyStage(ti, mi);
    (copies, SELRMuxCommuteStage(mi1))
  }

  /** The three registers of a conditional move are not all in the same half. */
  predicate MixedClasses(ti: TargetInfo, mi: Instr)
    requires CondMoveForm(mi)
  {
    var dh, h1, h2 := ti.isHighReg(Dest(mi)), ti.isHighReg(Src1(mi)), ti.isHighReg(Src2(mi));
    !(!dh && !h1 && !h2) && !(dh && h1 && h2)
  }

  /** The final choice: all low, all high, or a branch sequence. */
  function SELRMuxChoice(ti: TargetInfo, copies: seq<Instr>, mi: Instr, low: Opcode, high: Opcode): Selection
    requires CondMoveForm(mi)
  {
    var dh, h1, h2 := ti.isHighReg(Dest(mi)), ti.isHighReg(Src1(mi)), ti.isHighReg(Src2(mi));
    if !dh && !h1 && !h2 then Rewritten(copies, mi.(opcode := low))
    else if dh && h1 && h2 then Rewritten(copies, mi.(opcode := high))
    else Expanded(copies, mi)
  }

  function SelectSELRMuxOf(ti: TargetInfo, mi: Instr, low: Opcode, high: Opcode): Selection
    requires CondMoveForm(mi)
  {
    if Src1(mi) == Src2(mi) then ReplacedByCopy(Copy(Dest(mi), Src1(mi)))
    else
      var (copies, mi2) := SELRMuxSimplify(ti, mi);
      SELRMuxChoice(ti, copies, mi2, low, high)
  }

  /** `selectMI` as a value: memory-folding pseudos first, then the two conditional-move
      pseudos; any other instruction is left alone exactly when it is not a pseudo. */
  function SelectInstrOf(ti: TargetInfo, mi: Instr): (r: Selection)
    requires WellFormed(ti, mi)
    ensures r.NotSelected? <==> !IsPseudo(ti, mi)
  {
    match ti.targetMemOpcode(mi.opcode)
    case Some(target) => SelectMemFoldOf(mi, target)
    case None =>
      if mi.opcode == LOCRMux then SelectLOCRMuxOf(ti, mi, LOCR, LOCFHR)
      else if mi.opcode == SELRMux then SelectSELRMuxOf(ti, mi, SELR, SELFHR)
      else NotSelected
  }

  /** --- Properties of selection --- */

  /** `selectLOCRMux`: low opcode for two low registers, high opcode for two high ones,
      otherwise the branch sequence; the instruction is otherwise untouched. */
  lemma LOCRMuxChoice(ti: TargetInfo, mi: Instr, low: Opcode, high: Opcode)
    requires CondMoveForm(mi) && low != high
    ensures var r := SelectLOCRMuxOf(ti, mi, low, high);
            var dh, sh := ti.isHighReg(Dest(mi)), ti.isHighReg(Src2(mi));
            (r.Rewritten? && r.mi.opcode == low <==> !dh && !sh) &&
            (r.Rewritten? && r.mi.opcode == high <==> dh && sh) &&
            (r.Expanded? <==> dh != sh) &&
            (r.Rewritten? || r.Expanded?) && r.copies == [] &&
            r.mi.operands == mi.operands && r.mi.tied == mi.tied
  {
  }

  /** `selectSELRMux` with equal sources: one COPY of that source into the destination
      replaces the instruction, and this happens only then. */
  lemma SELRMuxSameSources(ti: TargetInfo, mi: Instr, low: Opcode, high: Opcode)
    requires CondMoveForm(mi)
    ensures SelectSELRMuxOf(ti, mi, low, high).ReplacedByCopy? <==> Src1(mi) == Src2(mi)
    ensures Src1(mi) == Src2(mi) ==>
              SelectSELRMuxOf(ti, mi, low, high) == ReplacedByCopy(Copy(Dest(mi), Src1(mi)))
  {
  }

  /** The final choice keeps the copies and the operands of the instruction it classifies. */
  lemma ChoiceShape(ti: TargetInfo, copies: seq<Instr>, mi: Instr, low: Opcode, high: Opcode)
    requires CondMoveForm(mi)
    ensures var r := SELRMuxChoice(ti, copies, mi, low, high);
            (r.Rewritten? || r.Expanded?) && r.copies == copies && r.mi.operands == mi.operands
  {
  }

  /** `selectSELRMux` inserts at most one COPY, only when the destination is neither
      source, of the first source whose class differs from the destination's; the
      instruction then reads the destination as its first source and the other source as
      its second. */
  lemma SELRMuxCopies(ti: TargetInfo, mi: Instr, low: Opcode, high: Opcode)
    requires CondMoveForm(mi) && Src1(mi) != Src2(mi)
    ensures var r := SelectSELRMuxOf(ti, mi, low, high);
            r.Rewritten? || r.Expanded?
    ensures var r := SelectSELRMuxOf(ti, mi, low, high);
            var d, s1, s2 := Dest(mi), Src1(mi), Src2(mi);
            var dh := ti.isHighReg(d);
            r.copies == [] <==> !(d != s1 && d != s2 && (dh != ti.isHighReg(s1) || dh != ti.isHighReg(s2)))
    ensures var r := SelectSELRMuxOf(ti, mi, low, high);
            var d, s1, s2 := Dest(mi), Src1(mi), Src2(mi);
            d != s1 && d != s2 && ti.isHighReg(d) != ti.isHighReg(s1) ==>
              r.copies == [Copy(d, s1)] && CondMoveForm(r.mi) && Dest(r.mi) == d && Src1(r.mi) == d && Src2(r.mi) == s2
    ensures var r := SelectSELRMuxOf(ti, mi, low, high);
            var d, s1, s2 := Dest(mi), Src1(mi), Src2(mi);
            d != s1 && d != s2 && ti.isHighReg(d) == ti.isHighReg(s1) && ti.isHighReg(d) != ti.isHighReg(s2) ==>
              r.copies == [Copy(d, s2)] && CondMoveForm(r.mi) && Dest(r.mi) == d && Src1(r.mi) == d && Src2(r.mi) == s1
  {
    var (copies, mi2) := SELRMuxSimplify(ti, mi);
    ChoiceShape(ti, copies, mi2, low, high);
  }

  /** The claim the pass relies on: whenever selection reaches `expandCondMove`, the
      destination equals operand 1, as `expandCondMove` asserts. */
  lemma ExpandedOperandIsDest(ti: TargetInfo, mi: Instr)
    requires WellFormed(ti, mi)
    ensures var r := SelectInstrOf(ti, mi);
            r.Expanded? ==> CondMoveForm(r.mi) && Dest(r.mi) == Src1(r.mi) && Dest(r.mi) == Dest(mi)
  {
    if ti.targetMemOpcode(mi.opcode).None? && mi.opcode == SELRMux && Src1(mi) != Src2(mi) {
      var (copies, mi2) := SELRMuxSimplify(ti, mi);
      SELRMuxSimplified(ti, mi, SELR, SELFHR);
      ChoiceShape(ti, copies, mi2, SELR, SELFHR);
    }
  }

  /** `selectSELRMux` chooses `SELR` only for an all-low instruction, `SELFHR` only for an
      all-high one, and the branch sequence only when the destination and the second
      source are of different classes. */
  lemma SELRMuxOpcodeFitsRegisters(ti: TargetInfo, mi: Instr)
    requires CondMoveForm(mi) && mi.opcode == SELRMux && ti.targetMemOpcode(SELRMux).None?
    ensures var r := SelectInstrOf(ti, mi);
            var h := ti.isHighReg;
            (r.Rewritten? ==> CondMoveForm(r.mi) && r.mi.opcode in {SELR, SELFHR}) &&
            (r.Rewritten? && r.mi.opcode == SELR ==> !h(Dest(r.mi)) && !h(Src1(r.mi)) && !h(Src2(r.mi))) &&
            (r.Rewritten? && r.mi.opcode == SELFHR ==> h(Dest(r.mi)) && h(Src1(r.mi)) && h(Src2(r.mi))) &&
            (r.Expanded? ==> h(Dest(r.mi)) != h(Src2(r.mi)))
  {
    if Src1(mi) != Src2(mi) {
      var (copies, mi2) := SELRMuxSimplify(ti, mi);
      SELRMuxSimplified(ti, mi, SELR, SELFHR);
      ChoiceShape(ti, copies, mi2, SELR, SELFHR);
    }
  }

  /** A memory-folding pseudo takes the target memory opcode, ties operands 0 and 1, and
      makes them equal, by one COPY of the old source exactly when they differed. */
  lemma MemFoldSelection(ti: TargetInfo, mi: Instr)
    requires WellFormed(ti, mi) && ti.targetMemOpcode(mi.opcode).Some?
    ensures var r := SelectInstrOf(ti, mi);
            r.Rewritten? && MemFoldForm(r.mi) &&
            r.mi.opcode == ti.targetMemOpcode(mi.opcode).value && r.mi.tied &&
            Dest(r.mi) == Dest(mi) && Src1(r.mi) == Dest(mi) &&
            r.mi.operands[2..] == mi.operands[2..] &&
            r.copies == (if Dest(mi) != Src1(mi) then [Copy(Dest(mi), Src1(mi))] else [])
  {
  }

  /** After both simplifications the instruction keeps its destination, and it reaches
      `expandCondMove` only with the destination as its first source. */
  lemma SELRMuxSimplified(ti: TargetInfo, mi: Instr, low: Opcode, high: Opcode)
    requires CondMoveForm(mi) && Src1(mi) != Src2(mi)
    ensures var (copies, mi2) := SELRMuxSimplify(ti, mi);
            CondMoveForm(mi2) && Dest(mi2) == Dest(mi) &&
            (MixedClasses(ti, mi2) ==> Dest(mi2) == Src1(mi2))
  {
  }

  /** --- Register semantics of the conditional moves --- */

  /** Registers (absent ones read as 0) and the condition code, 0 to 3. */
  datatype MachineState = MachineState(regs: map<Reg, int>, cc: nat)

  function Read(st: MachineState, r: Reg): int {
    if r in st.regs then st.regs[r] else 0
  }

  function Write(st: MachineState, r: Reg, v: int): MachineState {
    st.(regs := st.regs[r := v])
  }

  /** Bit `8 >> cc` of a condition mask. */
  function CondHolds(mask: bv4, cc: nat): bool
    requires cc < 4
  {
    (mask >> (3 - cc)) & 1 == 1
  }

  predicate IsCondMoveOpcode(op: Opcode) {
    op in {LOCRMux, SELRMux, LOCR, LOCFHR, SELR, SELFHR}
  }

  predicate Executable(mi: Instr) {
    (mi.opcode == COPY && |mi.operands| == 2 && mi.operands[0].RegOp? && mi.operands[1].RegOp?) ||
    (IsCondMoveOpcode(mi.opcode) && CondMoveForm(mi))
  }

  /** A COPY moves its source; a conditional move writes its second source when the
      condition holds and its first source otherwise. */
  function Exec(mi: Instr, st: MachineState): (r: MachineState)
    requires Executable(mi) && st.cc < 4
    ensures r.cc == st.cc
  {
    if mi.opcode == COPY then Write(st, Dest(mi), Read(st, Src1(mi)))
    else Write(st, Dest(mi), if CondHolds(CCMask(mi), st.cc) then Read(st, Src2(mi)) else Read(st, Src1(mi)))
  }

  function ExecAll(s: seq<Instr>, st: MachineState): (r: MachineState)
    requires st.cc < 4 && forall k :: 0 <= k < |s| ==> Executable(s[k])
    ensures r.cc == st.cc
    decreases |s|
  {
    if |s| == 0 then st else ExecAll(s[1..], Exec(s[0], st))
  }

  predicate SelectionExecutable(sel: Selection) {
    match sel
    case NotSelected => false
    case Rewritten(c, m) => Executable(m) && forall k :: 0 <= k < |c| ==> Executable(c[k])
    case ReplacedByCopy(c) => Executable(c)
    case Expanded(c, m) => CondMoveForm(m) && forall k :: 0 <= k < |c| ==> Executable(c[k])
  }

  /** Running what selection produced. An expansion branches to the rest block when the
      inverted condition holds and otherwise runs the move block's COPY first. */
  function ExecSelection(sel: Selection, st: MachineState): MachineState
    requires SelectionExecutable(sel) && st.cc < 4
  {
    match sel
    case Rewritten(c, m) => Exec(m, ExecAll(c, st))
    case ReplacedByCopy(c) => Exec(c, st)
    case Expanded(c, m) =>
      var st1 := ExecAll(c, st);
      if CondHolds(CCMask(m) ^ CCValid(m), st.cc) then st1 else Exec(Copy(Dest(m), Src2(m)), st1)
  }

  ghost predicate Agree(a: MachineState, b: MachineState) {
    a.cc == b.cc && forall r :: Read(a, r) == Read(b, r)
  }

  /** Inverting a mask within the valid mask negates the condition, for every condition
      code the valid mask allows. */
  lemma InvertedCondition(mask: bv4, valid: bv4, cc: nat)
    requires cc < 4 && CondHolds(valid, cc)
    ensures CondHolds(mask ^ valid, cc) == !CondHolds(mask, cc)
  {
  }

  /** Commuting a conditional move leaves its effect unchanged. */
  lemma CommutePreserves(mi: Instr, st: MachineState)
    requires IsCondMoveOpcode(mi.opcode) && CondMoveForm(mi) && st.cc < 4 && CondHolds(CCValid(mi), st.cc)
    ensures Executable(Commute(mi)) && Exec(Commute(mi), st) == Exec(mi, st)
  {
    InvertedCondition(CCMask(mi), CCValid(mi), st.cc);
  }

  /** A conditional move whose destination is its first source has the effect of the
      branch sequence `expandCondMove` builds for it. */
  lemma ExpansionPreserves(m: Instr, st: MachineState)
    requires IsCondMoveOpcode(m.opcode) && CondMoveForm(m) && Dest(m) == Src1(m)
    requires st.cc < 4 && CondHolds(CCValid(m), st.cc)
    ensures var moved := if CondHolds(CCMask(m) ^ CCValid(m), st.cc) then st else Exec(Copy(Dest(m), Src2(m)), st);
            Agree(moved, Exec(m, st))
  {
    InvertedCondition(CCMask(m), CCValid(m), st.cc);
  }

  /** Copying source `k` into a destination that is neither source, and reading the
      destination in its place, does not change what a conditional move computes. */
  lemma CopyPreserves(mi: Instr, k: nat, st: MachineState)
    requires IsCondMoveOpcode(mi.opcode) && CondMoveForm(mi) && st.cc < 4 && (k == 1 || k == 2)
    requires Dest(mi) != Src1(mi) && Dest(mi) != Src2(mi)
    ensures Exec(SetReg(mi, k, Dest(mi)), Exec(Copy(Dest(mi), mi.operands[k].reg), st)) == Exec(mi, st)
  {
    var d := Dest(mi);
    var st1 := Write(st, d, Read(st, mi.operands[k].reg));
    var v := if CondHolds(CCMask(mi), st.cc) then Read(st, Src2(mi)) else Read(st, Src1(mi));
    assert Exec(SetReg(mi, k, d), st1) == Write(st1, d, v);
    OverwriteTwice(st.regs, d, Read(st, mi.operands[k].reg), v);
  }

  /** The COPY stage of `selectSELRMux` does not change what the instruction computes. */
  lemma CopyStagePreserves(ti: TargetInfo, mi: Instr, st: MachineState)
    requires IsCondMoveOpcode(mi.opcode) && CondMoveForm(mi) && st.cc < 4
    ensures var (copies, mi1) := SELRMuxCopyStage(ti, mi);
            (forall k :: 0 <= k < |copies| ==> Executable(copies[k])) && Executable(mi1) &&
            Exec(mi1, ExecAll(copies, st)) == Exec(mi, st)
  {
    var (copies, mi1) := SELRMuxCopyStage(ti, mi);
    if |copies| == 1 {
      var k := if ti.isHighReg(Dest(mi)) != ti.isHighReg(Src1(mi)) then 1 else 2;
      assert copies == [Copy(Dest(mi), mi.operands[k].reg)] && mi1 == SetReg(mi, k, Dest(mi));
      assert ExecAll(copies, st) == Exec(copies[0], st) by {
        assert copies[1..] == [];
      }
      CopyPreserves(mi, k, st);
    }
  }

  lemma OverwriteTwice(m: map<Reg, int>, r: Reg, x: int, v: int)
    ensures m[r := x][r := v] == m[r := v]
  {
  }

  /** Giving a conditional move another conditional-move opcode does not change what it
      computes. */
  lemma OpcodeChangePreserves(copies: seq<Instr>, m: Instr, op: Opcode, st: MachineState)
    requires IsCondMoveOpcode(m.opcode) && IsCondMoveOpcode(op) && CondMoveForm(m)
    requires forall k :: 0 <= k < |copies| ==> Executable(copies[k])
    requires st.cc < 4
    ensures SelectionExecutable(Rewritten(copies, m.(opcode := op)))
    ensures ExecSelection(Rewritten(copies, m.(opcode := op)), st) == Exec(m, ExecAll(copies, st))
  {
  }

  /** The final choice of `selectSELRMux`, and the choice of `selectLOCRMux`, do not change
      what the instruction computes. */
  lemma ChoicePreserves(ti: TargetInfo, copies: seq<Instr>, m: Instr, low: Opcode, high: Opcode, st: MachineState)
    requires IsCondMoveOpcode(m.opcode) && IsCondMoveOpcode(low) && IsCondMoveOpcode(high) && CondMoveForm(m)
    requires forall k :: 0 <= k < |copies| ==> Executable(copies[k])
    requires st.cc < 4 && CondHolds(CCValid(m), st.cc)
    requires MixedClasses(ti, m) ==> Dest(m) == Src1(m)
    ensures var r := SELRMuxChoice(ti, copies, m, low, high);
            SelectionExecutable(r) && Agree(ExecSelection(r, st), Exec(m, ExecAll(copies, st)))
  {
    var dh, h1, h2 := ti.isHighReg(Dest(m)), ti.isHighReg(Src1(m)), ti.isHighReg(Src2(m));
    if !dh && !h1 && !h2 {
      OpcodeChangePreserves(copies, m, low, st);
    } else if dh && h1 && h2 {
      OpcodeChangePreserves(copies, m, high, st);
    } else {
      ExpansionPreserves(m, ExecAll(copies, st));
    }
  }

  /** Selecting `LOCRMux` does not change what it computes. */
  lemma LOCRMuxPreserves(ti: TargetInfo, mi: Instr, st: MachineState)
    requires WellFormed(ti, mi) && mi.opcode == LOCRMux && ti.targetMemOpcode(LOCRMux).None?
    requires st.cc < 4 && CondHolds(CCValid(mi), st.cc)
    ensures SelectionExecutable(SelectInstrOf(ti, mi))
    ensures Agree(ExecSelection(SelectInstrOf(ti, mi), st), Exec(mi, st))
  {
    if SelectInstrOf(ti, mi).Expanded? {
      ExpansionPreserves(mi, st);
    }
  }

  /** Selecting `SELRMux` does not change what it computes. */
  lemma SELRMuxPreserves(ti: TargetInfo, mi: Instr, st: MachineState)
    requires WellFormed(ti, mi) && mi.opcode == SELRMux && ti.targetMemOpcode(SELRMux).None?
    requires st.cc < 4 && CondHolds(CCValid(mi), st.cc)
    ensures SelectionExecutable(SelectInstrOf(ti, mi))
    ensures Agree(ExecSelection(SelectInstrOf(ti, mi), st), Exec(mi, st))
  {
    if Src1(mi) != Src2(mi) {
      var (copies, mi1) := SELRMuxCopyStage(ti, mi);
      CopyStagePreserves(ti, mi, st);
      var st1 := ExecAll(copies, st);
      var mi2 := SELRMuxCommuteStage(mi1);
      if mi2 != mi1 {
        assert CCValid(mi1) == CCValid(mi);
        CommutePreserves(mi1, st1);
      }
      assert SELRMuxSimplify(ti, mi) == (copies, mi2);
      SELRMuxSimplified(ti, mi, SELR, SELFHR);
      ChoicePreserves(ti, copies, mi2, SELR, SELFHR, st);
    }
  }

  /** Selecting a conditional-move pseudo preserves what it computes: whatever path the
      selection takes, every register ends up as the pseudo would leave it, for every
      condition code the valid mask allows. */
  lemma SelectionPreservesSemantics(ti: TargetInfo, mi: Instr, st: MachineState)
    requires WellFormed(ti, mi) && ti.targetMemOpcode(mi.opcode).None?
    requires mi.opcode == LOCRMux || mi.opcode == SELRMux
    requires st.cc < 4 && CondHolds(CCValid(mi), st.cc)
    ensures SelectionExecutable(SelectInstrOf(ti, mi))
    ensures Agree(ExecSelection(SelectInstrOf(ti, mi), st), Exec(mi, st))
  {
    if mi.opcode == LOCRMux {
      LOCRMuxPreserves(ti, mi, st);
    } else {
      SELRMuxPreserves(ti, mi, st);
    }
  }

  /** --- The machine function --- */

  class MachineBasicBlock {
    var instrs: seq<Instr>
    var succs: seq<MachineBasicBlock>

    constructor()
      ensures instrs == [] && succs == []
    {
      instrs := [];
      succs := [];
    }

    /** `BuildMI` before the instruction at `at`. */
    method InsertBefore(at: nat, mi: Instr)
      requires at <= |instrs|
      modifies this`instrs
      ensures instrs == old(instrs[..at]) + [mi] + old(instrs[at..])
    {
      instrs := instrs[..at] + [mi] + instrs[at..];
    }

    /** An in-place change of the instruction at `at`. */
    method SetInstr(at: nat, mi: Instr)
      requires at < |instrs|
      modifies this`instrs
      ensures instrs == old(instrs)[at := mi]
    {
      instrs := instrs[at := mi];
    }

    /** `eraseFromParent` of the instruction at `at`. */
    method Erase(at: nat)
      requires at < |instrs|
      modifies this`instrs
      ensures instrs == old(instrs[..at]) + old(instrs[at + 1..])
    {
      instrs := instrs[..at] + instrs[at + 1..];
    }
  }

  class MachineFunction {
    var blocks: seq<MachineBasicBlock>
  }

  /** The first position of `b` in the block list. */
  function Position(blocks: seq<MachineBasicBlock>, b: MachineBasicBlock): (k: nat)
    requires b in blocks
    ensures k < |blocks| && blocks[k] == b
    decreases |blocks|
  {
    if blocks[0] == b then 0 else 1 + Position(blocks[1..], b)
  }

  /** The shape `expandCondMove` leaves: `mbb` keeps `prefix` and ends in a BRC to the
      rest block on the inverted condition; its successors are the rest block and the move
      block, placed right after it; the move block holds one COPY of the second source
      into the destination and falls through to the rest block, which holds `tail` and
      inherits `mbb`'s old successors. */
  ghost predicate Spliced(prefix: seq<Instr>, m: Instr, tail: seq<Instr>, succs0: seq<MachineBasicBlock>,
                          blocks0: seq<MachineBasicBlock>, mf: MachineFunction, mbb: MachineBasicBlock)
    reads mf, mbb, mbb.succs
    requires mbb in blocks0
  {
    CondMoveForm(m) && |mbb.succs| == 2 &&
    var rest, move := mbb.succs[0], mbb.succs[1];
    var k := Position(blocks0, mbb);
    mbb.instrs == prefix + [Brc(CCValid(m), CCMask(m) ^ CCValid(m), rest)] &&
    rest.instrs == tail && rest.succs == succs0 &&
    move.instrs == [Copy(Dest(m), Src2(m))] && move.succs == [rest] &&
    rest != move && rest !in blocks0 && move !in blocks0 &&
    mf.blocks == blocks0[..k + 1] + [move, rest] + blocks0[k + 1..]
  }

  /** What selecting `mi` as `sel` leaves in its place in the block; after an expansion,
      what stays in `mbb` before the BRC. */
  function Piece(sel: Selection, mi: Instr): seq<Instr> {
    match sel
    case NotSelected => [mi]
    case Rewritten(c, m) => c + [m]
    case ReplacedByCopy(c) => [c]
    case Expanded(c, _) => c
  }

  /** The state after selecting the instruction at `i` as `sel` says, with `next` the
      position of the next instruction to visit: its piece in its place, or, after an
      expansion, the splice with the instructions after it in the rest block. */
  ghost predicate Performed(sel: Selection, instrs0: seq<Instr>, succs0: seq<MachineBasicBlock>,
                            blocks0: seq<MachineBasicBlock>, i: nat, mf: MachineFunction,
                            mbb: MachineBasicBlock, next: nat)
    reads mf, mbb, mbb.succs
    requires i < |instrs0| && mbb in blocks0
  {
    var p := Piece(sel, instrs0[i]);
    if sel.Expanded? then
      Spliced(instrs0[..i] + p, sel.mi, instrs0[i + 1..], succs0, blocks0, mf, mbb) && next == |mbb.instrs|
    else
      mbb.instrs == instrs0[..i] + p + instrs0[i + 1..] && mbb.succs == succs0 && mf.blocks == blocks0 &&
      next == i + |p|
  }

  /** Choosing an opcode for the instruction at `j` of a block where `copies` were
      inserted before the instruction at `i` is selecting that one with those copies. */
  lemma ChoiceAfterCopies(ti: TargetInfo, copies: seq<Instr>, m: Instr, low: Opcode, high: Opcode,
                          instrs0: seq<Instr>, instrs1: seq<Instr>, succs0: seq<MachineBasicBlock>,
                          blocks0: seq<MachineBasicBlock>, i: nat, j: nat, mf: MachineFunction,
                          mbb: MachineBasicBlock, next: nat)
    requires CondMoveForm(m) && i < |instrs0| && mbb in blocks0
    requires instrs1 == instrs0[..i] + copies + [m] + instrs0[i + 1..] && j == i + |copies|
    requires Performed(SELRMuxChoice(ti, [], m, low, high), instrs1, succs0, blocks0, j, mf, mbb, next)
    ensures Performed(SELRMuxChoice(ti, copies, m, low, high), instrs0, succs0, blocks0, i, mf, mbb, next)
  {
    assert instrs1[..j] == instrs0[..i] + copies;
    assert instrs1[j + 1..] == instrs0[i + 1..];
  }

  /** --- Selection of a whole block, as values --- */

  /** The instructions `mbb` ends with (before the BRC of an expansion), whether anything
      was selected, and, after an expansion, the expanded instruction and the tail that
      moved into the rest block. */
  datatype BlockSelection = BlockSelection(done: seq<Instr>, modified: bool, split: Option<Split>)
  datatype Split = Split(mi: Instr, tail: seq<Instr>)

  function Prepend(p: seq<Instr>, m: bool, r: BlockSelection): BlockSelection {
    BlockSelection(p + r.done, m || r.modified, r.split)
  }

  /** `selectMBB` as a value: each instruction is replaced by its piece until the first
      expansion, which ends the walk over `mbb`. */
  function SelectAllOf(ti: TargetInfo, s: seq<Instr>): BlockSelection
    requires forall k :: 0 <= k < |s| ==> WellFormed(ti, s[k])
    decreases |s|
  {
    if |s| == 0 then BlockSelection([], false, None)
    else
      var sel := SelectInstrOf(ti, s[0]);
      if sel.Expanded? then BlockSelection(sel.copies, true, Some(Split(sel.mi, s[1..])))
      else Prepend(Piece(sel, s[0]), !sel.NotSelected?, SelectAllOf(ti, s[1..]))
  }

  /** One step of `SelectAllOf` from position `j`, for a result already split into the
      selected prefix `done` and the rest of the block. */
  lemma SelectAllStep(ti: TargetInfo, s: seq<Instr>, j: nat, done: seq<Instr>, modified: bool)
    requires forall k :: 0 <= k < |s| ==> WellFormed(ti, s[k])
    requires j < |s| && Prepend(done, modified, SelectAllOf(ti, s[j..])) == SelectAllOf(ti, s)
    ensures var sel := SelectInstrOf(ti, s[j]);
            if sel.Expanded? then
              SelectAllOf(ti, s) == BlockSelection(done + sel.copies, true, Some(Split(sel.mi, s[j + 1..])))
            else
              Prepend(done + Piece(sel, s[j]), modified || !sel.NotSelected?, SelectAllOf(ti, s[j + 1..])) ==
              SelectAllOf(ti, s)
  {
    assert s[j..][0] == s[j] && s[j..][1..] == s[j + 1..];
  }

  /** `selectMBB` reports a change exactly when the block holds a pseudo. */
  lemma {:induction false} ModifiedIffPseudo(ti: TargetInfo, s: seq<Instr>)
    requires forall k :: 0 <= k < |s| ==> WellFormed(ti, s[k])
    ensures SelectAllOf(ti, s).modified <==> exists k :: 0 <= k < |s| && IsPseudo(ti, s[k])
    decreases |s|
  {
    if |s| > 0 {
      ModifiedIffPseudo(ti, s[1..]);
      if IsPseudo(ti, s[0]) {
        assert IsPseudo(ti, s[0]);
      } else {
        assert forall k :: 1 <= k < |s| ==> s[k] == s[1..][k - 1];
      }
    }
  }

  /** Without an expansion every original instruction is visited once, in order: the
      block is the concatenation of the pieces of all instructions. */
  lemma {:induction false} NoSplitVisitsAll(ti: TargetInfo, s: seq<Instr>)
    requires forall k :: 0 <= k < |s| ==> WellFormed(ti, s[k])
    requires forall k :: 0 <= k < |s| ==> !SelectInstrOf(ti, s[k]).Expanded?
    ensures SelectAllOf(ti, s).split.None?
    ensures SelectAllOf(ti, s).done == Replacement(ti, s)
    decreases |s|
  {
    if |s| > 0 {
      NoSplitVisitsAll(ti, s[1..]);
    }
  }

  /** The pieces of all instructions, concatenated. */
  function Replacement(ti: TargetInfo, s: seq<Instr>): seq<Instr>
    requires forall k :: 0 <= k < |s| ==> WellFormed(ti, s[k])
    decreases |s|
  {
    if |s| == 0 then [] else Piece(SelectInstrOf(ti, s[0]), s[0]) + Replacement(ti, s[1..])
  }

  /** --- The pass --- */

  class PostRewritePass {
    const ti: TargetInfo

    constructor(ti: TargetInfo)
      ensures this.ti == ti
    {
      this.ti := ti;
    }

    /** Splice `mbb` at position `i`: the instructions from `i` on and the successors
        move into a new block placed right after it. */
    method SplitBlock(mf: MachineFunction, mbb: MachineBasicBlock, i: nat, k: nat) returns (rest: MachineBasicBlock)
      requires k < |mf.blocks| && mf.blocks[k] == mbb && i <= |mbb.instrs|
      modifies mf, mbb
      ensures fresh(rest) && rest != mbb
      ensures rest.instrs == old(mbb.instrs[i..]) && rest.succs == old(mbb.succs)
      ensures mbb.instrs == old(mbb.instrs[..i]) && mbb.succs == []
      ensures mf.blocks == old(mf.blocks[..k + 1]) + [rest] + old(mf.blocks[k + 1..])
    {
      rest := new MachineBasicBlock();
      mf.blocks := mf.blocks[..k + 1] + [rest] + mf.blocks[k + 1..];
      rest.instrs := mbb.instrs[i..];
      mbb.instrs := mbb.instrs[..i];
      rest.succs := mbb.succs;
      mbb.succs := [];
    }

    /** `expandCondMove`: split `mbb` at the instruction at `i` into `mbb`, a move block
        and a rest block, and erase the instruction. */
    method ExpandCondMove(mf: MachineFunction, mbb: MachineBasicBlock, i: nat) returns (r: bool, next: nat)
      requires mbb in mf.blocks && i < |mbb.instrs| && CondMoveForm(mbb.instrs[i])
      requires Dest(mbb.instrs[i]) == Src1(mbb.instrs[i])
      modifies mf, mbb
      ensures r && Performed(Expanded([], old(mbb.instrs[i])), old(mbb.instrs), old(mbb.succs), old(mf.blocks),
                             i, mf, mbb, next)
      ensures fresh(mbb.succs[0]) && fresh(mbb.succs[1]) && mbb in mf.blocks
    {
      var mi := mbb.instrs[i];
      var k := Position(mf.blocks, mbb);
      ghost var blocks0 := mf.blocks;
      ghost var instrs0 := mbb.instrs;
      ghost var succs0 := mbb.succs;
      var rest := SplitBlock(mf, mbb, i, k);
      // The move block goes between MBB and RestMBB.
      var move := new MachineBasicBlock();
      assert mf.blocks[..k + 1] == blocks0[..k + 1];
      assert mf.blocks[k + 1..] == [rest] + blocks0[k + 1..];
      mf.blocks := mf.blocks[..k + 1] + [move] + mf.blocks[k + 1..];
      // MBB branches to RestMBB when the condition is false and falls through otherwise.
      mbb.instrs := mbb.instrs + [Brc(CCValid(mi), CCMask(mi) ^ CCValid(mi), rest)];
      mbb.succs := mbb.succs + [rest];
      mbb.succs := mbb.succs + [move];
      move.instrs := move.instrs + [Copy(Dest(mi), Src2(mi))];
      move.succs := move.succs + [rest];
      next := |mbb.instrs|;
      // MI, now the first instruction of RestMBB, is erased.
      rest.instrs := rest.instrs[1..];
      assert rest.instrs == instrs0[i + 1..];
      assert mbb in blocks0[..k + 1];
      assert instrs0[..i] + [] == instrs0[..i];
      r := true;
    }

    /** `setDesc` of the instruction at `i` to `opcode`, in place. */
    method SetOpcode(mf: MachineFunction, mbb: MachineBasicBlock, i: nat, opcode: Opcode) returns (next: nat)
      requires mbb in mf.blocks && i < |mbb.instrs|
      modifies mbb`instrs
      ensures Performed(Rewritten([], old(mbb.instrs[i]).(opcode := opcode)), old(mbb.instrs), mbb.succs,
                        mf.blocks, i, mf, mbb, next)
    {
      ghost var instrs0 := mbb.instrs;
      mbb.SetInstr(i, mbb.instrs[i].(opcode := opcode));
      next := i + 1;
      assert mbb.instrs == instrs0[..i] + [] + [mbb.instrs[i]] + instrs0[i + 1..];
    }

    /** `selectLOCRMux`. */
    method SelectLOCRMux(mf: MachineFunction, mbb: MachineBasicBlock, i: nat, low: Opcode, high: Opcode)
      returns (next: nat)
      requires mbb in mf.blocks && i < |mbb.instrs| && CondMoveForm(mbb.instrs[i])
      requires ti.isHighReg(Dest(mbb.instrs[i])) != ti.isHighReg(Src2(mbb.instrs[i])) ==>
                 Dest(mbb.instrs[i]) == Src1(mbb.instrs[i])
      modifies mf, mbb
      ensures Performed(SelectLOCRMuxOf(ti, old(mbb.instrs[i]), low, high), old(mbb.instrs), old(mbb.succs),
                        old(mf.blocks), i, mf, mbb, next)
      ensures mbb in mf.blocks
    {
      var mi := mbb.instrs[i];
      var destIsHigh := ti.isHighReg(Dest(mi));
      var srcIsHigh := ti.isHighReg(Src2(mi));
      if !destIsHigh && !srcIsHigh {
        next := SetOpcode(mf, mbb, i, low);
      } else if destIsHigh && srcIsHigh {
        next := SetOpcode(mf, mbb, i, high);
      } else {
        var expanded;
        expanded, next := ExpandCondMove(mf, mbb, i);
      }
    }

    /** The COPY stage of `selectSELRMux`: returns the position the instruction moved to
        and its two sources afterwards. */
    method CopySourceIntoDest(mbb: MachineBasicBlock, i: nat) returns (at: nat, src1Reg: Reg, src2Reg: Reg)
      requires i < |mbb.instrs| && CondMoveForm(mbb.instrs[i])
      modifies mbb`instrs
      ensures var (copies, mi1) := SELRMuxCopyStage(ti, old(mbb.instrs[i]));
              mbb.instrs == old(mbb.instrs[..i]) + copies + [mi1] + old(mbb.instrs[i + 1..]) &&
              at == i + |copies| && CondMoveForm(mi1) && src1Reg == Src1(mi1) && src2Reg == Src2(mi1)
    {
      var mi := mbb.instrs[i];
      var destReg := Dest(mi);
      src1Reg, src2Reg := Src1(mi), Src2(mi);
      var destIsHigh, src1IsHigh, src2IsHigh := ti.isHighReg(destReg), ti.isHighReg(src1Reg), ti.isHighReg(src2Reg);
      at := i;
      if destReg != src1Reg && destReg != src2Reg {
        if destIsHigh != src1IsHigh {
          mbb.InsertBefore(at, Copy(destReg, src1Reg));
          at := at + 1;
          mbb.SetInstr(at, SetReg(mbb.instrs[at], 1, destReg));
          src1Reg := destReg;
        } else if destIsHigh != src2IsHigh {
          mbb.InsertBefore(at, Copy(destReg, src2Reg));
          at := at + 1;
          mbb.SetInstr(at, SetReg(mbb.instrs[at], 2, destReg));
          src2Reg := destReg;
        }
      }
    }

    /** If the destination matches only the second source, commute the instruction at
        `at` so that it comes first; returns the sources afterwards. */
    method PreferDestFirst(mbb: MachineBasicBlock, at: nat, destReg: Reg, src1Reg: Reg, src2Reg: Reg)
      returns (newSrc1: Reg, newSrc2: Reg)
      requires at < |mbb.instrs| && CondMoveForm(mbb.instrs[at])
      requires destReg == Dest(mbb.instrs[at]) && src1Reg == Src1(mbb.instrs[at]) && src2Reg == Src2(mbb.instrs[at])
      modifies mbb`instrs
      ensures mbb.instrs == old(mbb.instrs)[at := SELRMuxCommuteStage(old(mbb.instrs[at]))]
      ensures newSrc1 == Src1(mbb.instrs[at]) && newSrc2 == Src2(mbb.instrs[at])
    {
      newSrc1, newSrc2 := src1Reg, src2Reg;
      if destReg != src1Reg && destReg == src2Reg {
        mbb.SetInstr(at, Commute(mbb.instrs[at]));
        newSrc1, newSrc2 := src2Reg, src1Reg;
      } else {
        assert mbb.instrs == mbb.instrs[at := mbb.instrs[at]];
      }
    }

    /** Both simplifications of `selectSELRMux` on the instruction at `i`: returns the
        position it moved to and its two sources afterwards. */
    method SimplifySELRMux(mbb: MachineBasicBlock, i: nat) returns (at: nat, src1Reg: Reg, src2Reg: Reg)
      requires i < |mbb.instrs| && CondMoveForm(mbb.instrs[i])
      modifies mbb`instrs
      ensures var (copies, mi2) := SELRMuxSimplify(ti, old(mbb.instrs[i]));
              mbb.instrs == old(mbb.instrs[..i]) + copies + [mi2] + old(mbb.instrs[i + 1..]) &&
              at == i + |copies| && CondMoveForm(mi2) && src1Reg == Src1(mi2) && src2Reg == Src2(mi2)
    {
      ghost var instrs0 := mbb.instrs;
      var destReg := Dest(mbb.instrs[i]);
      at, src1Reg, src2Reg := CopySourceIntoDest(mbb, i);
      ghost var instrs1 := mbb.instrs;
      src1Reg, src2Reg := PreferDestFirst(mbb, at, destReg, src1Reg, src2Reg);
      assert instrs1[at := mbb.instrs[at]] == instrs1[..at] + [mbb.instrs[at]] + instrs1[at + 1..];
    }

    /** `selectSELRMux`: a COPY for equal sources; otherwise the simplifications and the
        choice. */
    method SelectSELRMux(mf: MachineFunction, mbb: MachineBasicBlock, i: nat, low: Opcode, high: Opcode)
      returns (next: nat)
      requires mbb in mf.blocks && i < |mbb.instrs| && CondMoveForm(mbb.instrs[i])
      modifies mf, mbb
      ensures Performed(SelectSELRMuxOf(ti, old(mbb.instrs[i]), low, high), old(mbb.instrs), old(mbb.succs),
                        old(mf.blocks), i, mf, mbb, next)
      ensures mbb in mf.blocks
    {
      ghost var instrs0 := mbb.instrs;
      var mi := mbb.instrs[i];
      var destReg, src1Reg, src2Reg := Dest(mi), Src1(mi), Src2(mi);
      var destIsHigh := ti.isHighReg(destReg);
      if src1Reg == src2Reg {
        mbb.InsertBefore(i, Copy(destReg, src1Reg));
        mbb.Erase(i + 1);
        assert mbb.instrs == instrs0[..i] + [Copy(destReg, src1Reg)] + instrs0[i + 1..];
        return i + 1;
      }
      var at;
      at, src1Reg, src2Reg := SimplifySELRMux(mbb, i);
      var src1IsHigh, src2IsHigh := ti.isHighReg(src1Reg), ti.isHighReg(src2Reg);
      ghost var simplified := SELRMuxSimplify(ti, mi);
      SELRMuxSimplified(ti, mi, low, high);
      ghost var blocks0, succs0, instrs1 := mf.blocks, mbb.succs, mbb.instrs;
      next := SELRMuxChooseOpcode(mf, mbb, at, destIsHigh, src1IsHigh, src2IsHigh, low, high);
      ChoiceAfterCopies(ti, simplified.0, simplified.1, low, high, instrs0, instrs1, succs0, blocks0, i, at,
                        mf, mbb, next);
    }

    /** The final choice of `selectSELRMux`, on the instruction at `at` whose classes are
        given. */
    method SELRMuxChooseOpcode(mf: MachineFunction, mbb: MachineBasicBlock, at: nat,
                               destIsHigh: bool, src1IsHigh: bool, src2IsHigh: bool, low: Opcode, high: Opcode)
      returns (next: nat)
      requires mbb in mf.blocks && at < |mbb.instrs| && CondMoveForm(mbb.instrs[at])
      requires destIsHigh == ti.isHighReg(Dest(mbb.instrs[at]))
      requires src1IsHigh == ti.isHighReg(Src1(mbb.instrs[at])) && src2IsHigh == ti.isHighReg(Src2(mbb.instrs[at]))
      requires MixedClasses(ti, mbb.instrs[at]) ==> Dest(mbb.instrs[at]) == Src1(mbb.instrs[at])
      modifies mf, mbb
      ensures Performed(SELRMuxChoice(ti, [], old(mbb.instrs[at]), low, high), old(mbb.instrs), old(mbb.succs),
                        old(mf.blocks), at, mf, mbb, next)
      ensures mbb in mf.blocks
    {
      if !destIsHigh && !src1IsHigh && !src2IsHigh {
        next := SetOpcode(mf, mbb, at, low);
      } else if destIsHigh && src1IsHigh && src2IsHigh {
        next := SetOpcode(mf, mbb, at, high);
      } else {
        // Given the simplification before, a two-operand form is reached here.
        var expanded;
        expanded, next := ExpandCondMove(mf, mbb, at);
      }
    }

    /** `selectMI`: returns whether the instruction at `i` was a pseudo and selected, and
        the position of the next instruction to visit. */
    method SelectMI(mf: MachineFunction, mbb: MachineBasicBlock, i: nat) returns (selected: bool, next: nat)
      requires mbb in mf.blocks && i < |mbb.instrs| && WellFormed(ti, mbb.instrs[i])
      modifies mf, mbb
      ensures selected == IsPseudo(ti, old(mbb.instrs[i]))
      ensures Performed(SelectInstrOf(ti, old(mbb.instrs[i])), old(mbb.instrs), old(mbb.succs), old(mf.blocks),
                        i, mf, mbb, next)
      ensures mbb in mf.blocks
    {
      ghost var instrs0 := mbb.instrs;
      var mi := mbb.instrs[i];
      var opcode := mi.opcode;
      var targetMemOpcode := ti.targetMemOpcode(opcode);
      if targetMemOpcode.Some? {
        mbb.SetInstr(i, mbb.instrs[i].(opcode := targetMemOpcode.value));
        mbb.SetInstr(i, mbb.instrs[i].(tied := true));
        var at := i;
        var dstReg := Dest(mbb.instrs[at]);
        var srcReg := Src1(mbb.instrs[at]);
        if dstReg != srcReg {
          mbb.InsertBefore(at, Copy(dstReg, srcReg));
          at := at + 1;
          mbb.SetInstr(at, SetReg(mbb.instrs[at], 1, dstReg));
        }
        assert mbb.instrs[..i] == instrs0[..i];
        return true, at + 1;
      }
      if opcode == LOCRMux {
        next := SelectLOCRMux(mf, mbb, i, LOCR, LOCFHR);
        return true, next;
      } else if opcode == SELRMux {
        next := SelectSELRMux(mf, mbb, i, SELR, SELFHR);
        return true, next;
      }
      return false, i + 1;
    }

    /** `selectMBB`: visit the block's instructions from the first, each at the position
        the previous selection left as next, and report whether any was selected. */
    method SelectMBB(mf: MachineFunction, mbb: MachineBasicBlock) returns (modified: bool)
      requires mbb in mf.blocks && forall k :: 0 <= k < |mbb.instrs| ==> WellFormed(ti, mbb.instrs[k])
      modifies mf, mbb
      ensures var r := SelectAllOf(ti, old(mbb.instrs));
              modified == r.modified &&
              match r.split
              case None => mbb.instrs == r.done && mbb.succs == old(mbb.succs) && mf.blocks == old(mf.blocks)
              case Some(split) => Spliced(r.done, split.mi, split.tail, old(mbb.succs), old(mf.blocks), mf, mbb)
    {
      ghost var instrs0 := mbb.instrs;
      ghost var succs0 := mbb.succs;
      ghost var blocks0 := mf.blocks;
      ghost var j := 0;
      ghost var done: seq<Instr> := [];
      ghost var expanded := false;
      modified := false;
      var i := 0;
      while i < |mbb.instrs|
        invariant mbb in mf.blocks && 0 <= j <= |instrs0|
        invariant !expanded ==>
                    mbb.instrs == done + instrs0[j..] && i == |done| &&
                    mbb.succs == succs0 && mf.blocks == blocks0 &&
                    Prepend(done, modified, SelectAllOf(ti, instrs0[j..])) == SelectAllOf(ti, instrs0)
        invariant expanded ==>
                    var r := SelectAllOf(ti, instrs0);
                    i == |mbb.instrs| && modified == r.modified && r.split.Some? &&
                    Spliced(r.done, r.split.value.mi, r.split.value.tail, succs0, blocks0, mf, mbb)
        decreases |mbb.instrs| - i
      {
        assert mbb.instrs[i] == instrs0[j];
        SelectAllStep(ti, instrs0, j, done, modified);
        ghost var sel := SelectInstrOf(ti, instrs0[j]);
        ghost var before := mbb.instrs;
        var selected, next := SelectMI(mf, mbb, i);
        assert before[..i] == done;
        assert before[i + 1..] == instrs0[j + 1..];
        if sel.Expanded? {
          done := done + sel.copies;
          expanded := true;
        } else {
          done := done + Piece(sel, instrs0[j]);
        }
        j := j + 1;
        modified := modified || selected;
        i := next;
      }
      if !expanded {
        assert instrs0[j..] == [];
      }
    }
  }
}
