/** The translation tables of `ModuleTranslation`: write-once maps from MLIR entities
    (functions by name, values, blocks, OpenMP loop handles, branches, calls, block
    addresses, globals) to the LLVM IR entities they were translated to. LLVM entities
    are opaque handles; `None` is a null pointer. */
module ModuleTranslations {
  import opened Wrappers

  /** `DenseMap::lookup` / `StringMap::lookup`: the stored pointer, null when absent. */
  function Lookup<K, V>(m: map<K, Option<V>>, k: K): Option<V> {
    if k in m then m[k] else None
  }

  type FunctionName = string
  /** MLIR-side keys. */
  type MlirValue = nat
  type MlirBlock = nat
  type MlirOp = nat
  type BlockAddressAttr = nat
  /** LLVM-side handles. */
  type LlvmFunction = nat
  type LlvmValue = nat
  type LlvmBlock = nat
  type LlvmInstruction = nat
  type LoopInfo = nat
  type LlvmGlobal = nat

  /** All tables at once, to state what an operation leaves unchanged. */
  datatype Tables = Tables(
    functions: map<FunctionName, Option<LlvmFunction>>,
    values: map<MlirValue, Option<LlvmValue>>,
    blocks: map<MlirBlock, Option<LlvmBlock>>,
    loops: map<MlirOp, LoopInfo>,
    branches: map<MlirOp, Option<LlvmInstruction>>,
    calls: map<MlirOp, Option<LlvmInstruction>>,
    unresolvedBlockAddresses: map<MlirOp, Option<LlvmValue>>,
    blockAddresses: map<BlockAddressAttr, Option<LlvmBlock>>,
    globals: map<MlirOp, Option<LlvmGlobal>>,
    aliases: map<MlirOp, Option<LlvmGlobal>>,
    ifuncs: map<MlirOp, Option<LlvmGlobal>>)

  class ModuleTranslation {
    var functionMapping: map<FunctionName, Option<LlvmFunction>>
    var valueMapping: map<MlirValue, Option<LlvmValue>>
    var blockMapping: map<MlirBlock, Option<LlvmBlock>>
    /** Not yet consumed loop handles; entries are never null. */
    var loopMapping: map<MlirOp, LoopInfo>
    var branchMapping: map<MlirOp, Option<LlvmInstruction>>
    var callMapping: map<MlirOp, Option<LlvmInstruction>>
    var unresolvedBlockAddressMapping: map<MlirOp, Option<LlvmValue>>
    var blockAddressToLLVMMapping: map<BlockAddressAttr, Option<LlvmBlock>>
    /** Filled while globals, aliases and ifuncs are converted; read-only here. */
    var globalsMapping: map<MlirOp, Option<LlvmGlobal>>
    var aliasesMapping: map<MlirOp, Option<LlvmGlobal>>
    var ifuncMapping: map<MlirOp, Option<LlvmGlobal>>

    function Snapshot(): Tables
      reads this
    {
      Tables(functionMapping, valueMapping, blockMapping, loopMapping, branchMapping, callMapping,
             unresolvedBlockAddressMapping, blockAddressToLLVMMapping, globalsMapping, aliasesMapping,
             ifuncMapping)
    }

    /** A translation whose global tables are already filled and whose other tables are
        empty. */
    constructor(globals: map<MlirOp, Option<LlvmGlobal>>, aliases: map<MlirOp, Option<LlvmGlobal>>,
                ifuncs: map<MlirOp, Option<LlvmGlobal>>)
      ensures Snapshot() == Tables(map[], map[], map[], map[], map[], map[], map[], map[], globals, aliases, ifuncs)
      ensures forall op :: LookupGlobal(op) == Lookup(globals, op)
      ensures forall op :: LookupAlias(op) == Lookup(aliases, op)
      ensures forall op :: LookupIFunc(op) == Lookup(ifuncs, op)
      ensures forall name :: LookupFunction(name).None?
      ensures forall value :: LookupValue(value).None?
    {
      functionMapping := map[];
      valueMapping := map[];
      blockMapping := map[];
      loopMapping := map[];
      branchMapping := map[];
      callMapping := map[];
      unresolvedBlockAddressMapping := map[];
      blockAddressToLLVMMapping := map[];
      globalsMapping := globals;
      aliasesMapping := aliases;
      ifuncMapping := ifuncs;
    }

    /** `mapFunction`: the name must not be mapped yet, even to null. */
    method MapFunction(name: FunctionName, func: Option<LlvmFunction>)
      requires name !in functionMapping
      modifies this`functionMapping
      ensures Snapshot() == old(Snapshot()).(functions := old(functionMapping)[name := func])
      ensures LookupFunction(name) == func && name in functionMapping
    {
      functionMapping := functionMapping[name := func];
    }

    /** `lookupFunction`. */
    function LookupFunction(name: FunctionName): Option<LlvmFunction>
      reads this
    {
      Lookup(functionMapping, name)
    }

    /** `mapValue`: `operator[]` gives the entry, which must still be null. */
    method MapValue(value: MlirValue, llvm: Option<LlvmValue>)
      requires LookupValue(value).None?
      modifies this`valueMapping
      ensures Snapshot() == old(Snapshot()).(values := old(valueMapping)[value := llvm])
      ensures LookupValue(value) == llvm
    {
      valueMapping := valueMapping[value := llvm];
    }

    /** `lookupValue`. */
    function LookupValue(value: MlirValue): Option<LlvmValue>
      reads this
    {
      Lookup(valueMapping, value)
    }

    /** `mapBlock`. */
    method MapBlock(block: MlirBlock, llvm: Option<LlvmBlock>)
      requires block !in blockMapping
      modifies this`blockMapping
      ensures Snapshot() == old(Snapshot()).(blocks := old(blockMapping)[block := llvm])
      ensures LookupBlock(block) == llvm
    {
      blockMapping := blockMapping[block := llvm];
    }

    /** `lookupBlock`. */
    function LookupBlock(block: MlirBlock): Option<LlvmBlock>
      reads this
    {
      Lookup(blockMapping, block)
    }

    /** `lookupOMPLoop`: the loop must be mapped. */
    function LookupOmpLoop(loop: MlirOp): LoopInfo
      reads this
      requires loop in loopMapping
    {
      loopMapping[loop]
    }

    /** `invalidateOmpLoop`: the loop handle is consumed. */
    method InvalidateOmpLoop(loop: MlirOp)
      modifies this`loopMapping
      ensures Snapshot() == old(Snapshot()).(loops := old(loopMapping) - {loop})
      ensures loop !in loopMapping
    {
      loopMapping := loopMapping - {loop};
    }

    /** `mapOmpLoop`: a non-null loop info for a handle with no (or a null) entry. */
    method MapOmpLoop(loop: MlirOp, llvm: Option<LoopInfo>)
      requires llvm.Some? && loop !in loopMapping
      modifies this`loopMapping
      ensures Snapshot() == old(Snapshot()).(loops := old(loopMapping)[loop := llvm.value])
      ensures loop in loopMapping && LookupOmpLoop(loop) == llvm.value
    {
      loopMapping := loopMapping[loop := llvm.value];
    }

    /** `mapBranch`. */
    method MapBranch(op: MlirOp, llvm: Option<LlvmInstruction>)
      requires op !in branchMapping
      modifies this`branchMapping
      ensures Snapshot() == old(Snapshot()).(branches := old(branchMapping)[op := llvm])
      ensures LookupBranch(op) == llvm
    {
      branchMapping := branchMapping[op := llvm];
    }

    /** `lookupBranch`. */
    function LookupBranch(op: MlirOp): Option<LlvmInstruction>
      reads this
    {
      Lookup(branchMapping, op)
    }

    /** `mapCall`. */
    method MapCall(op: MlirOp, llvm: Option<LlvmInstruction>)
      requires op !in callMapping
      modifies this`callMapping
      ensures Snapshot() == old(Snapshot()).(calls := old(callMapping)[op := llvm])
      ensures LookupCall(op) == llvm
    {
      callMapping := callMapping[op := llvm];
    }

    /** `lookupCall`. */
    function LookupCall(op: MlirOp): Option<LlvmInstruction>
      reads this
    {
      Lookup(callMapping, op)
    }

    /** `mapUnresolvedBlockAddress`. */
    method MapUnresolvedBlockAddress(op: MlirOp, cst: Option<LlvmValue>)
      requires op !in unresolvedBlockAddressMapping
      modifies this`unresolvedBlockAddressMapping
      ensures Snapshot() == old(Snapshot()).(unresolvedBlockAddresses := old(unresolvedBlockAddressMapping)[op := cst])
      ensures Lookup(unresolvedBlockAddressMapping, op) == cst
    {
      unresolvedBlockAddressMapping := unresolvedBlockAddressMapping[op := cst];
    }

    /** `mapBlockAddress`. */
    method MapBlockAddress(attr: BlockAddressAttr, block: Option<LlvmBlock>)
      requires attr !in blockAddressToLLVMMapping
      modifies this`blockAddressToLLVMMapping
      ensures Snapshot() == old(Snapshot()).(blockAddresses := old(blockAddressToLLVMMapping)[attr := block])
      ensures LookupBlockAddress(attr) == block
    {
      blockAddressToLLVMMapping := blockAddressToLLVMMapping[attr := block];
    }

    /** `lookupBlockAddress`. */
    function LookupBlockAddress(attr: BlockAddressAttr): Option<LlvmBlock>
      reads this
    {
      Lookup(blockAddressToLLVMMapping, attr)
    }

    /** `lookupGlobal`. */
    function LookupGlobal(op: MlirOp): Option<LlvmGlobal>
      reads this
    {
      Lookup(globalsMapping, op)
    }

    /** `lookupAlias`. */
    function LookupAlias(op: MlirOp): Option<LlvmGlobal>
      reads this
    {
      Lookup(aliasesMapping, op)
    }

    /** `lookupIFunc`. */
    function LookupIFunc(op: MlirOp): Option<LlvmGlobal>
      reads this
    {
      Lookup(ifuncMapping, op)
    }
  }

  /** One write into the tables, as the `map*` and `invalidateOmpLoop` methods make it. */
  datatype Write =
    | FunctionWrite(name: FunctionName, func: Option<LlvmFunction>)
    | ValueWrite(value: MlirValue, llvmValue: Option<LlvmValue>)
    | BlockWrite(block: MlirBlock, llvmBlock: Option<LlvmBlock>)
    | OmpLoopWrite(loop: MlirOp, info: LoopInfo)
    | OmpLoopInvalidate(loop: MlirOp)
    | BranchWrite(branchOp: MlirOp, branch: Option<LlvmInstruction>)
    | CallWrite(callOp: MlirOp, call: Option<LlvmInstruction>)
    | UnresolvedBlockAddressWrite(addressOp: MlirOp, cst: Option<LlvmValue>)
    | BlockAddressWrite(attr: BlockAddressAttr, target: Option<LlvmBlock>)

  datatype TableId =
    Functions | Values | Blocks | Loops | Branches | Calls | UnresolvedBlockAddresses | BlockAddresses
    | Globals | Aliases | IFuncs

  /** The one table a write changes; no write changes the global, alias or ifunc tables. */
  function Target(w: Write): (id: TableId)
    ensures id != Globals && id != Aliases && id != IFuncs
  {
    match w
    case FunctionWrite(_, _) => Functions
    case ValueWrite(_, _) => Values
    case BlockWrite(_, _) => Blocks
    case OmpLoopWrite(_, _) => Loops
    case OmpLoopInvalidate(_) => Loops
    case BranchWrite(_, _) => Branches
    case CallWrite(_, _) => Calls
    case UnresolvedBlockAddressWrite(_, _) => UnresolvedBlockAddresses
    case BlockAddressWrite(_, _) => BlockAddresses
  }

  /** The write-once slot of `w` is taken already: the key is mapped, or, for a value,
      mapped to a non-null value. Loop handles are not write-once, since they can be
      consumed. */
  predicate Filled(t: Tables, w: Write) {
    match w
    case FunctionWrite(name, _) => name in t.functions
    case ValueWrite(value, _) => Lookup(t.values, value).Some?
    case BlockWrite(block, _) => block in t.blocks
    case OmpLoopWrite(_, _) => false
    case OmpLoopInvalidate(_) => false
    case BranchWrite(op, _) => op in t.branches
    case CallWrite(op, _) => op in t.calls
    case UnresolvedBlockAddressWrite(op, _) => op in t.unresolvedBlockAddresses
    case BlockAddressWrite(attr, _) => attr in t.blockAddresses
  }

  /** The assertion the write's method makes: its slot is free, and a loop handle is not
      mapped (the handle's info is non-null by its type). */
  predicate Admissible(t: Tables, w: Write) {
    match w
    case OmpLoopWrite(loop, _) => loop !in t.loops
    case OmpLoopInvalidate(_) => true
    case _ => !Filled(t, w)
  }

  /** The tables after the write. */
  function Apply(t: Tables, w: Write): Tables {
    match w
    case FunctionWrite(name, func) => t.(functions := t.functions[name := func])
    case ValueWrite(value, llvm) => t.(values := t.values[value := llvm])
    case BlockWrite(block, llvm) => t.(blocks := t.blocks[block := llvm])
    case OmpLoopWrite(loop, info) => t.(loops := t.loops[loop := info])
    case OmpLoopInvalidate(loop) => t.(loops := t.loops - {loop})
    case BranchWrite(op, llvm) => t.(branches := t.branches[op := llvm])
    case CallWrite(op, llvm) => t.(calls := t.calls[op := llvm])
    case UnresolvedBlockAddressWrite(op, cst) => t.(unresolvedBlockAddresses := t.unresolvedBlockAddresses[op := cst])
    case BlockAddressWrite(attr, block) => t.(blockAddresses := t.blockAddresses[attr := block])
  }

  /** The tables after the writes, in order. */
  function Run(t: Tables, ws: seq<Write>): Tables
    decreases |ws|
  {
    if ws == [] then t else Run(Apply(t, ws[0]), ws[1..])
  }

  /** Every write of the sequence passes its method's assertion when it is made. */
  predicate AdmissibleRun(t: Tables, ws: seq<Write>)
    decreases |ws|
  {
    ws == [] || (Admissible(t, ws[0]) && AdmissibleRun(Apply(t, ws[0]), ws[1..]))
  }

  /** `t` with every table other than `id` emptied. */
  function Only(t: Tables, id: TableId): Tables {
    var e := Tables(map[], map[], map[], map[], map[], map[], map[], map[], map[], map[], map[]);
    match id
    case Functions => e.(functions := t.functions)
    case Values => e.(values := t.values)
    case Blocks => e.(blocks := t.blocks)
    case Loops => e.(loops := t.loops)
    case Branches => e.(branches := t.branches)
    case Calls => e.(calls := t.calls)
    case UnresolvedBlockAddresses => e.(unresolvedBlockAddresses := t.unresolvedBlockAddresses)
    case BlockAddresses => e.(blockAddresses := t.blockAddresses)
    case Globals => e.(globals := t.globals)
    case Aliases => e.(aliases := t.aliases)
    case IFuncs => e.(ifuncs := t.ifuncs)
  }

  lemma ApplyFrame(t: Tables, w: Write, id: TableId)
    requires Target(w) != id
    ensures Only(Apply(t, w), id) == Only(t, id)
  {
  }

  /** A table that no write of the sequence targets ends as it began. */
  lemma {:induction false} RunFrame(t: Tables, ws: seq<Write>, id: TableId)
    requires forall i :: 0 <= i < |ws| ==> Target(ws[i]) != id
    ensures Only(Run(t, ws), id) == Only(t, id)
    decreases |ws|
  {
    if ws != [] {
      ApplyFrame(t, ws[0], id);
      RunFrame(Apply(t, ws[0]), ws[1..], id);
    }
  }

  /** The global, alias and ifunc tables are read-only in any sequence of writes. */
  lemma RunKeepsGlobalTables(t: Tables, ws: seq<Write>)
    ensures Run(t, ws).globals == t.globals
    ensures Run(t, ws).aliases == t.aliases
    ensures Run(t, ws).ifuncs == t.ifuncs
  {
    RunFrame(t, ws, Globals);
    RunFrame(t, ws, Aliases);
    RunFrame(t, ws, IFuncs);
    assert Only(Run(t, ws), Globals).globals == Only(t, Globals).globals;
    assert Only(Run(t, ws), Aliases).aliases == Only(t, Aliases).aliases;
  }

  /** Every entry of `m` is in `m'`, unchanged. */
  ghost predicate Keeps<K, V>(m: map<K, V>, m': map<K, V>) {
    forall k :: k in m ==> k in m' && m'[k] == m[k]
  }

  /** Every non-null entry of `m` is in `m'`, unchanged. */
  ghost predicate KeepsNonNull(m: map<MlirValue, Option<LlvmValue>>, m': map<MlirValue, Option<LlvmValue>>) {
    forall k :: Lookup(m, k).Some? ==> Lookup(m', k) == Lookup(m, k)
  }

  /** `t'` keeps every write-once entry of `t`. */
  ghost predicate Grows(t: Tables, t': Tables) {
    Keeps(t.functions, t'.functions) && KeepsNonNull(t.values, t'.values) && Keeps(t.blocks, t'.blocks)
    && Keeps(t.branches, t'.branches) && Keeps(t.calls, t'.calls)
    && Keeps(t.unresolvedBlockAddresses, t'.unresolvedBlockAddresses)
    && Keeps(t.blockAddresses, t'.blockAddresses)
  }

  lemma ApplyGrows(t: Tables, w: Write)
    requires Admissible(t, w)
    ensures Grows(t, Apply(t, w))
  {
  }

  lemma GrowsTransitive(t: Tables, t': Tables, t'': Tables)
    requires Grows(t, t') && Grows(t', t'')
    ensures Grows(t, t'')
  {
  }

  /** An admissible sequence of writes never changes a write-once entry. */
  lemma {:induction false} RunGrows(t: Tables, ws: seq<Write>)
    requires AdmissibleRun(t, ws)
    ensures Grows(t, Run(t, ws))
    decreases |ws|
  {
    if ws == [] {
    } else {
      var t1 := Apply(t, ws[0]);
      ApplyGrows(t, ws[0]);
      RunGrows(t1, ws[1..]);
      GrowsTransitive(t, t1, Run(t1, ws[1..]));
    }
  }

  /** No write of an admissible sequence goes to a slot taken before the sequence. */
  lemma {:induction false} NoWriteToFilledSlot(t: Tables, ws: seq<Write>)
    requires AdmissibleRun(t, ws)
    ensures forall j :: 0 <= j < |ws| ==> !Filled(t, ws[j])
    decreases |ws|
  {
    if ws != [] {
      var t1 := Apply(t, ws[0]);
      ApplyGrows(t, ws[0]);
      NoWriteToFilledSlot(t1, ws[1..]);
      forall j | 1 <= j < |ws|
        ensures !Filled(t, ws[j])
      {
        assert ws[j] == ws[1..][j - 1];
      }
    }
  }

  /** `w2` writes the write-once slot that `w1` fills. */
  predicate SameSlot(w1: Write, w2: Write) {
    match (w1, w2)
    case (FunctionWrite(n1, _), FunctionWrite(n2, _)) => n1 == n2
    case (ValueWrite(v1, l1), ValueWrite(v2, _)) => v1 == v2 && l1.Some?
    case (BlockWrite(b1, _), BlockWrite(b2, _)) => b1 == b2
    case (BranchWrite(o1, _), BranchWrite(o2, _)) => o1 == o2
    case (CallWrite(o1, _), CallWrite(o2, _)) => o1 == o2
    case (UnresolvedBlockAddressWrite(o1, _), UnresolvedBlockAddressWrite(o2, _)) => o1 == o2
    case (BlockAddressWrite(a1, _), BlockAddressWrite(a2, _)) => a1 == a2
    case _ => false
  }

  lemma ApplyFillsSlot(t: Tables, w1: Write, w2: Write)
    requires SameSlot(w1, w2)
    ensures Filled(Apply(t, w1), w2)
  {
  }

  /** The tables are write-once: in an admissible sequence no slot is written after it was
      filled (a value may be written null and then once more). */
  lemma {:induction false} WriteOnce(t: Tables, ws: seq<Write>)
    requires AdmissibleRun(t, ws)
    ensures forall i, j :: 0 <= i < j < |ws| ==> !SameSlot(ws[i], ws[j])
    decreases |ws|
  {
    if ws != [] {
      var t1 := Apply(t, ws[0]);
      WriteOnce(t1, ws[1..]);
      NoWriteToFilledSlot(t1, ws[1..]);
      forall i, j | 0 <= i < j < |ws|
        ensures !SameSlot(ws[i], ws[j])
      {
        assert ws[j] == ws[1..][j - 1];
        if i > 0 {
          assert ws[i] == ws[1..][i - 1];
        } else if SameSlot(ws[0], ws[j]) {
          ApplyFillsSlot(t, ws[0], ws[j]);
          assert false;
        }
      }
    }
  }

  /** What the write leaves for its lookup to answer: the stored entry, for a value only
      when it is non-null. A loop handle may be consumed later, so nothing is said of it. */
  predicate Visible(t: Tables, w: Write) {
    match w
    case FunctionWrite(name, func) => name in t.functions && t.functions[name] == func
    case ValueWrite(value, llvm) => llvm.Some? ==> Lookup(t.values, value) == llvm
    case BlockWrite(block, llvm) => block in t.blocks && t.blocks[block] == llvm
    case OmpLoopWrite(_, _) => true
    case OmpLoopInvalidate(_) => true
    case BranchWrite(op, llvm) => op in t.branches && t.branches[op] == llvm
    case CallWrite(op, llvm) => op in t.calls && t.calls[op] == llvm
    case UnresolvedBlockAddressWrite(op, cst) =>
      op in t.unresolvedBlockAddresses && t.unresolvedBlockAddresses[op] == cst
    case BlockAddressWrite(attr, block) => attr in t.blockAddresses && t.blockAddresses[attr] == block
  }

  lemma ApplyVisible(t: Tables, w: Write)
    ensures Visible(Apply(t, w), w)
  {
  }

  lemma GrowsKeepsVisible(t: Tables, t': Tables, w: Write)
    requires Grows(t, t') && Visible(t, w)
    ensures Visible(t', w)
  {
  }

  /** After an admissible sequence every write is still visible through its lookup. */
  lemma {:induction false} RunShowsWrites(t: Tables, ws: seq<Write>)
    requires AdmissibleRun(t, ws)
    ensures forall i :: 0 <= i < |ws| ==> Visible(Run(t, ws), ws[i])
    decreases |ws|
  {
    if ws != [] {
      var t1 := Apply(t, ws[0]);
      RunShowsWrites(t1, ws[1..]);
      RunGrows(t1, ws[1..]);
      ApplyVisible(t, ws[0]);
      GrowsKeepsVisible(t1, Run(t1, ws[1..]), ws[0]);
      forall i | 1 <= i < |ws|
        ensures Visible(Run(t, ws), ws[i])
      {
        assert ws[i] == ws[1..][i - 1];
      }
    }
  }

  /** Makes one write through the translation's method for it. */
  method ApplyWrite(mt: ModuleTranslation, w: Write)
    requires Admissible(mt.Snapshot(), w)
    modifies mt
    ensures mt.Snapshot() == Apply(old(mt.Snapshot()), w)
  {
    match w {
      case FunctionWrite(name, func) => mt.MapFunction(name, func);
      case ValueWrite(value, llvm) => mt.MapValue(value, llvm);
      case BlockWrite(block, llvm) => mt.MapBlock(block, llvm);
      case OmpLoopWrite(loop, info) => mt.MapOmpLoop(loop, Some(info));
      case OmpLoopInvalidate(loop) => mt.InvalidateOmpLoop(loop);
      case BranchWrite(op, llvm) => mt.MapBranch(op, llvm);
      case CallWrite(op, llvm) => mt.MapCall(op, llvm);
      case UnresolvedBlockAddressWrite(op, cst) => mt.MapUnresolvedBlockAddress(op, cst);
      case BlockAddressWrite(attr, block) => mt.MapBlockAddress(attr, block);
    }
  }

  /** Makes the writes through the translation's methods, in order. */
  method ApplyWrites(mt: ModuleTranslation, ws: seq<Write>)
    requires AdmissibleRun(mt.Snapshot(), ws)
    modifies mt
    ensures mt.Snapshot() == Run(old(mt.Snapshot()), ws)
  {
    var i := 0;
    while i < |ws|
      invariant i <= |ws|
      invariant AdmissibleRun(mt.Snapshot(), ws[i..])
      invariant Run(mt.Snapshot(), ws[i..]) == Run(old(mt.Snapshot()), ws)
    {
      assert ws[i..][0] == ws[i] && ws[i..][1..] == ws[i + 1..];
      ApplyWrite(mt, ws[i]);
      i := i + 1;
    }
  }
}
