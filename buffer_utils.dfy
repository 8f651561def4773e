/** Buffer placement helpers of the bufferization transforms: where an allocation may
    start, which operations count as movable allocations, and the module-level global
    that backs a tensor constant. */
module BufferUtils {
  import opened Wrappers

  // ---------------------------------------------------------------------------------
  // getStartOperation
  // ---------------------------------------------------------------------------------

  /** An operation, known by its identity and the block that holds it. */
  datatype Operation = Operation(id: nat, block: nat)

  /** `BufferPlacementAllocs::getStartOperation`. `livenessStart` is the liveness start
      operation of the allocated value; `findAncestor(op)` is
      `placementBlock->findAncestorOpInBlock(op)` (None when no ancestor of `op` lies in the
      block); `terminator` is the block's terminator. The start operation is kept when it
      already lies in the placement block, else replaced by its ancestor there, else by the
      terminator. */
  function GetStartOperation(livenessStart: Operation, placementBlock: nat,
                             findAncestor: Operation -> Option<Operation>,
                             terminator: Operation): (r: Operation)
    ensures livenessStart.block == placementBlock ==> r == livenessStart
    ensures livenessStart.block != placementBlock ==>
              r == (if findAncestor(livenessStart).Some? then findAncestor(livenessStart).value else terminator)
  {
    if livenessStart.block != placementBlock then
      var inBlock := findAncestor(livenessStart);
      if inBlock.Some? then inBlock.value else terminator
    else
      livenessStart
  }

  /** When the ancestor search answers only with operations of the placement block, and
      the terminator belongs to it, the chosen start operation lies in the placement block:
      the allocation is always placed inside the block it was assigned to. */
  lemma StartOperationInPlacementBlock(livenessStart: Operation, placementBlock: nat,
                                       findAncestor: Operation -> Option<Operation>,
                                       terminator: Operation)
    requires findAncestor(livenessStart).Some? ==> findAncestor(livenessStart).value.block == placementBlock
    requires terminator.block == placementBlock
    ensures GetStartOperation(livenessStart, placementBlock, findAncestor, terminator).block == placementBlock
    ensures GetStartOperation(livenessStart, placementBlock, findAncestor, terminator) == livenessStart
              <== livenessStart.block == placementBlock
  {
  }

  // ---------------------------------------------------------------------------------
  // BufferPlacementAllocs::build
  // ---------------------------------------------------------------------------------

  type ValueId = nat
  type OpId = nat

  /** The memory effect kinds. */
  datatype EffectKind = Allocate | Free | Read | Write

  /** The value an effect is on: none, a result of an operation, or a block argument. */
  datatype EffectValue = NoValue | OpResult(id: ValueId) | BlockArgument(id: ValueId)

  /** The resource an effect is on. */
  datatype Resource = AutomaticAllocationScopeResource | DefaultResource | OtherResource(name: string)

  datatype EffectInstance = EffectInstance(effect: EffectKind, value: EffectValue, resource: Resource)

  /** An operation met by the walk: `effects` is None when it does not implement
      `MemoryEffectOpInterface`, which the walk then skips. */
  datatype WalkedOp = WalkedOp(id: OpId, effects: Option<seq<EffectInstance>>)

  /** `findDealloc`'s answer: None when the value has more than one deallocation, else
      `Some(d)` with `d` the one deallocating operation or None. */
  type DeallocFinder = ValueId -> Option<Option<OpId>>

  /** An allocation entry: the allocated value and its deallocation, if any. */
  type AllocEntry = (ValueId, Option<OpId>)

  /** The `copy_if` predicate: an allocation of an operation result that is not the
      automatic allocation scope resource. */
  predicate IsAllocateResultEffect(e: EffectInstance) {
    e.effect == Allocate && e.value.OpResult? && e.resource != AutomaticAllocationScopeResource
  }

  /** `copy_if(effects, ..., IsAllocateResultEffect)`. */
  function AllocateResultEffects(effects: seq<EffectInstance>): (r: seq<EffectInstance>)
    ensures |r| <= |effects|
    ensures forall e :: e in r <==> e in effects && IsAllocateResultEffect(e)
    ensures forall i :: 0 <= i < |r| ==> IsAllocateResultEffect(r[i])
  {
    if effects == [] then []
    else
      (if IsAllocateResultEffect(effects[0]) then [effects[0]] else []) + AllocateResultEffects(effects[1..])
  }

  /** Two distinct qualifying effects leave at least two entries after filtering. */
  lemma {:induction false} TwoQualifyingEffects(effects: seq<EffectInstance>, j: nat, k: nat)
    requires j < k < |effects|
    requires IsAllocateResultEffect(effects[j]) && IsAllocateResultEffect(effects[k])
    ensures |AllocateResultEffects(effects)| >= 2
  {
    if j == 0 {
      assert effects[k] == effects[1..][k - 1];
      assert effects[k] in AllocateResultEffects(effects[1..]);
    } else {
      assert effects[j] == effects[1..][j - 1] && effects[k] == effects[1..][k - 1];
      TwoQualifyingEffects(effects[1..], j - 1, k - 1);
    }
  }

  /** The value of the single qualifying effect, when there is exactly one. */
  function SingleAllocation(op: WalkedOp): Option<ValueId> {
    if op.effects.Some? && |AllocateResultEffects(op.effects.value)| == 1 then
      Some(AllocateResultEffects(op.effects.value)[0].value.id)
    else
      None
  }

  /** No qualifying effect, nothing kept. */
  lemma {:induction false} NoQualifyingEffect(effects: seq<EffectInstance>)
    requires forall i :: 0 <= i < |effects| ==> !IsAllocateResultEffect(effects[i])
    ensures AllocateResultEffects(effects) == []
  {
    if effects != [] {
      var rest := effects[1..];
      assert forall i :: 0 <= i < |rest| ==> rest[i] == effects[i + 1];
      NoQualifyingEffect(rest);
    }
  }

  /** When the effect at `k` is the only qualifying one, the filter keeps exactly it. */
  lemma {:induction false} OnlyQualifyingEffect(effects: seq<EffectInstance>, k: nat)
    requires k < |effects| && IsAllocateResultEffect(effects[k])
    requires forall j :: 0 <= j < |effects| && j != k ==> !IsAllocateResultEffect(effects[j])
    ensures AllocateResultEffects(effects) == [effects[k]]
  {
    var rest := effects[1..];
    assert forall i :: 0 <= i < |rest| ==> rest[i] == effects[i + 1];
    if k == 0 {
      NoQualifyingEffect(rest);
    } else {
      OnlyQualifyingEffect(rest, k - 1);
    }
  }

  /** An operation yields an allocation exactly when it has memory effects of which exactly
      one qualifies, and the allocation is that effect's value. */
  lemma SingleAllocationMeaning(op: WalkedOp, v: ValueId)
    ensures SingleAllocation(op) == Some(v) <==>
              op.effects.Some? &&
              exists k :: 0 <= k < |op.effects.value| && IsAllocateResultEffect(op.effects.value[k]) &&
                          op.effects.value[k].value.id == v &&
                          forall j :: 0 <= j < |op.effects.value| && j != k ==>
                            !IsAllocateResultEffect(op.effects.value[j])
  {
    if op.effects.Some? {
      var es := op.effects.value;
      var f := AllocateResultEffects(es);
      if SingleAllocation(op) == Some(v) {
        assert f[0] in f;
        var k :| 0 <= k < |es| && es[k] == f[0];
        forall j | 0 <= j < |es| && j != k
          ensures !IsAllocateResultEffect(es[j])
        {
          if IsAllocateResultEffect(es[j]) {
            if j < k {
              TwoQualifyingEffects(es, j, k);
            } else {
              TwoQualifyingEffects(es, k, j);
            }
          }
        }
      }
      if exists k :: 0 <= k < |es| && IsAllocateResultEffect(es[k]) && es[k].value.id == v &&
                     forall j :: 0 <= j < |es| && j != k ==> !IsAllocateResultEffect(es[j]) {
        var k :| 0 <= k < |es| && IsAllocateResultEffect(es[k]) && es[k].value.id == v &&
                 forall j :: 0 <= j < |es| && j != k ==> !IsAllocateResultEffect(es[j]);
        OnlyQualifyingEffect(es, k);
      }
    }
  }

  /** The entry an operation contributes: its single allocation, when that has at most one
      deallocation. */
  function EntryOf(op: WalkedOp, findDealloc: DeallocFinder): Option<AllocEntry> {
    match SingleAllocation(op)
    case None => None
    case Some(v) => if findDealloc(v).Some? then Some((v, findDealloc(v).value)) else None
  }

  /** The entries contributed by a stretch of the walk. */
  function EntrySeq(e: Option<AllocEntry>): seq<AllocEntry> {
    if e.Some? then [e.value] else []
  }

  /** The allocation entries of a walk, in walk order. */
  function AllocEntries(ops: seq<WalkedOp>, findDealloc: DeallocFinder): seq<AllocEntry> {
    if ops == [] then []
    else AllocEntries(ops[..|ops| - 1], findDealloc) + EntrySeq(EntryOf(ops[|ops| - 1], findDealloc))
  }

  /** Entries follow the walk: the entries of two consecutive stretches of the walk are the
      entries of the first followed by those of the second. */
  lemma {:induction false} AllocEntriesAppend(ops1: seq<WalkedOp>, ops2: seq<WalkedOp>, findDealloc: DeallocFinder)
    ensures AllocEntries(ops1 + ops2, findDealloc) == AllocEntries(ops1, findDealloc) + AllocEntries(ops2, findDealloc)
  {
    if ops2 != [] {
      assert (ops1 + ops2)[..|ops1 + ops2| - 1] == ops1 + ops2[..|ops2| - 1];
      AllocEntriesAppend(ops1, ops2[..|ops2| - 1], findDealloc);
    } else {
      assert ops1 + ops2 == ops1;
    }
  }

  /** Every recorded entry comes from a walked operation. */
  lemma {:induction false} AllocEntriesSound(ops: seq<WalkedOp>, findDealloc: DeallocFinder, e: AllocEntry)
    requires e in AllocEntries(ops, findDealloc)
    ensures exists k :: 0 <= k < |ops| && EntryOf(ops[k], findDealloc) == Some(e)
  {
    var init := ops[..|ops| - 1];
    if e in AllocEntries(init, findDealloc) {
      AllocEntriesSound(init, findDealloc, e);
      var k :| 0 <= k < |init| && EntryOf(init[k], findDealloc) == Some(e);
      assert ops[k] == init[k];
    } else {
      assert EntryOf(ops[|ops| - 1], findDealloc) == Some(e);
    }
  }

  /** Every walked operation's entry is recorded. */
  lemma {:induction false} AllocEntriesComplete(ops: seq<WalkedOp>, findDealloc: DeallocFinder, k: nat)
    requires k < |ops| && EntryOf(ops[k], findDealloc).Some?
    ensures EntryOf(ops[k], findDealloc).value in AllocEntries(ops, findDealloc)
  {
    var init := ops[..|ops| - 1];
    if k < |init| {
      assert ops[k] == init[k];
      AllocEntriesComplete(init, findDealloc, k);
    }
  }

  /** An entry is recorded exactly for the allocations of walked operations whose
      deallocation is unique or absent, paired with that deallocation. */
  lemma AllocEntriesMembership(ops: seq<WalkedOp>, findDealloc: DeallocFinder, e: AllocEntry)
    ensures e in AllocEntries(ops, findDealloc) <==>
              (exists k :: 0 <= k < |ops| && SingleAllocation(ops[k]) == Some(e.0)) && findDealloc(e.0) == Some(e.1)
  {
    if e in AllocEntries(ops, findDealloc) {
      AllocEntriesSound(ops, findDealloc, e);
    }
    if exists k :: 0 <= k < |ops| && SingleAllocation(ops[k]) == Some(e.0) {
      var k :| 0 <= k < |ops| && SingleAllocation(ops[k]) == Some(e.0);
      if findDealloc(e.0) == Some(e.1) {
        AllocEntriesComplete(ops, findDealloc, k);
      }
    }
  }
  /** `BufferPlacementAllocs`: the list of movable allocations of a region. */
  class BufferPlacementAllocs {
    var allocs: seq<AllocEntry>

    /** The constructor discovers the allocations of the walked operations. */
    constructor(ops: seq<WalkedOp>, findDealloc: DeallocFinder)
      ensures allocs == AllocEntries(ops, findDealloc)
    {
      allocs := [];
      new;
      Build(ops, findDealloc);
    }

    /** `build`: walks the operations in order and appends the entry of each one that has
        exactly one qualifying allocation with at most one deallocation. */
    method Build(ops: seq<WalkedOp>, findDealloc: DeallocFinder)
      modifies this`allocs
      ensures allocs == old(allocs) + AllocEntries(ops, findDealloc)
    {
      var i := 0;
      while i < |ops|
        invariant i <= |ops|
        invariant allocs == old(allocs) + AllocEntries(ops[..i], findDealloc)
      {
        var op := ops[i];
        assert ops[..i + 1][..i] == ops[..i];
        if op.effects.Some? {
          var allocateResultEffects := AllocateResultEffects(op.effects.value);
          if |allocateResultEffects| == 1 {
            var allocValue := allocateResultEffects[0].value.id;
            var dealloc := findDealloc(allocValue);
            if dealloc.Some? {
              allocs := allocs + [(allocValue, dealloc.value)];
            }
          }
        }
        i := i + 1;
      }
      assert ops[..i] == ops;
    }
  }

  // ---------------------------------------------------------------------------------
  // getGlobalFor
  // ---------------------------------------------------------------------------------

  /** The dense elements attribute of a constant, compared by identity. */
  type ElementsAttr = nat

  /** A ranked tensor type with a static shape; the element type is named by its printed
      form. */
  datatype TensorType = TensorType(shape: seq<nat>, elementType: string)

  /** A memref type with the static identity layout, in an optional memory space. */
  datatype MemRefType = MemRefType(shape: seq<nat>, elementType: string, memorySpace: Option<nat>)

  /** `memref.global`. */
  datatype GlobalOp = GlobalOp(symName: string, visibility: string, ty: MemRefType,
                               initialValue: Option<ElementsAttr>, constant: bool,
                               alignment: Option<nat>)

  /** An operation in a module body. */
  datatype ModuleItem = Global(global: GlobalOp) | OtherOp(id: OpId)

  /** A module: the operations of its body, in order. */
  class ModuleOp {
    var body: seq<ModuleItem>

    constructor(body: seq<ModuleItem>)
      ensures this.body == body
    {
      this.body := body;
    }
  }

  /** `arith.constant` with a ranked tensor type; `parent` is its enclosing module. */
  datatype ConstantOp = ConstantOp(ty: TensorType, value: ElementsAttr, parent: Option<ModuleOp>)

  /** A module operation that can be reused for the constant: a global with an initial
      value equal to the constant's and an alignment, missing meaning 0, equal to the
      requested one. */
  predicate Reusable(item: ModuleItem, value: ElementsAttr, alignment: nat) {
    item.Global? && item.global.initialValue == Some(value) &&
    (if item.global.alignment.Some? then item.global.alignment.value else 0) == alignment
  }

  /** The position of the first reusable global, or the length of the body when none. */
  function FirstReusable(body: seq<ModuleItem>, value: ElementsAttr, alignment: nat): (k: nat)
    ensures k <= |body|
    ensures k < |body| ==> Reusable(body[k], value, alignment)
    ensures forall j :: 0 <= j < k ==> !Reusable(body[j], value, alignment)
  {
    if body == [] then 0
    else if Reusable(body[0], value, alignment) then 0
    else 1 + FirstReusable(body[1..], value, alignment)
  }

  /** The decimal digit of `d`. */
  function Digit(d: nat): char
    requires d < 10
  {
    "0123456789"[d]
  }

  predicate IsDigit(c: char) {
    '0' <= c <= '9'
  }

  /** `raw_ostream << n` for a non-negative dimension. */
  function Decimal(n: nat): (s: string)
    ensures |s| > 0
    ensures forall i :: 0 <= i < |s| ==> IsDigit(s[i])
  {
    if n < 10 then [Digit(n)] else Decimal(n / 10) + [Digit(n % 10)]
  }

  /** Reads a string of decimal digits back. */
  function ParseDecimal(s: string): nat
    requires forall i :: 0 <= i < |s| ==> IsDigit(s[i])
  {
    if s == [] then 0
    else
      var c := s[|s| - 1];
      assert IsDigit(c);
      10 * ParseDecimal(s[..|s| - 1]) + (c as int - '0' as int)
  }

  /** The printed dimension reads back as the dimension. */
  lemma {:induction false} DecimalRoundTrip(n: nat)
    ensures ParseDecimal(Decimal(n)) == n
  {
    if n >= 10 {
      DecimalRoundTrip(n / 10);
      var s := Decimal(n);
      assert s[..|s| - 1] == Decimal(n / 10);
    }
  }

  /** `interleave(shape, os, "x")`: the dimensions separated by `x`. */
  function JoinDims(shape: seq<nat>): (r: string)
    ensures shape == [] <==> r == ""
    ensures |shape| == 1 ==> 'x' !in r
    ensures |shape| > 1 ==> 'x' in r
  {
    if shape == [] then ""
    else if |shape| == 1 then Decimal(shape[0])
    else
      var r := Decimal(shape[0]) + "x" + JoinDims(shape[1..]);
      assert r[|Decimal(shape[0])|] == 'x';
      r
  }

  /** `__constant_` followed by the joined dimensions, `x`, and the element type. */
  function GlobalName(ty: TensorType): string {
    "__constant_" + JoinDims(ty.shape) + "x" + ty.elementType
  }

  /** The global built for a constant that has no reusable one. */
  function NewGlobal(constantOp: ConstantOp, alignment: nat, memorySpace: Option<nat>): GlobalOp {
    GlobalOp(GlobalName(constantOp.ty), "private",
             MemRefType(constantOp.ty.shape, constantOp.ty.elementType, memorySpace),
             Some(constantOp.value), true,
             if alignment > 0 then Some(alignment) else None)
  }

  /** A new global holds the constant, is private and constant, has the constant's shape and
      element type in the requested memory space, carries an alignment exactly when one was
      asked for, and is itself reusable for the same request. */
  lemma NewGlobalShape(constantOp: ConstantOp, alignment: nat, memorySpace: Option<nat>)
    ensures var g := NewGlobal(constantOp, alignment, memorySpace);
            g.visibility == "private" && g.constant && g.initialValue == Some(constantOp.value) &&
            g.ty.shape == constantOp.ty.shape && g.ty.elementType == constantOp.ty.elementType &&
            g.ty.memorySpace == memorySpace &&
            (g.alignment.Some? <==> alignment > 0) && (g.alignment.Some? ==> g.alignment.value == alignment) &&
            Reusable(Global(g), constantOp.value, alignment)
  {
  }

  /** The name of a 2x3 tensor of i32 and of a rank-0 tensor of f32. */
  lemma GlobalNameExamples()
    ensures GlobalName(TensorType([2, 3], "i32")) == "__constant_2x3xi32"
    ensures GlobalName(TensorType([], "f32")) == "__constant_xf32"
  {
    assert Decimal(2) == "2" && Decimal(3) == "3";
    assert JoinDims([3]) == "3";
    assert [2, 3][1..] == [3];
  }

  /** The position of the first `x` in a string, or its length when none. */
  function FirstX(u: string): (k: nat)
    ensures k <= |u|
    ensures k < |u| ==> u[k] == 'x'
    ensures forall i :: 0 <= i < k ==> u[i] != 'x'
  {
    if u == [] then 0 else if u[0] == 'x' then 0 else 1 + FirstX(u[1..])
  }

  /** The first `x` after an `x`-free prefix is the one that follows it. */
  lemma FirstXAfter(a: string, s: string)
    requires 'x' !in a
    ensures FirstX(a + "x" + s) == |a|
  {
    var u := a + "x" + s;
    assert u[|a|] == 'x';
    assert forall i :: 0 <= i < |a| ==> u[i] == a[i];
  }

  /** Splitting at the first `x`: two strings with no `x` followed by `x` agree when the
      whole strings do. */
  lemma SplitAtFirstX(a: string, b: string, s: string, t: string)
    requires 'x' !in a && 'x' !in b
    requires a + "x" + s == b + "x" + t
    ensures a == b && s == t
  {
    var u := a + "x" + s;
    FirstXAfter(a, s);
    FirstXAfter(b, t);
    assert a == u[..|a|] == b;
    assert s == u[|a| + 1..] == t;
  }

  /** Different shapes print differently: the dimension part of a name determines the
      shape. */
  lemma {:induction false} JoinDimsInjective(a: seq<nat>, b: seq<nat>)
    requires JoinDims(a) == JoinDims(b)
    ensures a == b
  {
    if |a| == 1 && |b| == 1 {
      DecimalRoundTrip(a[0]);
      DecimalRoundTrip(b[0]);
    } else if |a| > 1 && |b| > 1 {
      SplitAtFirstX(Decimal(a[0]), Decimal(b[0]), JoinDims(a[1..]), JoinDims(b[1..]));
      DecimalRoundTrip(a[0]);
      DecimalRoundTrip(b[0]);
      JoinDimsInjective(a[1..], b[1..]);
      assert a == [a[0]] + a[1..] && b == [b[0]] + b[1..];
    }
  }

  /** Two new globals for constants of the same element type get the same name only when
      the constants have the same shape. */
  lemma GlobalNameDeterminesShape(t1: TensorType, t2: TensorType)
    requires t1.elementType == t2.elementType && GlobalName(t1) == GlobalName(t2)
    ensures t1.shape == t2.shape
  {
    var p := "__constant_";
    assert GlobalName(t1) == p + (JoinDims(t1.shape) + "x" + t1.elementType);
    assert GlobalName(t2) == p + (JoinDims(t2.shape) + "x" + t2.elementType);
    var u1 := JoinDims(t1.shape) + "x" + t1.elementType;
    var u2 := JoinDims(t2.shape) + "x" + t2.elementType;
    assert u1 == GlobalName(t1)[|p|..] == GlobalName(t2)[|p|..] == u2;
    assert JoinDims(t1.shape) == u1[..|u1| - |t1.elementType| - 1] == u2[..|u2| - |t2.elementType| - 1] == JoinDims(t2.shape);
    JoinDimsInjective(t1.shape, t2.shape);
  }

  /** `getGlobalFor`: fails without an enclosing module; otherwise answers the first
      reusable global of the module, or builds a new one and puts it at the front of the
      module body. */
  method GetGlobalFor(constantOp: ConstantOp, alignment: nat, memorySpace: Option<nat>)
    returns (r: Result<GlobalOp>)
    modifies if constantOp.parent.Some? then {constantOp.parent.value} else {}
    ensures constantOp.parent.None? ==> r.Failure?
    ensures constantOp.parent.Some? ==>
              var m := constantOp.parent.value;
              var k := FirstReusable(old(m.body), constantOp.value, alignment);
              if k < |old(m.body)| then
                r == Success(old(m.body)[k].global) && m.body == old(m.body)
              else
                r == Success(NewGlobal(constantOp, alignment, memorySpace)) &&
                m.body == [Global(NewGlobal(constantOp, alignment, memorySpace))] + old(m.body)
  {
    if constantOp.parent.None? {
      return Failure("constant has no enclosing module");
    }
    var moduleOp := constantOp.parent.value;
    var i := 0;
    while i < |moduleOp.body|
      invariant i <= |moduleOp.body|
      invariant forall j :: 0 <= j < i ==> !Reusable(moduleOp.body[j], constantOp.value, alignment)
    {
      var op := moduleOp.body[i];
      if op.Global? && op.global.initialValue.Some? {
        var opAlignment := if op.global.alignment.Some? then op.global.alignment.value else 0;
        if opAlignment == alignment && op.global.initialValue.value == constantOp.value {
          FirstReusableAt(moduleOp.body, constantOp.value, alignment, i);
          return Success(op.global);
        }
      }
      i := i + 1;
    }
    FirstReusableAt(moduleOp.body, constantOp.value, alignment, i);
    var name := "__constant_" + JoinDims(constantOp.ty.shape) + "x" + constantOp.ty.elementType;
    var memrefAlignment := if alignment > 0 then Some(alignment) else None;
    var memrefType := MemRefType(constantOp.ty.shape, constantOp.ty.elementType, None);
    if memorySpace.Some? {
      memrefType := memrefType.(memorySpace := memorySpace);
    }
    var global := GlobalOp(name, "private", memrefType, Some(constantOp.value), true, memrefAlignment);
    // The symbol table inserts at the end; the global is then moved to the front.
    moduleOp.body := moduleOp.body + [Global(global)];
    moduleOp.body := [Global(global)] + moduleOp.body[..|moduleOp.body| - 1];
    r := Success(global);
  }

  /** The first reusable position is the first position at which a search that found
      nothing earlier stops. */
  lemma {:induction false} FirstReusableAt(body: seq<ModuleItem>, value: ElementsAttr, alignment: nat, i: nat)
    requires i <= |body|
    requires forall j :: 0 <= j < i ==> !Reusable(body[j], value, alignment)
    requires i < |body| ==> Reusable(body[i], value, alignment)
    ensures FirstReusable(body, value, alignment) == i
  {
    if i > 0 {
      assert !Reusable(body[0], value, alignment);
      FirstReusableAt(body[1..], value, alignment, i - 1);
    }
  }
}
