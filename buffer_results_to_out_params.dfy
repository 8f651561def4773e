/** The buffer-results-to-out-params rewrite: memref results of functions become extra
    arguments that the callee writes into, return operations copy into them, and calls
    allocate the buffers and pass them. Modelled at the level of signatures and operand
    lists. */
module BufferResultsToOutParams {
  import opened Wrappers

  // ---------------------------------------------------------------------------------
  // Types and layouts
  // ---------------------------------------------------------------------------------

  /** A shape extent, stride or offset: a static integer or dynamic. */
  datatype Extent = Static(size: int) | Dynamic

  /** A memref layout: the identity, a strided layout, or a layout from which no strides
      and offset can be computed. */
  datatype Layout = IdentityLayout | StridedLayout(strides: seq<Extent>, offset: Extent) | NonStridedLayout

  datatype MemRef = MemRef(shape: seq<Extent>, elementType: nat, layout: Layout, memorySpace: Option<nat>)

  /** A type: a memref, or any other type, known by an identifier. */
  datatype Type = MemRefTy(memref: MemRef) | OtherTy(id: nat)

  /** An SSA value with its type. */
  datatype Value = Value(id: nat, ty: Type)

  datatype Attribute = UnitAttr | OtherAttr(id: nat)

  /** A dictionary of named attributes of an argument or result. */
  type AttrDict = map<string, Attribute>

  /** The product of the extents, dynamic when one of them is. */
  function Product(s: seq<Extent>): Extent {
    if s == [] then Static(1)
    else
      match (s[0], Product(s[1..]))
      case (Static(a), Static(b)) => Static(a * b)
      case _ => Dynamic
  }

  /** `getStridesAndOffset`: the identity layout has the canonical row-major strides and
      offset 0; a strided layout has its own; otherwise it fails. */
  function StridesAndOffset(m: MemRef): Option<(seq<Extent>, Extent)> {
    match m.layout
    case IdentityLayout => Some((seq(|m.shape|, i requires 0 <= i < |m.shape| => Product(m.shape[i + 1..])), Static(0)))
    case StridedLayout(strides, offset) => Some((strides, offset))
    case NonStridedLayout => None
  }

  /** `hasFullyDynamicLayoutMap`: strides and offset are computable and all dynamic. */
  predicate HasFullyDynamicLayoutMap(m: MemRef) {
    match StridesAndOffset(m)
    case None => false
    case Some((strides, offset)) => (forall i :: 0 <= i < |strides| ==> strides[i].Dynamic?) && offset.Dynamic?
  }

  /** `hasStaticIdentityLayout`. */
  predicate HasStaticIdentityLayout(m: MemRef) {
    m.layout.IdentityLayout?
  }

  predicate HasStaticShape(m: MemRef) {
    forall i :: 0 <= i < |m.shape| ==> m.shape[i].Static?
  }

  /** A fully dynamic layout is exactly a strided layout whose strides and offset are all
      dynamic; in particular the identity layout, with its static offset 0, is never fully
      dynamic, so the two accepted layouts are disjoint. */
  lemma FullyDynamicLayoutMeaning(m: MemRef)
    ensures HasFullyDynamicLayoutMap(m) <==>
              m.layout.StridedLayout? && m.layout.offset.Dynamic? &&
              forall i :: 0 <= i < |m.layout.strides| ==> m.layout.strides[i].Dynamic?
    ensures HasStaticIdentityLayout(m) ==> !HasFullyDynamicLayoutMap(m)
  {
  }

  /** A memref result can become an out-param when its layout is the identity or fully
      dynamic; other types are never out-params. */
  predicate Supported(t: Type) {
    t.MemRefTy? ==> HasStaticIdentityLayout(t.memref) || HasFullyDynamicLayoutMap(t.memref)
  }

  predicate AllSupported(ts: seq<Type>) {
    forall i :: 0 <= i < |ts| ==> Supported(ts[i])
  }

  // ---------------------------------------------------------------------------------
  // Order-preserving partition of types and values
  // ---------------------------------------------------------------------------------

  /** The memref types, in order. */
  function MemRefTypes(ts: seq<Type>): (r: seq<Type>)
    ensures |r| <= |ts|
    ensures forall k :: 0 <= k < |r| ==> r[k].MemRefTy?
  {
    if ts == [] then []
    else MemRefTypes(ts[..|ts| - 1]) + (if ts[|ts| - 1].MemRefTy? then [ts[|ts| - 1]] else [])
  }

  /** The other types, in order. */
  function OtherTypes(ts: seq<Type>): (r: seq<Type>)
    ensures |r| <= |ts|
    ensures forall k :: 0 <= k < |r| ==> !r[k].MemRefTy?
  {
    if ts == [] then []
    else OtherTypes(ts[..|ts| - 1]) + (if ts[|ts| - 1].MemRefTy? then [] else [ts[|ts| - 1]])
  }

  /** The positions of the memref types, ascending. */
  function MemRefIndices(ts: seq<Type>): (r: seq<nat>)
    ensures |r| == |MemRefTypes(ts)|
    ensures forall k :: 0 <= k < |r| ==> r[k] < |ts|
  {
    if ts == [] then []
    else MemRefIndices(ts[..|ts| - 1]) + (if ts[|ts| - 1].MemRefTy? then [|ts| - 1] else [])
  }

  /** The positions of the other types, ascending. */
  function OtherIndices(ts: seq<Type>): (r: seq<nat>)
    ensures |r| == |OtherTypes(ts)|
    ensures forall k :: 0 <= k < |r| ==> r[k] < |ts|
  {
    if ts == [] then []
    else OtherIndices(ts[..|ts| - 1]) + (if ts[|ts| - 1].MemRefTy? then [] else [|ts| - 1])
  }

  /** The memref-typed values, in order. */
  function MemRefValues(vs: seq<Value>): (r: seq<Value>)
    ensures |r| <= |vs|
    ensures forall k :: 0 <= k < |r| ==> r[k].ty.MemRefTy?
  {
    if vs == [] then []
    else MemRefValues(vs[..|vs| - 1]) + (if vs[|vs| - 1].ty.MemRefTy? then [vs[|vs| - 1]] else [])
  }

  /** The other values, in order. */
  function OtherValues(vs: seq<Value>): (r: seq<Value>)
    ensures |r| <= |vs|
    ensures forall k :: 0 <= k < |r| ==> !r[k].ty.MemRefTy?
  {
    if vs == [] then []
    else OtherValues(vs[..|vs| - 1]) + (if vs[|vs| - 1].ty.MemRefTy? then [] else [vs[|vs| - 1]])
  }

  function TypesOf(vs: seq<Value>): (r: seq<Type>)
    ensures |r| == |vs| && forall i :: 0 <= i < |vs| ==> r[i] == vs[i].ty
  {
    seq(|vs|, i requires 0 <= i < |vs| => vs[i].ty)
  }

  /** The elements at the given positions. */
  function Pick<T>(s: seq<T>, idx: seq<nat>): (r: seq<T>)
    requires forall k :: 0 <= k < |idx| ==> idx[k] < |s|
    ensures |r| == |idx| && forall k :: 0 <= k < |idx| ==> r[k] == s[idx[k]]
  {
    seq(|idx|, k requires 0 <= k < |idx| => s[idx[k]])
  }

  /** The memref results and the other results partition the results preserving their
      order: each list holds the types at its positions, each position list is ascending,
      every position lands in exactly one of them according to its type, and together the
      lists are as long as the results. */
  lemma TypePartition(ts: seq<Type>)
    ensures |MemRefTypes(ts)| + |OtherTypes(ts)| == |ts|
    ensures forall k :: 0 <= k < |MemRefTypes(ts)| ==> MemRefTypes(ts)[k] == ts[MemRefIndices(ts)[k]]
    ensures forall k :: 0 <= k < |OtherTypes(ts)| ==> OtherTypes(ts)[k] == ts[OtherIndices(ts)[k]]
    ensures forall k, l :: 0 <= k < l < |MemRefIndices(ts)| ==> MemRefIndices(ts)[k] < MemRefIndices(ts)[l]
    ensures forall k, l :: 0 <= k < l < |OtherIndices(ts)| ==> OtherIndices(ts)[k] < OtherIndices(ts)[l]
    ensures forall j :: 0 <= j < |ts| ==> (j in MemRefIndices(ts) <==> ts[j].MemRefTy?) &&
                                          (j in OtherIndices(ts) <==> !ts[j].MemRefTy?)
  {
    PartitionLengths(ts);
    PartitionPositions(ts);
    PartitionAscending(ts);
    PartitionMembership(ts);
  }

  lemma {:induction false} PartitionLengths(ts: seq<Type>)
    ensures |MemRefTypes(ts)| + |OtherTypes(ts)| == |ts|
  {
    if ts != [] {
      PartitionLengths(ts[..|ts| - 1]);
    }
  }

  lemma {:induction false} PartitionPositions(ts: seq<Type>)
    ensures forall k :: 0 <= k < |MemRefTypes(ts)| ==> MemRefTypes(ts)[k] == ts[MemRefIndices(ts)[k]]
    ensures forall k :: 0 <= k < |OtherTypes(ts)| ==> OtherTypes(ts)[k] == ts[OtherIndices(ts)[k]]
  {
    if ts != [] {
      var init := ts[..|ts| - 1];
      PartitionPositions(init);
      assert forall j :: 0 <= j < |init| ==> init[j] == ts[j];
    }
  }

  lemma {:induction false} PartitionAscending(ts: seq<Type>)
    ensures forall k, l :: 0 <= k < l < |MemRefIndices(ts)| ==> MemRefIndices(ts)[k] < MemRefIndices(ts)[l]
    ensures forall k, l :: 0 <= k < l < |OtherIndices(ts)| ==> OtherIndices(ts)[k] < OtherIndices(ts)[l]
  {
    if ts != [] {
      PartitionAscending(ts[..|ts| - 1]);
    }
  }

  lemma PartitionMembership(ts: seq<Type>)
    ensures forall j :: 0 <= j < |ts| ==> (j in MemRefIndices(ts) <==> ts[j].MemRefTy?) &&
                                          (j in OtherIndices(ts) <==> !ts[j].MemRefTy?)
  {
    MemRefMembership(ts);
    OtherMembership(ts);
  }

  lemma {:induction false} MemRefMembership(ts: seq<Type>)
    ensures forall j :: 0 <= j < |ts| ==> (j in MemRefIndices(ts) <==> ts[j].MemRefTy?)
  {
    if ts != [] {
      var init := ts[..|ts| - 1];
      MemRefMembership(init);
      assert forall j :: 0 <= j < |init| ==> init[j] == ts[j];
    }
  }

  lemma {:induction false} OtherMembership(ts: seq<Type>)
    ensures forall j :: 0 <= j < |ts| ==> (j in OtherIndices(ts) <==> !ts[j].MemRefTy?)
  {
    if ts != [] {
      var init := ts[..|ts| - 1];
      OtherMembership(init);
      assert forall j :: 0 <= j < |init| ==> init[j] == ts[j];
    }
  }

  /** Partitioning values partitions their types the same way. */
  lemma {:induction false} ValuePartitionTypes(vs: seq<Value>)
    ensures TypesOf(MemRefValues(vs)) == MemRefTypes(TypesOf(vs))
    ensures TypesOf(OtherValues(vs)) == OtherTypes(TypesOf(vs))
  {
    if vs != [] {
      var init := vs[..|vs| - 1];
      ValuePartitionTypes(init);
      assert TypesOf(vs)[..|vs| - 1] == TypesOf(init);
    }
  }

  /** The partitioned values sit at the positions the partition of their types gives. */
  lemma {:induction false} ValuePartitionIndices(vs: seq<Value>)
    ensures |MemRefValues(vs)| == |MemRefIndices(TypesOf(vs))| && |OtherValues(vs)| == |OtherIndices(TypesOf(vs))|
    ensures forall k :: 0 <= k < |MemRefValues(vs)| ==> MemRefValues(vs)[k] == vs[MemRefIndices(TypesOf(vs))[k]]
    ensures forall k :: 0 <= k < |OtherValues(vs)| ==> OtherValues(vs)[k] == vs[OtherIndices(TypesOf(vs))[k]]
  {
    if vs != [] {
      var init := vs[..|vs| - 1];
      ValuePartitionIndices(init);
      assert TypesOf(vs)[..|vs| - 1] == TypesOf(init);
      assert forall j :: 0 <= j < |init| ==> init[j] == vs[j];
    }
  }

  /** The partitioned values are values of the list. */
  lemma {:induction false} MemRefValuesFrom(vs: seq<Value>)
    ensures forall v :: v in MemRefValues(vs) ==> v in vs
  {
    if vs != [] {
      MemRefValuesFrom(vs[..|vs| - 1]);
    }
  }

  /** A memref-free list is kept whole, and a list of memrefs only is moved whole. */
  lemma PartitionOfUniformLists(ts: seq<Type>)
    ensures (forall i :: 0 <= i < |ts| ==> !ts[i].MemRefTy?) ==> OtherTypes(ts) == ts && MemRefTypes(ts) == []
    ensures (forall i :: 0 <= i < |ts| ==> ts[i].MemRefTy?) ==> MemRefTypes(ts) == ts && OtherTypes(ts) == []
  {
    if forall i :: 0 <= i < |ts| ==> !ts[i].MemRefTy? {
      MemRefFreeKeptWhole(ts);
    }
    if forall i :: 0 <= i < |ts| ==> ts[i].MemRefTy? {
      MemRefsMovedWhole(ts);
    }
  }

  lemma {:induction false} MemRefFreeKeptWhole(ts: seq<Type>)
    requires forall i :: 0 <= i < |ts| ==> !ts[i].MemRefTy?
    ensures OtherTypes(ts) == ts && MemRefTypes(ts) == []
  {
    if ts != [] {
      var init := ts[..|ts| - 1];
      assert forall i :: 0 <= i < |init| ==> !init[i].MemRefTy?;
      MemRefFreeKeptWhole(init);
      assert init + [ts[|ts| - 1]] == ts;
    }
  }

  lemma {:induction false} MemRefsMovedWhole(ts: seq<Type>)
    requires forall i :: 0 <= i < |ts| ==> ts[i].MemRefTy?
    ensures MemRefTypes(ts) == ts && OtherTypes(ts) == []
  {
    if ts != [] {
      var init := ts[..|ts| - 1];
      assert forall i :: 0 <= i < |init| ==> init[i].MemRefTy?;
      MemRefsMovedWhole(init);
      assert init + [ts[|ts| - 1]] == ts;
    }
  }

  /** `llvm::zip`: pairs up to the shorter list. */
  function Zip<A, B>(a: seq<A>, b: seq<B>): (r: seq<(A, B)>)
    ensures |r| == (if |a| <= |b| then |a| else |b|)
    ensures forall i :: 0 <= i < |r| ==> r[i] == (a[i], b[i])
  {
    seq(if |a| <= |b| then |a| else |b|, i requires 0 <= i < |a| && i < |b| => (a[i], b[i]))
  }

  /** Zipping one more element onto the shorter list. */
  lemma ZipSnoc<A, B>(a: seq<A>, b: seq<B>, x: B)
    requires |b| < |a|
    ensures Zip(a, b + [x]) == Zip(a, b) + [(a[|b|], x)]
  {
  }

  lemma AppendAssoc<T>(a: seq<T>, b: seq<T>, c: seq<T>)
    ensures a + b + c == a + (b + c)
  {
  }

  // ---------------------------------------------------------------------------------
  // Functions
  // ---------------------------------------------------------------------------------

  const BufferizeResult: string := "bufferize.result"

  /** The attributes a moved result hands to its new argument. */
  function MarkedAttrs(d: AttrDict, addResultAttribute: bool): AttrDict {
    if addResultAttribute then d[BufferizeResult := UnitAttr] else d
  }

  /** The attributes of the appended arguments: those of the erased results, in order,
      marked when asked. */
  function MovedResultAttrs(results: seq<Type>, resultAttrs: seq<AttrDict>, addResultAttribute: bool): (r: seq<AttrDict>)
    requires |resultAttrs| == |results|
    ensures |r| == |MemRefTypes(results)|
  {
    var idx := MemRefIndices(results);
    seq(|idx|, k requires 0 <= k < |idx| => MarkedAttrs(resultAttrs[idx[k]], addResultAttribute))
  }

  /** The attributes of the kept results. */
  function KeptResultAttrs(results: seq<Type>, resultAttrs: seq<AttrDict>): (r: seq<AttrDict>)
    requires |resultAttrs| == |results|
    ensures |r| == |OtherTypes(results)|
  {
    Pick(resultAttrs, OtherIndices(results))
  }

  /** New values with consecutive identifiers from `start`. */
  function FreshValues(types: seq<Type>, start: nat): (r: seq<Value>)
    ensures |r| == |types| && TypesOf(r) == types
    ensures forall i :: 0 <= i < |r| ==> r[i].id == start + i
  {
    seq(|types|, i requires 0 <= i < |types| => Value(start + i, types[i]))
  }

  /** The state of a function the rewrite touches. */
  datatype FuncState = FuncState(inputs: seq<Type>, results: seq<Type>, argAttrs: seq<AttrDict>,
                                 resultAttrs: seq<AttrDict>, entryArgs: seq<Value>,
                                 returnOps: seq<seq<Value>>, copies: seq<(Value, Value)>)

  /** `func.func`: its signature with argument and result attributes, the entry-block
      arguments the rewrite appends (the arguments the block starts with are not tracked,
      so `entryArgs` starts empty), the operand lists of its `func.return` operations in walk order, and the
      copies into out-params inserted before them (source, target). */
  class FuncOp {
    const name: string
    const isExternal: bool
    var inputs: seq<Type>
    var results: seq<Type>
    var argAttrs: seq<AttrDict>
    var resultAttrs: seq<AttrDict>
    var entryArgs: seq<Value>
    var returnOps: seq<seq<Value>>
    var copies: seq<(Value, Value)>

    /** One attribute dictionary per argument and per result; an external function has no
        body. */
    ghost predicate Valid()
      reads this
    {
      |argAttrs| == |inputs| && |resultAttrs| == |results| && (isExternal ==> returnOps == [])
    }

    function State(): FuncState
      reads this
    {
      FuncState(inputs, results, argAttrs, resultAttrs, entryArgs, returnOps, copies)
    }

    constructor(name: string, isExternal: bool, inputs: seq<Type>, results: seq<Type>,
                argAttrs: seq<AttrDict>, resultAttrs: seq<AttrDict>, returnOps: seq<seq<Value>>)
      requires |argAttrs| == |inputs| && |resultAttrs| == |results| && (isExternal ==> returnOps == [])
      ensures Valid() && this.name == name && this.isExternal == isExternal
      ensures State() == FuncState(inputs, results, argAttrs, resultAttrs, [], returnOps, [])
    {
      this.name := name;
      this.isExternal := isExternal;
      this.inputs := inputs;
      this.results := results;
      this.argAttrs := argAttrs;
      this.resultAttrs := resultAttrs;
      this.entryArgs := [];
      this.returnOps := returnOps;
      this.copies := [];
    }
  }

  /** `func.call`: callee name, operands and results. */
  datatype CallOp = CallOp(callee: string, operands: seq<Value>, results: seq<Value>)

  /** The moduleOp: its functions, its calls in walk order, what the rewrite creates
      (allocations, casts), the use replacements it performs (old value, new value), and
      the supply of fresh value identifiers. */
  class ModuleOp {
    const funcs: seq<FuncOp>
    var calls: seq<CallOp>
    var allocations: seq<Value>
    var casts: seq<(Value, Value)>
    var replacements: seq<(Value, Value)>
    var nextValueId: nat

    /** Distinct function operations, each well formed. */
    ghost predicate Valid()
      reads this, funcs
    {
      (forall i, j :: 0 <= i < j < |funcs| ==> funcs[i] != funcs[j]) &&
      (forall i :: 0 <= i < |funcs| ==> funcs[i].Valid())
    }

    constructor(funcs: seq<FuncOp>, calls: seq<CallOp>, nextValueId: nat)
      ensures this.funcs == funcs && this.calls == calls && this.nextValueId == nextValueId
      ensures allocations == [] && casts == [] && replacements == []
    {
      this.funcs := funcs;
      this.calls := calls;
      this.allocations := [];
      this.casts := [];
      this.replacements := [];
      this.nextValueId := nextValueId;
    }

    /** A value with a fresh identifier. */
    method NewValue(ty: Type) returns (v: Value)
      modifies this`nextValueId
      ensures v == Value(old(nextValueId), ty) && nextValueId == old(nextValueId) + 1
    {
      v := Value(nextValueId, ty);
      nextValueId := nextValueId + 1;
    }
  }

  // ---------------------------------------------------------------------------------
  // updateFuncOp
  // ---------------------------------------------------------------------------------

  /** The first loop of `updateFuncOp`: collects the memref results and their positions,
      failing at the first memref result whose layout is unsupported. */
  method CollectErasedResults(results: seq<Type>) returns (ok: bool, erasedTypes: seq<Type>, erasedIndices: seq<nat>)
    ensures ok <==> AllSupported(results)
    ensures ok ==> erasedIndices == MemRefIndices(results) && erasedTypes == MemRefTypes(results)
  {
    erasedTypes, erasedIndices := [], [];
    var i := 0;
    while i < |results|
      invariant i <= |results|
      invariant forall j :: 0 <= j < i ==> Supported(results[j])
      invariant erasedIndices == MemRefIndices(results[..i])
      invariant erasedTypes == MemRefTypes(results[..i])
    {
      assert results[..i + 1][..i] == results[..i];
      var resultType := results[i];
      if resultType.MemRefTy? {
        var memrefType := resultType.memref;
        if !HasStaticIdentityLayout(memrefType) && !HasFullyDynamicLayoutMap(memrefType) {
          return false, [], [];
        }
        erasedIndices := erasedIndices + [i];
        erasedTypes := erasedTypes + [resultType];
      }
      i := i + 1;
    }
    assert results[..i] == results;
    ok := true;
  }

  /** The second loop of `updateFuncOp`: the `k`-th appended argument receives the
      attributes of the `k`-th erased result, marked when asked. */
  method TransferResultAttrs(func: FuncOp, numInputs: nat, erasedIndices: seq<nat>, addResultAttribute: bool)
    requires |func.argAttrs| == numInputs + |erasedIndices|
    requires forall k :: 0 <= k < |erasedIndices| ==> erasedIndices[k] < |func.resultAttrs|
    modifies func`argAttrs
    ensures |func.argAttrs| == numInputs + |erasedIndices|
    ensures func.argAttrs[..numInputs] == old(func.argAttrs[..numInputs])
    ensures forall k :: 0 <= k < |erasedIndices| ==>
              func.argAttrs[numInputs + k] == MarkedAttrs(func.resultAttrs[erasedIndices[k]], addResultAttribute)
  {
    var i := 0;
    while i < |erasedIndices|
      invariant i <= |erasedIndices| && |func.argAttrs| == numInputs + |erasedIndices|
      invariant func.argAttrs[..numInputs] == old(func.argAttrs[..numInputs])
      invariant forall k :: 0 <= k < i ==>
                  func.argAttrs[numInputs + k] == MarkedAttrs(func.resultAttrs[erasedIndices[k]], addResultAttribute)
    {
      func.argAttrs := func.argAttrs[numInputs + i := func.resultAttrs[erasedIndices[i]]];
      if addResultAttribute {
        func.argAttrs := func.argAttrs[numInputs + i := func.argAttrs[numInputs + i][BufferizeResult := UnitAttr]];
      }
      i := i + 1;
    }
  }

  /** The last loop of `updateFuncOp`: one new entry-block argument per erased result. */
  method AppendEntryArgs(func: FuncOp, moduleOp: ModuleOp, types: seq<Type>) returns (appended: seq<Value>)
    modifies func`entryArgs, moduleOp`nextValueId
    ensures appended == FreshValues(types, old(moduleOp.nextValueId))
    ensures func.entryArgs == old(func.entryArgs) + appended
    ensures moduleOp.nextValueId == old(moduleOp.nextValueId) + |types|
  {
    appended := [];
    var i := 0;
    while i < |types|
      invariant i <= |types|
      invariant appended == FreshValues(types[..i], old(moduleOp.nextValueId))
      invariant func.entryArgs == old(func.entryArgs) + appended
      invariant moduleOp.nextValueId == old(moduleOp.nextValueId) + i
    {
      var arg := moduleOp.NewValue(types[i]);
      appended := appended + [arg];
      func.entryArgs := func.entryArgs + [arg];
      i := i + 1;
    }
    assert types[..i] == types;
  }

  /** The attributes of the appended arguments: an empty dictionary each, then those of
      the erased results. */
  method MoveResultAttrs(func: FuncOp, erasedIndices: seq<nat>, addResultAttribute: bool)
    requires |func.resultAttrs| == |func.results| && erasedIndices == MemRefIndices(func.results)
    modifies func`argAttrs
    ensures func.argAttrs == old(func.argAttrs) + MovedResultAttrs(func.results, func.resultAttrs, addResultAttribute)
  {
    var numInputs := |func.argAttrs|;
    // Arguments without attributes have an empty dictionary.
    func.argAttrs := func.argAttrs + seq(|erasedIndices|, _ => map[]);
    TransferResultAttrs(func, numInputs, erasedIndices, addResultAttribute);
    ghost var moved := MovedResultAttrs(func.results, func.resultAttrs, addResultAttribute);
    assert func.argAttrs[numInputs..] == moved;
    assert func.argAttrs == func.argAttrs[..numInputs] + func.argAttrs[numInputs..];
  }

  /** `eraseResults`: the memref results go, with their attributes. */
  method EraseResults(func: FuncOp)
    requires |func.resultAttrs| == |func.results|
    modifies func`results, func`resultAttrs
    ensures func.resultAttrs == KeptResultAttrs(old(func.results), old(func.resultAttrs))
    ensures func.results == OtherTypes(old(func.results))
  {
    func.resultAttrs := Pick(func.resultAttrs, OtherIndices(func.results));
    func.results := OtherTypes(func.results);
  }

  /** `updateFuncOp`: fails, changing nothing, when a memref result has an unsupported
      layout. Otherwise the memref results become trailing inputs in order, carrying their
      attributes, the results shrink to the other results, and a function with a body gets
      one new entry argument per moved result, which is what it answers. */
  method UpdateFuncOp(func: FuncOp, moduleOp: ModuleOp, addResultAttribute: bool) returns (r: Result<seq<Value>>)
    requires func.Valid()
    modifies func`inputs, func`results, func`argAttrs, func`resultAttrs, func`entryArgs, moduleOp`nextValueId
    ensures r.Success? <==> AllSupported(old(func.results))
    ensures r.Failure? ==> func.State() == old(func.State()) && moduleOp.nextValueId == old(moduleOp.nextValueId)
    ensures r.Success? ==>
              func.inputs == old(func.inputs) + MemRefTypes(old(func.results)) &&
              func.results == OtherTypes(old(func.results)) &&
              func.argAttrs == old(func.argAttrs) + MovedResultAttrs(old(func.results), old(func.resultAttrs), addResultAttribute) &&
              func.resultAttrs == KeptResultAttrs(old(func.results), old(func.resultAttrs)) &&
              r.value == (if func.isExternal then [] else FreshValues(MemRefTypes(old(func.results)), old(moduleOp.nextValueId))) &&
              func.entryArgs == old(func.entryArgs) + r.value &&
              moduleOp.nextValueId == old(moduleOp.nextValueId) + |r.value|
    ensures func.Valid()
  {
    var ok, erasedResultTypes, erasedResultIndices := CollectErasedResults(func.results);
    if !ok {
      return Failure("cannot create out param for result with unsupported layout");
    }
    func.inputs := func.inputs + erasedResultTypes;
    MoveResultAttrs(func, erasedResultIndices, addResultAttribute);
    EraseResults(func);
    if func.isExternal {
      return Success([]);
    }
    var appended := AppendEntryArgs(func, moduleOp, erasedResultTypes);
    r := Success(appended);
  }

  // ---------------------------------------------------------------------------------
  // updateReturnOps
  // ---------------------------------------------------------------------------------

  /** The copies a return operation needs: its `i`-th memref operand into the `i`-th
      appended argument. */
  function ReturnCopies(operands: seq<Value>, appended: seq<Value>): seq<(Value, Value)> {
    Zip(MemRefValues(operands), appended)
  }

  /** Whether `memCpy` accepts every copy. */
  predicate CopiesAccepted(pairs: seq<(Value, Value)>, memCpy: (Value, Value) -> bool) {
    pairs == [] || (memCpy(pairs[0].0, pairs[0].1) && CopiesAccepted(pairs[1..], memCpy))
  }

  /** The copies inserted before the first one `memCpy` refuses. */
  function AcceptedCopies(pairs: seq<(Value, Value)>, memCpy: (Value, Value) -> bool): seq<(Value, Value)> {
    if pairs == [] || !memCpy(pairs[0].0, pairs[0].1) then []
    else [pairs[0]] + AcceptedCopies(pairs[1..], memCpy)
  }

  /** The copies inserted are the ones before the first refused copy, and they are all of
      them exactly when none is refused. */
  lemma {:induction false} AcceptedCopiesMeaning(pairs: seq<(Value, Value)>, memCpy: (Value, Value) -> bool)
    ensures var k := |AcceptedCopies(pairs, memCpy)|;
            k <= |pairs| && AcceptedCopies(pairs, memCpy) == pairs[..k] &&
            (forall j :: 0 <= j < k ==> memCpy(pairs[j].0, pairs[j].1)) &&
            (k < |pairs| ==> !memCpy(pairs[k].0, pairs[k].1))
    ensures CopiesAccepted(pairs, memCpy) <==> |AcceptedCopies(pairs, memCpy)| == |pairs|
  {
    if pairs != [] && memCpy(pairs[0].0, pairs[0].1) {
      var rest := pairs[1..];
      AcceptedCopiesMeaning(rest, memCpy);
      var k := |AcceptedCopies(rest, memCpy)|;
      assert pairs[..k + 1] == [pairs[0]] + rest[..k];
      assert forall j :: 1 <= j < k + 1 ==> pairs[j] == rest[j - 1];
    }
  }

  /** The copy loop of one return operation: copies in order until `memCpy` refuses one. */
  method CopyIntoOutParams(func: FuncOp, pairs: seq<(Value, Value)>, memCpy: (Value, Value) -> bool) returns (ok: bool)
    modifies func`copies
    ensures ok == CopiesAccepted(pairs, memCpy)
    ensures func.copies == old(func.copies) + AcceptedCopies(pairs, memCpy)
  {
    var i := 0;
    while i < |pairs|
      invariant i <= |pairs|
      invariant CopiesAccepted(pairs, memCpy) == CopiesAccepted(pairs[i..], memCpy)
      invariant old(func.copies) + AcceptedCopies(pairs, memCpy) == func.copies + AcceptedCopies(pairs[i..], memCpy)
    {
      var (orig, arg) := pairs[i];
      if !memCpy(orig, arg) {
        assert func.copies + [] == func.copies;
        return false;
      }
      assert pairs[i..][1..] == pairs[i + 1..];
      AppendAssoc(func.copies, [pairs[i]], AcceptedCopies(pairs[i + 1..], memCpy));
      func.copies := func.copies + [(orig, arg)];
      i := i + 1;
    }
    assert func.copies + [] == func.copies;
    ok := true;
  }

  /** Whether the copies of every return operation are all accepted. */
  predicate ReturnsCopied(returnOps: seq<seq<Value>>, appended: seq<Value>, memCpy: (Value, Value) -> bool) {
    returnOps == [] ||
    (CopiesAccepted(ReturnCopies(returnOps[0], appended), memCpy) && ReturnsCopied(returnOps[1..], appended, memCpy))
  }

  /** The operand lists of the return operations after `updateReturnOps`: up to the first
      return operation with a refused copy, each is rewritten to its non-memref operands;
      that one and the rest are as they were. */
  function RewrittenReturns(returnOps: seq<seq<Value>>, appended: seq<Value>, memCpy: (Value, Value) -> bool): (r: seq<seq<Value>>)
    ensures |r| == |returnOps|
  {
    if returnOps == [] then []
    else if !CopiesAccepted(ReturnCopies(returnOps[0], appended), memCpy) then returnOps
    else [OtherValues(returnOps[0])] + RewrittenReturns(returnOps[1..], appended, memCpy)
  }

  /** The copies `updateReturnOps` inserts: those of each return operation in turn, up to
      the first refused copy. */
  function InsertedCopies(returnOps: seq<seq<Value>>, appended: seq<Value>, memCpy: (Value, Value) -> bool): seq<(Value, Value)> {
    if returnOps == [] then []
    else
      var pairs := ReturnCopies(returnOps[0], appended);
      AcceptedCopies(pairs, memCpy) + (if CopiesAccepted(pairs, memCpy) then InsertedCopies(returnOps[1..], appended, memCpy) else [])
  }

  /** The position of the first return operation with a refused copy, or the number of
      return operations. */
  function FirstFailingReturn(returnOps: seq<seq<Value>>, appended: seq<Value>, memCpy: (Value, Value) -> bool): (k: nat)
    ensures k <= |returnOps|
  {
    if returnOps == [] || !CopiesAccepted(ReturnCopies(returnOps[0], appended), memCpy) then 0
    else 1 + FirstFailingReturn(returnOps[1..], appended, memCpy)
  }

  /** The operand lists of the replacing return operations: the non-memref operands. */
  function KeptOperands(returnOps: seq<seq<Value>>): (r: seq<seq<Value>>)
    ensures |r| == |returnOps| && forall i :: 0 <= i < |returnOps| ==> r[i] == OtherValues(returnOps[i])
  {
    seq(|returnOps|, i requires 0 <= i < |returnOps| => OtherValues(returnOps[i]))
  }

  /** The copies of all return operations, one after the other. */
  function AllReturnCopies(returnOps: seq<seq<Value>>, appended: seq<Value>): seq<(Value, Value)> {
    if returnOps == [] then [] else ReturnCopies(returnOps[0], appended) + AllReturnCopies(returnOps[1..], appended)
  }

  /** The walk over the return operations stops at the first one with a refused copy,
      and succeeds exactly when it reaches the end. */
  lemma {:induction false} FirstFailingReturnMeaning(returnOps: seq<seq<Value>>, appended: seq<Value>, memCpy: (Value, Value) -> bool)
    ensures var k := FirstFailingReturn(returnOps, appended, memCpy);
            (ReturnsCopied(returnOps, appended, memCpy) <==> k == |returnOps|) &&
            (forall j :: 0 <= j < k ==> CopiesAccepted(ReturnCopies(returnOps[j], appended), memCpy)) &&
            (k < |returnOps| ==> !CopiesAccepted(ReturnCopies(returnOps[k], appended), memCpy))
  {
    if returnOps != [] && CopiesAccepted(ReturnCopies(returnOps[0], appended), memCpy) {
      var rest := returnOps[1..];
      FirstFailingReturnMeaning(rest, appended, memCpy);
      assert forall j :: 1 <= j < |returnOps| ==> returnOps[j] == rest[j - 1];
    }
  }

  /** Every return operation before the first one with a refused copy is rewritten to
      its non-memref operands; it and the ones after it keep their operands. */
  lemma {:induction false} RewrittenReturnAt(returnOps: seq<seq<Value>>, appended: seq<Value>, memCpy: (Value, Value) -> bool, j: nat)
    requires j < |returnOps|
    ensures RewrittenReturns(returnOps, appended, memCpy)[j] ==
              if j < FirstFailingReturn(returnOps, appended, memCpy) then OtherValues(returnOps[j]) else returnOps[j]
  {
    if j > 0 && CopiesAccepted(ReturnCopies(returnOps[0], appended), memCpy) {
      RewrittenReturnAt(returnOps[1..], appended, memCpy, j - 1);
    }
  }

  /** When the walk succeeds every return operation returns exactly its non-memref
      operands and every copy of every return operation is inserted, in order. */
  lemma {:induction false} SuccessfulReturnRewrite(returnOps: seq<seq<Value>>, appended: seq<Value>, memCpy: (Value, Value) -> bool)
    requires ReturnsCopied(returnOps, appended, memCpy)
    ensures RewrittenReturns(returnOps, appended, memCpy) == KeptOperands(returnOps)
    ensures InsertedCopies(returnOps, appended, memCpy) == AllReturnCopies(returnOps, appended)
  {
    if returnOps != [] {
      var rest := returnOps[1..];
      SuccessfulReturnRewrite(rest, appended, memCpy);
      var pairs := ReturnCopies(returnOps[0], appended);
      AcceptedCopiesMeaning(pairs, memCpy);
      assert pairs[..|pairs|] == pairs;
      assert KeptOperands(returnOps) == [OtherValues(returnOps[0])] + KeptOperands(rest);
    }
  }

  /** After a rewrite the `i`-th copy of a return operation goes from its `i`-th memref
      operand, which sits where the partition of the operand types puts it, into the
      `i`-th appended argument; the replacing return operation has the non-memref operand
      types. */
  lemma ReturnRewriteMeaning(operands: seq<Value>, appended: seq<Value>, i: nat)
    requires i < |MemRefValues(operands)| && i < |appended|
    ensures ReturnCopies(operands, appended)[i] == (MemRefValues(operands)[i], appended[i])
    ensures var idx := MemRefIndices(TypesOf(operands));
            i < |idx| && MemRefValues(operands)[i] == operands[idx[i]]
    ensures TypesOf(OtherValues(operands)) == OtherTypes(TypesOf(operands))
  {
    ValuePartitionIndices(operands);
    ValuePartitionTypes(operands);
  }

  /** One step of `updateReturnOps`: the copies of return operation `i`, and when they all
      succeed its replacement by a return of the non-memref operands. */
  method RewriteReturn(func: FuncOp, i: nat, appended: seq<Value>, memCpy: (Value, Value) -> bool) returns (ok: bool)
    requires i < |func.returnOps|
    modifies func`returnOps, func`copies
    ensures var operands := old(func.returnOps[i]);
            var pairs := ReturnCopies(operands, appended);
            ok == CopiesAccepted(pairs, memCpy) &&
            func.returnOps == (if ok then old(func.returnOps)[i := OtherValues(operands)] else old(func.returnOps)) &&
            func.copies == old(func.copies) + AcceptedCopies(pairs, memCpy)
  {
    var operands := func.returnOps[i];
    var copyIntoOutParams := MemRefValues(operands);
    var keepAsReturnOperands := OtherValues(operands);
    ok := CopyIntoOutParams(func, Zip(copyIntoOutParams, appended), memCpy);
    if ok {
      func.returnOps := func.returnOps[i := keepAsReturnOperands];
    }
  }

  /** The walk from return operation `i` on: it ends there when a copy of `i` is refused,
      else it goes on with `i + 1`. */
  lemma ReturnsAt(returnOps: seq<seq<Value>>, i: nat, appended: seq<Value>, memCpy: (Value, Value) -> bool)
    requires i < |returnOps|
    ensures var rest := returnOps[i..];
            var pairs := ReturnCopies(returnOps[i], appended);
            rest[1..] == returnOps[i + 1..] &&
            if CopiesAccepted(pairs, memCpy) then
              RewrittenReturns(rest, appended, memCpy) == [OtherValues(returnOps[i])] + RewrittenReturns(returnOps[i + 1..], appended, memCpy) &&
              ReturnsCopied(rest, appended, memCpy) == ReturnsCopied(returnOps[i + 1..], appended, memCpy) &&
              InsertedCopies(rest, appended, memCpy) == AcceptedCopies(pairs, memCpy) + InsertedCopies(returnOps[i + 1..], appended, memCpy)
            else
              RewrittenReturns(rest, appended, memCpy) == rest && !ReturnsCopied(rest, appended, memCpy) &&
              InsertedCopies(rest, appended, memCpy) == AcceptedCopies(pairs, memCpy)
  {
    var rest := returnOps[i..];
    assert rest[0] == returnOps[i] && rest[1..] == returnOps[i + 1..];
    var pairs := ReturnCopies(returnOps[i], appended);
    assert AcceptedCopies(pairs, memCpy) + [] == AcceptedCopies(pairs, memCpy);
  }

  /** Replacing the element right after a prefix. */
  lemma ReplaceAfter<T>(prefix: seq<T>, rest: seq<T>, x: T)
    requires rest != []
    ensures (prefix + rest)[|prefix| := x] == prefix + [x] + rest[1..]
  {
  }

  /** One step of the walk of `updateReturnOps`, as the loop's invariants see it. */
  lemma ReturnsStep(returns0: seq<seq<Value>>, i: nat, kept: seq<seq<Value>>, done: seq<(Value, Value)>,
                    appended: seq<Value>, memCpy: (Value, Value) -> bool)
    requires i < |returns0|
    requires RewrittenReturns(returns0, appended, memCpy) == kept + RewrittenReturns(returns0[i..], appended, memCpy)
    requires ReturnsCopied(returns0, appended, memCpy) == ReturnsCopied(returns0[i..], appended, memCpy)
    requires InsertedCopies(returns0, appended, memCpy) == done + InsertedCopies(returns0[i..], appended, memCpy)
    ensures var pairs := ReturnCopies(returns0[i], appended);
            var accepted := AcceptedCopies(pairs, memCpy);
            if CopiesAccepted(pairs, memCpy) then
              RewrittenReturns(returns0, appended, memCpy) ==
                (kept + [OtherValues(returns0[i])]) + RewrittenReturns(returns0[i + 1..], appended, memCpy) &&
              ReturnsCopied(returns0, appended, memCpy) == ReturnsCopied(returns0[i + 1..], appended, memCpy) &&
              InsertedCopies(returns0, appended, memCpy) == (done + accepted) + InsertedCopies(returns0[i + 1..], appended, memCpy)
            else
              RewrittenReturns(returns0, appended, memCpy) == kept + returns0[i..] &&
              !ReturnsCopied(returns0, appended, memCpy) &&
              InsertedCopies(returns0, appended, memCpy) == done + accepted
  {
    ReturnsAt(returns0, i, appended, memCpy);
    var pairs := ReturnCopies(returns0[i], appended);
    var accepted := AcceptedCopies(pairs, memCpy);
    if CopiesAccepted(pairs, memCpy) {
      AppendAssoc(kept, [OtherValues(returns0[i])], RewrittenReturns(returns0[i + 1..], appended, memCpy));
      AppendAssoc(done, accepted, InsertedCopies(returns0[i + 1..], appended, memCpy));
    }
  }

  /** The state of the walk of `updateReturnOps` after the first `i` return operations:
      those are rewritten (`kept`) and their copies inserted (`done`), the others are as
      they were, and the rest of the walk accounts for the remainder of the outcome. */
  ghost predicate ReturnsWalked(returns0: seq<seq<Value>>, returnOps: seq<seq<Value>>,
                                copies0: seq<(Value, Value)>, copies: seq<(Value, Value)>,
                                i: nat, kept: seq<seq<Value>>, done: seq<(Value, Value)>,
                                appended: seq<Value>, memCpy: (Value, Value) -> bool) {
    i <= |returns0| && |kept| == i && returnOps == kept + returns0[i..] &&
    RewrittenReturns(returns0, appended, memCpy) == kept + RewrittenReturns(returns0[i..], appended, memCpy) &&
    ReturnsCopied(returns0, appended, memCpy) == ReturnsCopied(returns0[i..], appended, memCpy) &&
    copies == copies0 + done &&
    InsertedCopies(returns0, appended, memCpy) == done + InsertedCopies(returns0[i..], appended, memCpy)
  }

  /** The rewrite of return operation `i` either extends the walked prefix by one or ends
      the walk with its outcome. */
  lemma ReturnWalkStep(returns0: seq<seq<Value>>, returnOps: seq<seq<Value>>, returnOps': seq<seq<Value>>,
                       copies0: seq<(Value, Value)>, copies: seq<(Value, Value)>, copies': seq<(Value, Value)>,
                       i: nat, kept: seq<seq<Value>>, done: seq<(Value, Value)>,
                       appended: seq<Value>, memCpy: (Value, Value) -> bool, ok: bool)
    requires ReturnsWalked(returns0, returnOps, copies0, copies, i, kept, done, appended, memCpy)
    requires i < |returnOps|
    requires var pairs := ReturnCopies(returnOps[i], appended);
             ok == CopiesAccepted(pairs, memCpy) &&
             returnOps' == (if ok then returnOps[i := OtherValues(returnOps[i])] else returnOps) &&
             copies' == copies + AcceptedCopies(pairs, memCpy)
    ensures i < |returns0|
    ensures ok ==> ReturnsWalked(returns0, returnOps', copies0, copies', i + 1, kept + [OtherValues(returns0[i])],
                                 done + AcceptedCopies(ReturnCopies(returns0[i], appended), memCpy), appended, memCpy)
    ensures !ok ==> !ReturnsCopied(returns0, appended, memCpy) &&
                    returnOps' == RewrittenReturns(returns0, appended, memCpy) &&
                    copies' == copies0 + InsertedCopies(returns0, appended, memCpy)
  {
    var rest := returns0[i..];
    assert returnOps[i] == rest[0] == returns0[i];
    ReturnsStep(returns0, i, kept, done, appended, memCpy);
    var accepted := AcceptedCopies(ReturnCopies(returns0[i], appended), memCpy);
    AppendAssoc(copies0, done, accepted);
    if ok {
      ReplaceAfter(kept, rest, OtherValues(rest[0]));
      assert rest[1..] == returns0[i + 1..];
    }
  }

  /** A walk that reached the end succeeded, rewrote every return operation and inserted
      all their copies. */
  lemma ReturnsWalkedAll(returns0: seq<seq<Value>>, returnOps: seq<seq<Value>>,
                         copies0: seq<(Value, Value)>, copies: seq<(Value, Value)>,
                         kept: seq<seq<Value>>, done: seq<(Value, Value)>,
                         appended: seq<Value>, memCpy: (Value, Value) -> bool)
    requires ReturnsWalked(returns0, returnOps, copies0, copies, |returnOps|, kept, done, appended, memCpy)
    ensures ReturnsCopied(returns0, appended, memCpy)
    ensures returnOps == RewrittenReturns(returns0, appended, memCpy)
    ensures copies == copies0 + InsertedCopies(returns0, appended, memCpy)
  {
    assert returns0[|returnOps|..] == [];
    assert kept + [] == kept && done + [] == done;
  }

  /** `updateReturnOps`: every return operation, in walk order, copies its memref operands
      into the appended arguments and is replaced by one returning the other operands;
      the walk stops at the first refused copy. */
  method UpdateReturnOps(func: FuncOp, appended: seq<Value>, memCpy: (Value, Value) -> bool) returns (ok: bool)
    modifies func`returnOps, func`copies
    ensures ok == ReturnsCopied(old(func.returnOps), appended, memCpy)
    ensures func.returnOps == RewrittenReturns(old(func.returnOps), appended, memCpy)
    ensures func.copies == old(func.copies) + InsertedCopies(old(func.returnOps), appended, memCpy)
  {
    ghost var returns0 := func.returnOps;
    ghost var kept: seq<seq<Value>> := [];
    ghost var done: seq<(Value, Value)> := [];
    var i := 0;
    while i < |func.returnOps|
      invariant ReturnsWalked(returns0, func.returnOps, old(func.copies), func.copies, i, kept, done, appended, memCpy)
    {
      ghost var returnOps := func.returnOps;
      ghost var copies := func.copies;
      var rewritten := RewriteReturn(func, i, appended, memCpy);
      ReturnWalkStep(returns0, returnOps, func.returnOps, old(func.copies), copies, func.copies,
                     i, kept, done, appended, memCpy, rewritten);
      if !rewritten {
        return false;
      }
      kept := kept + [OtherValues(returns0[i])];
      done := done + AcceptedCopies(ReturnCopies(returns0[i], appended), memCpy);
      i := i + 1;
    }
    ReturnsWalkedAll(returns0, func.returnOps, old(func.copies), func.copies, kept, done, appended, memCpy);
    ok := true;
  }

  // ---------------------------------------------------------------------------------
  // updateCalls
  // ---------------------------------------------------------------------------------

  /** `SymbolTable::lookup<func::FuncOp>`: the function of that name. */
  function LookupFunc(funcs: seq<FuncOp>, name: string): (r: Option<FuncOp>)
    ensures r.Some? ==> r.value in funcs && r.value.name == name
    ensures r.None? ==> forall i :: 0 <= i < |funcs| ==> funcs[i].name != name
  {
    if funcs == [] then None
    else if funcs[0].name == name then Some(funcs[0])
    else LookupFunc(funcs[1..], name)
  }

  /** The buffer type allocated for an out-param: the result's shape, element type and
      memory space with the identity layout. */
  function AllocType(m: MemRef): Type {
    MemRefTy(MemRef(m.shape, m.elementType, IdentityLayout, m.memorySpace))
  }

  /** An out-param can be created for a memref result when its shape is static and the
      allocation callback accepts the buffer type. */
  predicate Allocatable(v: Value, allocate: Type -> bool) {
    v.ty.MemRefTy? && HasStaticShape(v.ty.memref) && allocate(AllocType(v.ty.memref))
  }

  /** Whether an out-param can be made for every memref result. */
  predicate AllAllocatable(memrefs: seq<Value>, allocate: Type -> bool) {
    forall j :: 0 <= j < |memrefs| ==> Allocatable(memrefs[j], allocate)
  }

  /** What the memref loop of a call's update creates: the out-params, the allocated
      buffers, the casts (buffer, out-param), and the next free value identifier. */
  datatype Created = Created(outParams: seq<Value>, allocations: seq<Value>, casts: seq<(Value, Value)>, next: nat)

  /** One after the other. */
  function Join(a: Created, b: Created): Created {
    Created(a.outParams + b.outParams, a.allocations + b.allocations, a.casts + b.casts, b.next)
  }

  /** The out-param of one memref result, from identifier `start`: the buffer itself when
      the result has the identity layout, else a cast of it to the result's type. */
  function OneOutParam(memref: Value, start: nat): Created
    requires memref.ty.MemRefTy?
  {
    var buffer := Value(start, AllocType(memref.ty.memref));
    if HasStaticIdentityLayout(memref.ty.memref) then Created([buffer], [buffer], [], start + 1)
    else
      var outParam := Value(start + 1, memref.ty);
      Created([outParam], [buffer], [(buffer, outParam)], start + 2)
  }

  /** The out-params of the memref results from identifier `start`, in order, up to the
      first result for which none can be made. */
  function CreatedOutParams(memrefs: seq<Value>, allocate: Type -> bool, start: nat): Created {
    if memrefs == [] || !Allocatable(memrefs[0], allocate) then Created([], [], [], start)
    else
      var one := OneOutParam(memrefs[0], start);
      Join(one, CreatedOutParams(memrefs[1..], allocate, one.next))
  }

  /** What a call's out-params are: one per memref result, of its very type; each is the
      allocated buffer itself when the result has the identity layout, else a cast of the
      buffer. */
  predicate OutParamsFor(memrefs: seq<Value>, outParams: seq<Value>, allocations: seq<Value>, casts: seq<(Value, Value)>) {
    |outParams| <= |memrefs| && |allocations| == |outParams| &&
    forall j :: 0 <= j < |outParams| ==>
      outParams[j].ty == memrefs[j].ty &&
      memrefs[j].ty.MemRefTy? && allocations[j].ty == AllocType(memrefs[j].ty.memref) &&
      (if HasStaticIdentityLayout(memrefs[j].ty.memref) then outParams[j] == allocations[j]
       else (allocations[j], outParams[j]) in casts)
  }

  /** Values with fresh identifiers, from `start` up to `end`, in ascending order. */
  predicate FreshIds(vs: seq<Value>, start: nat, end: nat) {
    (forall j :: 0 <= j < |vs| ==> start <= vs[j].id < end) &&
    (forall j, l :: 0 <= j < l < |vs| ==> vs[j].id < vs[l].id)
  }

  /** The memref loop stops at the first result with a dynamic shape or a refused
      allocation, and succeeds exactly when every result can have an out-param. */
  lemma {:induction false} CreatedOutParamsCount(memrefs: seq<Value>, allocate: Type -> bool, start: nat)
    ensures var k := |CreatedOutParams(memrefs, allocate, start).outParams|;
            k <= |memrefs| && (forall j :: 0 <= j < k ==> Allocatable(memrefs[j], allocate)) &&
            (k < |memrefs| ==> !Allocatable(memrefs[k], allocate))
    ensures |CreatedOutParams(memrefs, allocate, start).outParams| == |memrefs| <==> AllAllocatable(memrefs, allocate)
  {
    if memrefs != [] && Allocatable(memrefs[0], allocate) {
      var rest := memrefs[1..];
      CreatedOutParamsCount(rest, allocate, OneOutParam(memrefs[0], start).next);
      assert forall j :: 1 <= j < |memrefs| ==> memrefs[j] == rest[j - 1];
    }
  }

  /** The `j`-th out-param made has the `j`-th memref result's type, and it is its buffer
      or a cast of it as the layout requires. */
  lemma {:induction false} CreatedOutParamAt(memrefs: seq<Value>, allocate: Type -> bool, start: nat, j: nat)
    requires j < |CreatedOutParams(memrefs, allocate, start).outParams|
    ensures var c := CreatedOutParams(memrefs, allocate, start);
            j < |memrefs| && j < |c.allocations| && c.outParams[j].ty == memrefs[j].ty &&
            memrefs[j].ty.MemRefTy? && c.allocations[j].ty == AllocType(memrefs[j].ty.memref) &&
            (if HasStaticIdentityLayout(memrefs[j].ty.memref) then c.outParams[j] == c.allocations[j]
             else (c.allocations[j], c.outParams[j]) in c.casts)
  {
    var one := OneOutParam(memrefs[0], start);
    var rest := CreatedOutParams(memrefs[1..], allocate, one.next);
    if j > 0 {
      CreatedOutParamAt(memrefs[1..], allocate, one.next, j - 1);
      assert memrefs[j] == memrefs[1..][j - 1];
    }
  }

  lemma {:induction false} CreatedLengths(memrefs: seq<Value>, allocate: Type -> bool, start: nat)
    ensures var c := CreatedOutParams(memrefs, allocate, start);
            |c.outParams| <= |memrefs| && |c.allocations| == |c.outParams|
  {
    if memrefs != [] && Allocatable(memrefs[0], allocate) {
      CreatedLengths(memrefs[1..], allocate, OneOutParam(memrefs[0], start).next);
    }
  }

  /** All out-params made are as `OutParamsFor` says. */
  lemma CreatedOutParamsTyped(memrefs: seq<Value>, allocate: Type -> bool, start: nat)
    ensures var c := CreatedOutParams(memrefs, allocate, start);
            OutParamsFor(memrefs, c.outParams, c.allocations, c.casts)
  {
    var c := CreatedOutParams(memrefs, allocate, start);
    CreatedLengths(memrefs, allocate, start);
    forall j | 0 <= j < |c.outParams|
      ensures c.outParams[j].ty == memrefs[j].ty &&
              memrefs[j].ty.MemRefTy? && c.allocations[j].ty == AllocType(memrefs[j].ty.memref) &&
              (if HasStaticIdentityLayout(memrefs[j].ty.memref) then c.outParams[j] == c.allocations[j]
               else (c.allocations[j], c.outParams[j]) in c.casts)
    {
      CreatedOutParamAt(memrefs, allocate, start, j);
    }
  }

  /** The out-params have fresh, ascending identifiers. */
  lemma {:induction false} CreatedOutParamsFresh(memrefs: seq<Value>, allocate: Type -> bool, start: nat)
    ensures var c := CreatedOutParams(memrefs, allocate, start);
            start <= c.next && FreshIds(c.outParams, start, c.next)
  {
    if memrefs != [] && Allocatable(memrefs[0], allocate) {
      var one := OneOutParam(memrefs[0], start);
      var rest := CreatedOutParams(memrefs[1..], allocate, one.next);
      CreatedOutParamsFresh(memrefs[1..], allocate, one.next);
      var c := Join(one, rest);
      assert forall j :: 1 <= j < |c.outParams| ==> c.outParams[j] == rest.outParams[j - 1];
    }
  }

  /** The memref loop of a call's update: allocates the out-params in order, replacing the
      uses of each memref result by its out-param, and stops at the first result that has
      a dynamic shape or whose allocation fails. */
  method CreateOutParams(moduleOp: ModuleOp, memrefs: seq<Value>, allocate: Type -> bool)
    returns (ok: bool, outParams: seq<Value>)
    requires forall j :: 0 <= j < |memrefs| ==> memrefs[j].ty.MemRefTy? && Supported(memrefs[j].ty)
    modifies moduleOp`allocations, moduleOp`casts, moduleOp`replacements, moduleOp`nextValueId
    ensures var c := CreatedOutParams(memrefs, allocate, old(moduleOp.nextValueId));
            (ok <==> |c.outParams| == |memrefs|) && outParams == c.outParams &&
            moduleOp.allocations == old(moduleOp.allocations) + c.allocations &&
            moduleOp.casts == old(moduleOp.casts) + c.casts && moduleOp.nextValueId == c.next &&
            moduleOp.replacements == old(moduleOp.replacements) + Zip(memrefs, outParams)
  {
    ghost var c0 := CreatedOutParams(memrefs, allocate, moduleOp.nextValueId);
    ghost var done := Created([], [], [], moduleOp.nextValueId);
    outParams := [];
    var i := 0;
    while i < |memrefs|
      invariant OutParamsMade(moduleOp, memrefs, allocate, i, outParams, done, c0,
                              old(moduleOp.allocations), old(moduleOp.casts), old(moduleOp.replacements))
    {
      var memref := memrefs[i];
      var memrefType := memref.ty.memref;
      if !HasStaticShape(memrefType) {
        OutParamsStopped(memrefs, i, allocate, done, c0, moduleOp.nextValueId);
        return false, outParams;
      }
      var allocType := AllocType(memrefType);
      if !allocate(allocType) {
        OutParamsStopped(memrefs, i, allocate, done, c0, moduleOp.nextValueId);
        return false, outParams;
      }
      var outParam;
      outParam, done := CreateNextOutParam(moduleOp, memrefs, i, allocate, allocType, outParams, done, c0,
                                           old(moduleOp.allocations), old(moduleOp.casts), old(moduleOp.replacements));
      outParams := outParams + [outParam];
      i := i + 1;
    }
    assert memrefs[i..] == [];
    JoinEmpty(done, moduleOp.nextValueId);
    ok := true;
  }

  /** The state of the memref loop after the first `i` results, whose out-params are
      `outParams`: `done` is what was created for them, and what the whole loop creates
      (`c0`) is `done` followed by what the remaining results give. */
  ghost predicate OutParamsMade(moduleOp: ModuleOp, memrefs: seq<Value>, allocate: Type -> bool, i: nat,
                                outParams: seq<Value>, done: Created, c0: Created,
                                allocations0: seq<Value>, casts0: seq<(Value, Value)>, replacements0: seq<(Value, Value)>)
    reads moduleOp
  {
    i <= |memrefs| && |outParams| == i && done.outParams == outParams &&
    c0 == Join(done, CreatedOutParams(memrefs[i..], allocate, moduleOp.nextValueId)) &&
    moduleOp.allocations == allocations0 + done.allocations &&
    moduleOp.casts == casts0 + done.casts &&
    moduleOp.replacements == replacements0 + Zip(memrefs, outParams)
  }

  /** The memref loop stops at result `i`, which cannot have an out-param: what it created
      so far is all it creates. */
  lemma OutParamsStopped(memrefs: seq<Value>, i: nat, allocate: Type -> bool, done: Created, c0: Created, next: nat)
    requires i < |memrefs| && !Allocatable(memrefs[i], allocate)
    requires c0 == Join(done, CreatedOutParams(memrefs[i..], allocate, next))
    ensures c0 == done.(next := next)
  {
    CreatedAt(memrefs, i, allocate, next);
    JoinEmpty(done, next);
  }

  /** One step of the memref loop: the out-param of result `i`, which replaces the
      result's uses. */
  method CreateNextOutParam(moduleOp: ModuleOp, memrefs: seq<Value>, i: nat, allocate: Type -> bool, allocType: Type,
                            outParams: seq<Value>, ghost done: Created, ghost c0: Created,
                            ghost allocations0: seq<Value>, ghost casts0: seq<(Value, Value)>,
                            ghost replacements0: seq<(Value, Value)>)
    returns (outParam: Value, ghost done': Created)
    requires i < |memrefs| && memrefs[i].ty.MemRefTy? && Supported(memrefs[i].ty)
    requires Allocatable(memrefs[i], allocate) && allocType == AllocType(memrefs[i].ty.memref)
    requires OutParamsMade(moduleOp, memrefs, allocate, i, outParams, done, c0, allocations0, casts0, replacements0)
    modifies moduleOp`allocations, moduleOp`casts, moduleOp`replacements, moduleOp`nextValueId
    ensures OutParamsMade(moduleOp, memrefs, allocate, i + 1, outParams + [outParam], done', c0,
                          allocations0, casts0, replacements0)
  {
    var memref := memrefs[i];
    CreatedAt(memrefs, i, allocate, moduleOp.nextValueId);
    ghost var one := OneOutParam(memref, moduleOp.nextValueId);
    outParam := NewOutParam(moduleOp, memref, allocType);
    moduleOp.replacements := moduleOp.replacements + [(memref, outParam)];
    ZipSnoc(memrefs, outParams, outParam);
    JoinAssoc(done, one, CreatedOutParams(memrefs[i + 1..], allocate, one.next));
    AppendAssoc(allocations0, done.allocations, one.allocations);
    AppendAssoc(casts0, done.casts, one.casts);
    done' := Join(done, one);
  }

  /** The out-params from result `i` on: none when result `i` cannot have one, else its
      own followed by those of the results after it. */
  lemma CreatedAt(memrefs: seq<Value>, i: nat, allocate: Type -> bool, start: nat)
    requires i < |memrefs|
    ensures var c := CreatedOutParams(memrefs[i..], allocate, start);
            if Allocatable(memrefs[i], allocate) then
              var one := OneOutParam(memrefs[i], start);
              c == Join(one, CreatedOutParams(memrefs[i + 1..], allocate, one.next))
            else c == Created([], [], [], start)
  {
    assert memrefs[i..][0] == memrefs[i] && memrefs[i..][1..] == memrefs[i + 1..];
  }

  lemma JoinEmpty(a: Created, next: nat)
    ensures Join(a, Created([], [], [], next)) == a.(next := next)
  {
    assert a.outParams + [] == a.outParams && a.allocations + [] == a.allocations && a.casts + [] == a.casts;
  }

  lemma JoinAssoc(a: Created, b: Created, c: Created)
    ensures Join(Join(a, b), c) == Join(a, Join(b, c))
  {
    AppendAssoc(a.outParams, b.outParams, c.outParams);
    AppendAssoc(a.allocations, b.allocations, c.allocations);
    AppendAssoc(a.casts, b.casts, c.casts);
  }

  /** One out-param: the allocated buffer, cast to the result's type when the result does
      not have the identity layout. */
  method NewOutParam(moduleOp: ModuleOp, memref: Value, allocType: Type) returns (outParam: Value)
    requires memref.ty.MemRefTy? && Supported(memref.ty) && allocType == AllocType(memref.ty.memref)
    modifies moduleOp`allocations, moduleOp`casts, moduleOp`nextValueId
    ensures var one := OneOutParam(memref, old(moduleOp.nextValueId));
            [outParam] == one.outParams && moduleOp.allocations == old(moduleOp.allocations) + one.allocations &&
            moduleOp.casts == old(moduleOp.casts) + one.casts && moduleOp.nextValueId == one.next
  {
    var buffer := moduleOp.NewValue(allocType);
    moduleOp.allocations := moduleOp.allocations + [buffer];
    outParam := buffer;
    if !HasStaticIdentityLayout(memref.ty.memref) {
      // Layouts were checked when the callee was updated: the layout is fully dynamic.
      outParam := moduleOp.NewValue(memref.ty);
      moduleOp.casts := moduleOp.casts + [(buffer, outParam)];
    } else {
      assert moduleOp.casts + [] == moduleOp.casts;
    }
  }

  /** A call is left alone when its callee is not a function or is filtered out. */
  predicate CallSelected(call: CallOp, funcs: seq<FuncOp>, filter: string -> bool) {
    LookupFunc(funcs, call.callee).Some? && filter(call.callee)
  }

  /** A call's update succeeds when its callee exists and, when selected, an out-param can
      be made for each of its memref results. */
  predicate CallSucceeds(call: CallOp, funcs: seq<FuncOp>, filter: string -> bool, allocate: Type -> bool) {
    LookupFunc(funcs, call.callee).Some? &&
    (filter(call.callee) ==>
       AllAllocatable(MemRefValues(call.results), allocate))
  }

  /** The rewritten call: same callee; the old operands followed by one out-param per memref
      result, of that result's type; one result per other result, of its type. */
  predicate CallRewritten(call: CallOp, newCall: CallOp) {
    newCall.callee == call.callee &&
    |newCall.operands| == |call.operands| + |MemRefValues(call.results)| &&
    newCall.operands[..|call.operands|] == call.operands &&
    TypesOf(newCall.operands[|call.operands|..]) == TypesOf(MemRefValues(call.results)) &&
    TypesOf(newCall.results) == TypesOf(OtherValues(call.results))
  }

  /** The use replacements of a rewritten call: each memref result by its out-param, each
      other result by the new call's result. */
  function CallReplacements(call: CallOp, newCall: CallOp): seq<(Value, Value)>
    requires |newCall.operands| >= |call.operands|
  {
    Zip(MemRefValues(call.results), newCall.operands[|call.operands|..]) + Zip(OtherValues(call.results), newCall.results)
  }

  /** The call replacing `call` when its out-params are made from identifier `start`: the
      same callee, the old operands followed by the out-params, and fresh results for the
      non-memref results. */
  function RewrittenCall(call: CallOp, allocate: Type -> bool, start: nat): CallOp {
    var c := CreatedOutParams(MemRefValues(call.results), allocate, start);
    CallOp(call.callee, call.operands + c.outParams, FreshValues(TypesOf(OtherValues(call.results)), c.next))
  }

  /** A call whose memref results can all have out-params is replaced by a call of the same
      callee taking one extra operand of each memref result's type and returning the other
      results' types; the use replacements map the memref results to the extra operands
      and the other results to the new results. */
  lemma RewrittenCallMeaning(call: CallOp, allocate: Type -> bool, start: nat)
    requires AllAllocatable(MemRefValues(call.results), allocate)
    ensures CallRewritten(call, RewrittenCall(call, allocate, start))
    ensures var c := CreatedOutParams(MemRefValues(call.results), allocate, start);
            CallReplacements(call, RewrittenCall(call, allocate, start)) ==
              Zip(MemRefValues(call.results), c.outParams) + Zip(OtherValues(call.results), RewrittenCall(call, allocate, start).results)
  {
    var memrefs := MemRefValues(call.results);
    var c := CreatedOutParams(memrefs, allocate, start);
    CreatedOutParamsCount(memrefs, allocate, start);
    CreatedOutParamsTyped(memrefs, allocate, start);
    assert TypesOf(c.outParams) == TypesOf(memrefs);
    assert (call.operands + c.outParams)[|call.operands|..] == c.outParams;
  }

  /** The update of one call, `calls[i]`: a call whose callee is missing fails, one whose
      callee is filtered out is kept, any other is rewritten unless an out-param cannot be
      made for it. */
  method UpdateCall(moduleOp: ModuleOp, i: nat, filter: string -> bool, allocate: Type -> bool) returns (ok: bool)
    requires i < |moduleOp.calls|
    requires CallSelected(moduleOp.calls[i], moduleOp.funcs, filter) ==>
               forall k :: 0 <= k < |moduleOp.calls[i].results| ==> Supported(moduleOp.calls[i].results[k].ty)
    modifies moduleOp`calls, moduleOp`allocations, moduleOp`casts, moduleOp`replacements, moduleOp`nextValueId
    ensures ok <==> CallSucceeds(old(moduleOp.calls[i]), moduleOp.funcs, filter, allocate)
    ensures if ok && CallSelected(old(moduleOp.calls[i]), moduleOp.funcs, filter) then
              var newCall := RewrittenCall(old(moduleOp.calls[i]), allocate, old(moduleOp.nextValueId));
              moduleOp.calls == old(moduleOp.calls)[i := newCall] &&
              moduleOp.replacements == old(moduleOp.replacements) + CallReplacements(old(moduleOp.calls[i]), newCall)
            else
              moduleOp.calls == old(moduleOp.calls) &&
              (ok ==> moduleOp.replacements == old(moduleOp.replacements))
    ensures |moduleOp.calls| == |old(moduleOp.calls)|
    ensures forall j :: 0 <= j < |moduleOp.calls| && j != i ==> moduleOp.calls[j] == old(moduleOp.calls)[j]
    ensures CallDone(old(moduleOp.calls[i]), moduleOp.calls[i], moduleOp.funcs, filter, allocate)
    ensures ok ==> moduleOp.replacements == old(moduleOp.replacements) +
                     StepReplacements(old(moduleOp.calls[i]), moduleOp.calls[i], moduleOp.funcs, filter, allocate)
  {
    var op := moduleOp.calls[i];
    var callee := LookupFunc(moduleOp.funcs, op.callee);
    if callee.None? {
      return false;
    }
    if !filter(op.callee) {
      return true;
    }
    ghost var next := moduleOp.nextValueId;
    ok := RewriteCall(moduleOp, i, allocate);
    if ok {
      RewrittenCallMeaning(op, allocate, next);
      assert moduleOp.calls[i] == RewrittenCall(op, allocate, next);
    }
  }

  /** The rewrite of a selected call: out-params for its memref results, then the
      replacing call. */
  method RewriteCall(moduleOp: ModuleOp, i: nat, allocate: Type -> bool) returns (ok: bool)
    requires i < |moduleOp.calls|
    requires forall k :: 0 <= k < |moduleOp.calls[i].results| ==> Supported(moduleOp.calls[i].results[k].ty)
    modifies moduleOp`calls, moduleOp`allocations, moduleOp`casts, moduleOp`replacements, moduleOp`nextValueId
    ensures ok <==> AllAllocatable(MemRefValues(old(moduleOp.calls[i].results)), allocate)
    ensures if ok then
              var newCall := RewrittenCall(old(moduleOp.calls[i]), allocate, old(moduleOp.nextValueId));
              moduleOp.calls == old(moduleOp.calls)[i := newCall] &&
              moduleOp.replacements == old(moduleOp.replacements) + CallReplacements(old(moduleOp.calls[i]), newCall)
            else
              moduleOp.calls == old(moduleOp.calls)
  {
    var op := moduleOp.calls[i];
    var replaceWithOutParams := MemRefValues(op.results);
    MemRefValuesFrom(op.results);
    forall j | 0 <= j < |replaceWithOutParams|
      ensures Supported(replaceWithOutParams[j].ty)
    {
      assert replaceWithOutParams[j] in op.results;
    }
    CreatedOutParamsCount(replaceWithOutParams, allocate, moduleOp.nextValueId);
    var created, outParams := CreateOutParams(moduleOp, replaceWithOutParams, allocate);
    if !created {
      return false;
    }
    ReplaceCall(moduleOp, i, outParams);
    RewrittenCallMeaning(op, allocate, old(moduleOp.nextValueId));
    AppendAssoc(old(moduleOp.replacements), Zip(replaceWithOutParams, outParams), Zip(OtherValues(op.results), moduleOp.calls[i].results));
    ok := true;
  }

  /** `func.call` with the out-params appended to the operands and results for the kept
      results only, replacing the old call and its kept results' uses. */
  method ReplaceCall(moduleOp: ModuleOp, i: nat, outParams: seq<Value>)
    requires i < |moduleOp.calls|
    modifies moduleOp`calls, moduleOp`replacements, moduleOp`nextValueId
    ensures var op := old(moduleOp.calls[i]);
            var newResults := FreshValues(TypesOf(OtherValues(op.results)), old(moduleOp.nextValueId));
            moduleOp.calls == old(moduleOp.calls)[i := CallOp(op.callee, op.operands + outParams, newResults)] &&
            moduleOp.replacements == old(moduleOp.replacements) + Zip(OtherValues(op.results), newResults)
  {
    var op := moduleOp.calls[i];
    var replaceWithNewCallResults := OtherValues(op.results);
    var newOperands := op.operands + outParams;
    var newResults := NewCallResults(moduleOp, replaceWithNewCallResults);
    moduleOp.replacements := moduleOp.replacements + Zip(replaceWithNewCallResults, newResults);
    moduleOp.calls := moduleOp.calls[i := CallOp(op.callee, newOperands, newResults)];
  }

  /** The results of the replacing call: fresh values of the kept results' types. */
  method NewCallResults(moduleOp: ModuleOp, kept: seq<Value>) returns (results: seq<Value>)
    modifies moduleOp`nextValueId
    ensures results == FreshValues(TypesOf(kept), old(moduleOp.nextValueId))
    ensures moduleOp.nextValueId == old(moduleOp.nextValueId) + |kept|
  {
    results := [];
    var i := 0;
    while i < |kept|
      invariant i <= |kept|
      invariant results == FreshValues(TypesOf(kept[..i]), old(moduleOp.nextValueId))
      invariant moduleOp.nextValueId == old(moduleOp.nextValueId) + i
    {
      var v := moduleOp.NewValue(kept[i].ty);
      results := results + [v];
      i := i + 1;
    }
    assert kept[..i] == kept;
  }

  /** The IR is well typed: a call to a function of the module has that function's result
      types as its own result types. */
  ghost predicate CallsTyped(calls: seq<CallOp>, funcs: seq<FuncOp>)
    reads funcs
  {
    CallsTypedBy(calls, funcs, ResultTypes(funcs))
  }

  /** The functions' current result types. */
  ghost function ResultTypes(funcs: seq<FuncOp>): seq<seq<Type>>
    reads funcs
    decreases |funcs|
  {
    if funcs == [] then [] else [funcs[0].results] + ResultTypes(funcs[1..])
  }

  lemma {:induction false} ResultTypesAt(funcs: seq<FuncOp>)
    ensures |ResultTypes(funcs)| == |funcs|
    ensures forall j :: 0 <= j < |funcs| ==> ResultTypes(funcs)[j] == funcs[j].results
    decreases |funcs|
  {
    if funcs != [] {
      ResultTypesAt(funcs[1..]);
    }
  }

  /** The calls are well typed against the result types `results`, one per function. */
  ghost predicate CallsTypedBy(calls: seq<CallOp>, funcs: seq<FuncOp>, results: seq<seq<Type>>) {
    |results| == |funcs| &&
    forall i, j :: 0 <= i < |calls| && 0 <= j < |funcs| && funcs[j].name == calls[i].callee ==>
      TypesOf(calls[i].results) == results[j]
  }

  /** The condition of the layout assertion in `updateCalls`: the results of every selected
      call have supported types, because its callee passed `updateFuncOp`. */
  ghost predicate SelectedCallsSupported(calls: seq<CallOp>, funcs: seq<FuncOp>, filter: string -> bool) {
    forall i, k :: 0 <= i < |calls| && CallSelected(calls[i], funcs, filter) && 0 <= k < |calls[i].results| ==>
      Supported(calls[i].results[k].ty)
  }

  /** The use replacements the update of `call` into `newCall` records: those of the
      rewrite when the call is selected and its update succeeds, none otherwise. */
  function StepReplacements(call: CallOp, newCall: CallOp, funcs: seq<FuncOp>, filter: string -> bool,
                            allocate: Type -> bool): seq<(Value, Value)> {
    if CallSucceeds(call, funcs, filter, allocate) && CallSelected(call, funcs, filter) &&
       |newCall.operands| >= |call.operands|
    then CallReplacements(call, newCall)
    else []
  }

  /** The use replacements of the first `n` call updates, in walk order. */
  function WalkReplacements(calls0: seq<CallOp>, calls: seq<CallOp>, n: nat, funcs: seq<FuncOp>,
                            filter: string -> bool, allocate: Type -> bool): seq<(Value, Value)>
    requires n <= |calls0| && n <= |calls|
  {
    if n == 0 then []
    else WalkReplacements(calls0, calls, n - 1, funcs, filter, allocate) +
         StepReplacements(calls0[n - 1], calls[n - 1], funcs, filter, allocate)
  }

  /** The replacements of the first `n` updates depend only on the first `n` calls. */
  lemma {:induction false} WalkReplacementsPrefix(calls0: seq<CallOp>, calls: seq<CallOp>, calls': seq<CallOp>, n: nat,
                                                  funcs: seq<FuncOp>, filter: string -> bool, allocate: Type -> bool)
    requires n <= |calls0| && n <= |calls| && n <= |calls'|
    requires forall j :: 0 <= j < n ==> calls[j] == calls'[j]
    ensures WalkReplacements(calls0, calls, n, funcs, filter, allocate) == WalkReplacements(calls0, calls', n, funcs, filter, allocate)
  {
    if n > 0 {
      WalkReplacementsPrefix(calls0, calls, calls', n - 1, funcs, filter, allocate);
    }
  }

  /** The next update adds its own replacements to those of the updates before it. */
  lemma WalkReplacementsStep(replacements0: seq<(Value, Value)>, replacements: seq<(Value, Value)>, replacements': seq<(Value, Value)>,
                             calls0: seq<CallOp>, before: seq<CallOp>, after: seq<CallOp>, i: nat,
                             funcs: seq<FuncOp>, filter: string -> bool, allocate: Type -> bool)
    requires i < |calls0| && i < |before| && i < |after|
    requires forall j :: 0 <= j < i ==> before[j] == after[j]
    requires replacements == replacements0 + WalkReplacements(calls0, before, i, funcs, filter, allocate)
    requires replacements' == replacements + StepReplacements(calls0[i], after[i], funcs, filter, allocate)
    ensures replacements' == replacements0 + WalkReplacements(calls0, after, i + 1, funcs, filter, allocate)
  {
    WalkReplacementsPrefix(calls0, before, after, i, funcs, filter, allocate);
    AppendAssoc(replacements0, WalkReplacements(calls0, before, i, funcs, filter, allocate),
                StepReplacements(calls0[i], after[i], funcs, filter, allocate));
  }

  /** What the call walk leaves of a call it has passed: a selected call whose update
      succeeded is the rewritten call made from some identifier on, any other is kept. */
  ghost predicate CallDone(call0: CallOp, call: CallOp, funcs: seq<FuncOp>, filter: string -> bool, allocate: Type -> bool) {
    if CallSucceeds(call0, funcs, filter, allocate) && CallSelected(call0, funcs, filter)
    then CallRewritten(call0, call) && exists s: nat :: call == RewrittenCall(call0, allocate, s)
    else call == call0
  }

  /** The state of the call walk after the first `i` updates: `failed` says whether one
      of them failed, each passed call is rewritten or kept, the calls after it are
      untouched and, while none failed, the use replacements are those of the passed
      calls in walk order. */
  ghost predicate CallsWalked(calls0: seq<CallOp>, calls: seq<CallOp>, i: nat, failed: bool,
                              replacements0: seq<(Value, Value)>, replacements: seq<(Value, Value)>,
                              funcs: seq<FuncOp>, filter: string -> bool, allocate: Type -> bool) {
    i <= |calls| == |calls0| &&
    (!failed <==> forall j :: 0 <= j < i ==> CallSucceeds(calls0[j], funcs, filter, allocate)) &&
    (forall j :: i <= j < |calls0| ==> calls[j] == calls0[j]) &&
    (forall j :: 0 <= j < i ==> CallDone(calls0[j], calls[j], funcs, filter, allocate)) &&
    (!failed ==> replacements == replacements0 + WalkReplacements(calls0, calls, i, funcs, filter, allocate))
  }

  /** Updating call `i` extends the walked prefix by one call. */
  lemma CallWalkStep(calls0: seq<CallOp>, before: seq<CallOp>, after: seq<CallOp>, i: nat,
                     failed: bool, updated: bool,
                     replacements0: seq<(Value, Value)>, replacements: seq<(Value, Value)>, replacements': seq<(Value, Value)>,
                     funcs: seq<FuncOp>, filter: string -> bool, allocate: Type -> bool)
    requires CallsWalked(calls0, before, i, failed, replacements0, replacements, funcs, filter, allocate)
    requires i < |before| == |after|
    requires forall j :: 0 <= j < |after| && j != i ==> after[j] == before[j]
    requires updated <==> CallSucceeds(calls0[i], funcs, filter, allocate)
    requires CallDone(calls0[i], after[i], funcs, filter, allocate)
    requires updated ==> replacements' == replacements + StepReplacements(calls0[i], after[i], funcs, filter, allocate)
    ensures CallsWalked(calls0, after, i + 1, failed || !updated, replacements0, replacements', funcs, filter, allocate)
  {
    if !failed && updated {
      WalkReplacementsStep(replacements0, replacements, replacements', calls0, before, after, i, funcs, filter, allocate);
    }
  }

  /** At the end of the walk: it succeeded when every call's update did; every call is
      rewritten as its update says, or kept; on success the use replacements are those of
      all calls in walk order. */
  lemma CallsWalkedAll(calls0: seq<CallOp>, calls: seq<CallOp>, failed: bool,
                       replacements0: seq<(Value, Value)>, replacements: seq<(Value, Value)>,
                       funcs: seq<FuncOp>, filter: string -> bool, allocate: Type -> bool)
    requires CallsWalked(calls0, calls, |calls|, failed, replacements0, replacements, funcs, filter, allocate)
    ensures !failed <==> forall i :: 0 <= i < |calls0| ==> CallSucceeds(calls0[i], funcs, filter, allocate)
    ensures |calls| == |calls0|
    ensures forall i :: 0 <= i < |calls| ==>
              if CallSucceeds(calls0[i], funcs, filter, allocate) && CallSelected(calls0[i], funcs, filter)
              then CallRewritten(calls0[i], calls[i]) && exists s: nat :: calls[i] == RewrittenCall(calls0[i], allocate, s)
              else calls[i] == calls0[i]
    ensures !failed ==> replacements == replacements0 + WalkReplacements(calls0, calls, |calls|, funcs, filter, allocate)
  {
    forall i | 0 <= i < |calls|
      ensures CallDone(calls0[i], calls[i], funcs, filter, allocate)
    {
    }
  }

  /** One step of the call walk: the update of call `i`. */
  method UpdateNextCall(moduleOp: ModuleOp, i: nat, filter: string -> bool, allocate: Type -> bool,
                        ghost calls0: seq<CallOp>, ghost failed: bool, ghost replacements0: seq<(Value, Value)>)
    returns (updated: bool)
    requires i < |moduleOp.calls|
    requires SelectedCallsSupported(calls0, moduleOp.funcs, filter)
    requires CallsWalked(calls0, moduleOp.calls, i, failed, replacements0, moduleOp.replacements, moduleOp.funcs, filter, allocate)
    modifies moduleOp`calls, moduleOp`allocations, moduleOp`casts, moduleOp`replacements, moduleOp`nextValueId
    ensures CallsWalked(calls0, moduleOp.calls, i + 1, failed || !updated, replacements0, moduleOp.replacements,
                        moduleOp.funcs, filter, allocate)
  {
    assert moduleOp.calls[i] == calls0[i];
    ghost var before := moduleOp.calls;
    ghost var replaced := moduleOp.replacements;
    updated := UpdateCall(moduleOp, i, filter, allocate);
    CallWalkStep(calls0, before, moduleOp.calls, i, failed, updated,
                 replacements0, replaced, moduleOp.replacements, moduleOp.funcs, filter, allocate);
  }

  /** `updateCalls`: every call, in walk order, is updated; a failing call is reported and
      the walk goes on. It succeeds when every call did. A rewritten call is the one made
      from some identifier on; on success the recorded use replacements are those of the
      rewritten calls, in walk order. */
  method UpdateCalls(moduleOp: ModuleOp, filter: string -> bool, allocate: Type -> bool) returns (ok: bool)
    requires SelectedCallsSupported(moduleOp.calls, moduleOp.funcs, filter)
    modifies moduleOp`calls, moduleOp`allocations, moduleOp`casts, moduleOp`replacements, moduleOp`nextValueId
    ensures ok <==> forall i :: 0 <= i < |old(moduleOp.calls)| ==> CallSucceeds(old(moduleOp.calls)[i], moduleOp.funcs, filter, allocate)
    ensures |moduleOp.calls| == |old(moduleOp.calls)|
    ensures forall i :: 0 <= i < |moduleOp.calls| ==>
              if CallSucceeds(old(moduleOp.calls)[i], moduleOp.funcs, filter, allocate) &&
                 CallSelected(old(moduleOp.calls)[i], moduleOp.funcs, filter)
              then CallRewritten(old(moduleOp.calls)[i], moduleOp.calls[i]) &&
                   exists s: nat :: moduleOp.calls[i] == RewrittenCall(old(moduleOp.calls)[i], allocate, s)
              else moduleOp.calls[i] == old(moduleOp.calls)[i]
    ensures ok ==> moduleOp.replacements == old(moduleOp.replacements) +
                     WalkReplacements(old(moduleOp.calls), moduleOp.calls, |moduleOp.calls|, moduleOp.funcs, filter, allocate)
  {
    ghost var calls0 := moduleOp.calls;
    var didFail := false;
    var i := 0;
    while i < |moduleOp.calls|
      invariant CallsWalked(calls0, moduleOp.calls, i, didFail, old(moduleOp.replacements), moduleOp.replacements,
                            moduleOp.funcs, filter, allocate)
    {
      var updated := UpdateNextCall(moduleOp, i, filter, allocate, calls0, didFail, old(moduleOp.replacements));
      didFail := didFail || !updated;
      i := i + 1;
    }
    CallsWalkedAll(calls0, moduleOp.calls, didFail, old(moduleOp.replacements), moduleOp.replacements,
                   moduleOp.funcs, filter, allocate);
    ok := !didFail;
  }

  // ---------------------------------------------------------------------------------
  // promoteBufferResultsToOutParams
  // ---------------------------------------------------------------------------------

  /** What a successful promotion did to one selected function: memref results moved to
      trailing inputs with their attributes, other results kept, and every return
      operation returning only its non-memref operands. */
  predicate FuncPromoted(before: FuncState, after: FuncState, addResultAttribute: bool) {
    |before.resultAttrs| == |before.results| &&
    after.inputs == before.inputs + MemRefTypes(before.results) &&
    after.results == OtherTypes(before.results) &&
    after.argAttrs == before.argAttrs + MovedResultAttrs(before.results, before.resultAttrs, addResultAttribute) &&
    after.resultAttrs == KeptResultAttrs(before.results, before.resultAttrs) &&
    after.returnOps == KeptOperands(before.returnOps)
  }

  /** The signature-level part of a function's state. */
  predicate SameSignature(before: FuncState, after: FuncState) {
    after.inputs == before.inputs && after.results == before.results &&
    after.argAttrs == before.argAttrs && after.resultAttrs == before.resultAttrs &&
    after.returnOps == before.returnOps
  }

  /** The entry arguments an update appended to a function. */
  function NewEntryArgs(before: FuncState, after: FuncState): seq<Value> {
    if |before.entryArgs| <= |after.entryArgs| then after.entryArgs[|before.entryArgs|..] else []
  }

  /** The update of one function succeeds: its result types are supported and, when it
      has a body, every return accepts the copy of each memref operand into the entry
      argument appended for it. */
  predicate FuncUpdateSucceeds(before: FuncState, after: FuncState, isExternal: bool, memCpy: (Value, Value) -> bool) {
    AllSupported(before.results) &&
    (isExternal || ReturnsCopied(before.returnOps, NewEntryArgs(before, after), memCpy))
  }

  /** What a successful update did to a function's body: a declaration gets no entry
      argument; a function with a body gets one entry argument per memref result, of its
      type, and the copies at every return of its memref operands into them. */
  predicate ResultsCopied(before: FuncState, after: FuncState, isExternal: bool) {
    var appended := NewEntryArgs(before, after);
    after.entryArgs == before.entryArgs + appended &&
    if isExternal then appended == [] && after.copies == before.copies
    else TypesOf(appended) == MemRefTypes(before.results) &&
         after.copies == before.copies + AllReturnCopies(before.returnOps, appended)
  }

  /** The update of one selected function: `updateFuncOp`, then, for a function with a
      body, `updateReturnOps` with the new entry arguments. It fails exactly when a result
      type is unsupported or a return refuses a copy. */
  method PromoteFunc(func: FuncOp, moduleOp: ModuleOp, addResultAttribute: bool, memCpy: (Value, Value) -> bool)
    returns (ok: bool)
    requires func.Valid()
    modifies func, moduleOp`nextValueId
    ensures !AllSupported(old(func.results)) ==> !ok
    ensures ok <==> AllSupported(old(func.results)) &&
                    (func.isExternal ||
                     ReturnsCopied(old(func.returnOps), FreshValues(MemRefTypes(old(func.results)), old(moduleOp.nextValueId)), memCpy))
    ensures AllSupported(old(func.results)) ==>
              func.entryArgs == old(func.entryArgs) +
                (if func.isExternal then [] else FreshValues(MemRefTypes(old(func.results)), old(moduleOp.nextValueId)))
    ensures ok && !func.isExternal ==>
              func.copies == old(func.copies) +
                AllReturnCopies(old(func.returnOps), FreshValues(MemRefTypes(old(func.results)), old(moduleOp.nextValueId)))
    ensures ok <==> FuncUpdateSucceeds(old(func.State()), func.State(), func.isExternal, memCpy)
    ensures ok ==> FuncPromoted(old(func.State()), func.State(), addResultAttribute)
    ensures ok ==> ResultsCopied(old(func.State()), func.State(), func.isExternal)
    ensures func.Valid() || !ok
  {
    var updated := UpdateFuncOp(func, moduleOp, addResultAttribute);
    if updated.Failure? {
      return false;
    }
    if func.isExternal {
      return true;
    }
    ghost var returns0 := func.returnOps;
    ghost var args0 := old(func.entryArgs);
    assert (args0 + updated.value)[|args0|..] == updated.value;
    ok := UpdateReturnOps(func, updated.value, memCpy);
    if ok {
      SuccessfulReturnRewrite(returns0, updated.value, memCpy);
    }
  }

  /** Once every selected function passed `updateFuncOp`, its result types before the
      rewrite (`results0`) are supported, and a well-typed call to it has those types: the
      layout assertion of `updateCalls` holds. */
  lemma SelectedCallsSupportedFrom(calls: seq<CallOp>, funcs: seq<FuncOp>, filter: string -> bool,
                                   results0: seq<seq<Type>>)
    requires |results0| == |funcs|
    requires CallsTypedBy(calls, funcs, results0)
    requires forall j :: 0 <= j < |funcs| && filter(funcs[j].name) ==> AllSupported(results0[j])
    ensures SelectedCallsSupported(calls, funcs, filter)
  {
    forall c, k | 0 <= c < |calls| && CallSelected(calls[c], funcs, filter) && 0 <= k < |calls[c].results|
      ensures Supported(calls[c].results[k].ty)
    {
      var callee := LookupFunc(funcs, calls[c].callee).value;
      var j :| 0 <= j < |funcs| && funcs[j] == callee;
      assert TypesOf(calls[c].results)[k] == calls[c].results[k].ty;
    }
  }

  /** What the function loop leaves of a function it has passed: a selected one was
      updated successfully, another one keeps its signature. */
  predicate FuncDone(before: FuncState, after: FuncState, selected: bool, isExternal: bool,
                     addResultAttribute: bool, memCpy: (Value, Value) -> bool) {
    if selected
    then FuncUpdateSucceeds(before, after, isExternal, memCpy) && FuncPromoted(before, after, addResultAttribute) &&
         ResultsCopied(before, after, isExternal)
    else SameSignature(before, after)
  }

  /** The functions' current states. */
  ghost function States(funcs: seq<FuncOp>): (r: seq<FuncState>)
    reads funcs
    ensures |r| == |funcs| && forall j :: 0 <= j < |funcs| ==> r[j] == funcs[j].State()
  {
    seq(|funcs|, j reads funcs requires 0 <= j < |funcs| => funcs[j].State())
  }

  /** The state of the function loop after the first `i` functions, whose states before were
      `states0`: each passed function is done, the others are as they were. */
  ghost predicate FuncsWalked(funcs: seq<FuncOp>, states0: seq<FuncState>, i: nat, filter: string -> bool,
                              addResultAttribute: bool, memCpy: (Value, Value) -> bool)
    reads funcs
  {
    |states0| == |funcs| && i <= |funcs| &&
    (forall j :: i <= j < |funcs| ==> funcs[j].State() == states0[j] && funcs[j].Valid()) &&
    (forall j :: 0 <= j < i ==>
       FuncDone(states0[j], funcs[j].State(), filter(funcs[j].name), funcs[j].isExternal, addResultAttribute, memCpy))
  }

  /** Where a failed function loop stopped: at selected function `k`, whose update failed,
      with every function before it done and every function after it as it was
      (`states0`). */
  ghost predicate FuncLoopStopped(funcs: seq<FuncOp>, states0: seq<FuncState>, k: int, filter: string -> bool,
                                  addResultAttribute: bool, memCpy: (Value, Value) -> bool)
    reads funcs
  {
    |states0| == |funcs| && 0 <= k < |funcs| && filter(funcs[k].name) &&
    !FuncUpdateSucceeds(states0[k], funcs[k].State(), funcs[k].isExternal, memCpy) &&
    (forall j :: 0 <= j < k ==>
       FuncDone(states0[j], funcs[j].State(), filter(funcs[j].name), funcs[j].isExternal, addResultAttribute, memCpy)) &&
    (forall j :: k < j < |funcs| ==> funcs[j].State() == states0[j])
  }

  /** One step of the function loop: the update of function `i` when it is selected. */
  method PromoteNext(moduleOp: ModuleOp, i: nat, filter: string -> bool, addResultAttribute: bool,
                     memCpy: (Value, Value) -> bool, ghost states0: seq<FuncState>) returns (promoted: bool)
    requires i < |moduleOp.funcs|
    requires forall j, k :: 0 <= j < k < |moduleOp.funcs| ==> moduleOp.funcs[j] != moduleOp.funcs[k]
    requires FuncsWalked(moduleOp.funcs, states0, i, filter, addResultAttribute, memCpy)
    modifies moduleOp`nextValueId, moduleOp.funcs[i]
    ensures promoted ==> FuncsWalked(moduleOp.funcs, states0, i + 1, filter, addResultAttribute, memCpy)
    ensures !promoted ==>
              filter(moduleOp.funcs[i].name) &&
              !FuncUpdateSucceeds(states0[i], moduleOp.funcs[i].State(), moduleOp.funcs[i].isExternal, memCpy)
  {
    var func := moduleOp.funcs[i];
    if filter(func.name) {
      promoted := PromoteFunc(func, moduleOp, addResultAttribute, memCpy);
      assert forall j :: 0 <= j < |moduleOp.funcs| && j != i ==>
               moduleOp.funcs[j].State() == old(moduleOp.funcs[j].State()) && moduleOp.funcs[j].Valid() == old(moduleOp.funcs[j].Valid());
    } else {
      promoted := true;
    }
  }

  /** The function loop of `promoteBufferResultsToOutParams`: updates every selected
      function in module order and fails at the first one that fails. It succeeds exactly
      when every selected function's update does; then every selected function had
      supported result types, is promoted and copies its memref results into its new
      entry arguments, and every other one is untouched. */
  method PromoteFuncs(moduleOp: ModuleOp, filter: string -> bool, addResultAttribute: bool,
                      memCpy: (Value, Value) -> bool) returns (ok: bool)
    requires moduleOp.Valid()
    modifies moduleOp, moduleOp.funcs
    ensures moduleOp.calls == old(moduleOp.calls) && moduleOp.replacements == old(moduleOp.replacements)
    ensures moduleOp.allocations == old(moduleOp.allocations) && moduleOp.casts == old(moduleOp.casts)
    ensures ok <==> forall i :: 0 <= i < |moduleOp.funcs| && filter(moduleOp.funcs[i].name) ==>
                      FuncUpdateSucceeds(old(moduleOp.funcs[i].State()), moduleOp.funcs[i].State(), moduleOp.funcs[i].isExternal, memCpy)
    ensures ok ==> forall i :: 0 <= i < |moduleOp.funcs| && filter(moduleOp.funcs[i].name) ==>
                     AllSupported(old(moduleOp.funcs[i].results))
    ensures ok ==> forall i :: 0 <= i < |moduleOp.funcs| ==>
              if filter(moduleOp.funcs[i].name)
              then FuncPromoted(old(moduleOp.funcs[i].State()), moduleOp.funcs[i].State(), addResultAttribute) &&
                   ResultsCopied(old(moduleOp.funcs[i].State()), moduleOp.funcs[i].State(), moduleOp.funcs[i].isExternal)
              else SameSignature(old(moduleOp.funcs[i].State()), moduleOp.funcs[i].State())
    ensures !ok ==> exists k :: FuncLoopStopped(moduleOp.funcs, old(States(moduleOp.funcs)), k, filter, addResultAttribute, memCpy)
  {
    ghost var states0 := States(moduleOp.funcs);
    var i := 0;
    while i < |moduleOp.funcs|
      invariant FuncsWalked(moduleOp.funcs, states0, i, filter, addResultAttribute, memCpy)
      invariant moduleOp.calls == old(moduleOp.calls) && moduleOp.replacements == old(moduleOp.replacements)
      invariant moduleOp.allocations == old(moduleOp.allocations) && moduleOp.casts == old(moduleOp.casts)
    {
      ghost var before := States(moduleOp.funcs);
      var promoted := PromoteNext(moduleOp, i, filter, addResultAttribute, memCpy, states0);
      if !promoted {
        assert forall j :: 0 <= j < |moduleOp.funcs| && j != i ==> moduleOp.funcs[j].State() == before[j];
        assert FuncLoopStopped(moduleOp.funcs, states0, i, filter, addResultAttribute, memCpy);
        return false;
      }
      i := i + 1;
    }
    return true;
  }

  /** Once every call's update succeeded, each selected call is the rewritten one and every
      other call is kept. */
  lemma CallsRewrittenOnSuccess(calls0: seq<CallOp>, calls: seq<CallOp>, funcs: seq<FuncOp>,
                                filter: string -> bool, allocate: Type -> bool)
    requires |calls| == |calls0|
    requires forall i :: 0 <= i < |calls0| ==> CallSucceeds(calls0[i], funcs, filter, allocate)
    requires forall i :: 0 <= i < |calls| ==>
               if CallSucceeds(calls0[i], funcs, filter, allocate) && CallSelected(calls0[i], funcs, filter)
               then CallRewritten(calls0[i], calls[i]) && exists s: nat :: calls[i] == RewrittenCall(calls0[i], allocate, s)
               else calls[i] == calls0[i]
    ensures forall i :: 0 <= i < |calls| ==>
              if CallSelected(calls0[i], funcs, filter)
              then CallRewritten(calls0[i], calls[i]) && exists s: nat :: calls[i] == RewrittenCall(calls0[i], allocate, s)
              else calls[i] == calls0[i]
  {
  }

  /** `promoteBufferResultsToOutParams`: updates the selected functions, then the calls. On
      a well-typed module the success of the function loop establishes the layout assertion
      of `updateCalls`. It succeeds exactly when every selected function's update and every
      call's update does. On success every selected function is promoted and copies its
      memref results into its new entry arguments, every other one is untouched, every
      call is rewritten or kept as `updateCalls` says, and the use replacements are those
      of the rewritten calls in walk order. */
  method Promote(moduleOp: ModuleOp, filter: string -> bool, addResultAttribute: bool,
                 memCpy: (Value, Value) -> bool, allocate: Type -> bool) returns (ok: bool)
    requires moduleOp.Valid()
    requires CallsTyped(moduleOp.calls, moduleOp.funcs)
    modifies moduleOp, moduleOp.funcs
    ensures (exists i :: 0 <= i < |moduleOp.funcs| && filter(moduleOp.funcs[i].name) &&
                         !AllSupported(old(moduleOp.funcs[i].results))) ==> !ok
    ensures ok <==> (forall i :: 0 <= i < |moduleOp.funcs| && filter(moduleOp.funcs[i].name) ==>
                       FuncUpdateSucceeds(old(moduleOp.funcs[i].State()), moduleOp.funcs[i].State(), moduleOp.funcs[i].isExternal, memCpy)) &&
                    (forall i :: 0 <= i < |old(moduleOp.calls)| ==> CallSucceeds(old(moduleOp.calls)[i], moduleOp.funcs, filter, allocate))
    ensures ok ==> forall i :: 0 <= i < |moduleOp.funcs| ==>
              if filter(moduleOp.funcs[i].name)
              then FuncPromoted(old(moduleOp.funcs[i].State()), moduleOp.funcs[i].State(), addResultAttribute) &&
                   ResultsCopied(old(moduleOp.funcs[i].State()), moduleOp.funcs[i].State(), moduleOp.funcs[i].isExternal)
              else SameSignature(old(moduleOp.funcs[i].State()), moduleOp.funcs[i].State())
    ensures (exists i :: 0 <= i < |moduleOp.funcs| && filter(moduleOp.funcs[i].name) &&
                         !FuncUpdateSucceeds(old(moduleOp.funcs[i].State()), moduleOp.funcs[i].State(), moduleOp.funcs[i].isExternal, memCpy)) ==>
              moduleOp.calls == old(moduleOp.calls) && moduleOp.replacements == old(moduleOp.replacements)
    ensures ok ==> |moduleOp.calls| == |old(moduleOp.calls)| &&
                   forall i :: 0 <= i < |moduleOp.calls| ==>
                     if CallSelected(old(moduleOp.calls)[i], moduleOp.funcs, filter)
                     then CallRewritten(old(moduleOp.calls)[i], moduleOp.calls[i]) &&
                          exists s: nat :: moduleOp.calls[i] == RewrittenCall(old(moduleOp.calls)[i], allocate, s)
                     else moduleOp.calls[i] == old(moduleOp.calls)[i]
    ensures ok ==> |moduleOp.calls| == |old(moduleOp.calls)| &&
                   moduleOp.replacements == old(moduleOp.replacements) +
                     WalkReplacements(old(moduleOp.calls), moduleOp.calls, |moduleOp.calls|, moduleOp.funcs, filter, allocate)
  {
    ghost var results0 := ResultTypes(moduleOp.funcs);
    ResultTypesAt(moduleOp.funcs);
    ok := PromoteFuncs(moduleOp, filter, addResultAttribute, memCpy);
    if !ok {
      return;
    }
    SelectedCallsSupportedFrom(moduleOp.calls, moduleOp.funcs, filter, results0);
    label funcsDone:
    ok := UpdateCalls(moduleOp, filter, allocate);
    if ok {
      CallsRewrittenOnSuccess(old(moduleOp.calls), moduleOp.calls, moduleOp.funcs, filter, allocate);
    }
    assert forall j :: 0 <= j < |moduleOp.funcs| ==> moduleOp.funcs[j].State() == old@funcsDone(moduleOp.funcs[j].State());
  }

}
