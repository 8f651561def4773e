/** Program points of the data-flow framework: "a position inside a block" or "an
    operation that has no parent block", the key they are uniqued by, and the points the
    solver vends before and after operations and blocks. */
module ProgramPoints {
  import opened Wrappers
  import Uniquers

  type OpId = nat
  type BlockId = nat

  /** The part of the IR a program point can see: the operations of each block in order,
      and the parent block of every operation that has one. */
  datatype Ir = Ir(blocks: map<BlockId, seq<OpId>>, parent: map<OpId, BlockId>)
  {
    /** Each operation sits in exactly one place of its parent block's list. */
    ghost predicate Valid() {
      && (forall op :: op in parent ==> parent[op] in blocks && op in blocks[parent[op]])
      && (forall b, i :: b in blocks && 0 <= i < |blocks[b]| ==>
            blocks[b][i] in parent && parent[blocks[b][i]] == b)
      && (forall b, i, j ::
            b in blocks && 0 <= i < |blocks[b]| && 0 <= j < |blocks[b]| && blocks[b][i] == blocks[b][j]
            ==> i == j)
    }

    /** The position of an operation in its parent block (`Block::iterator(op)`). */
    function PositionOf(op: OpId): (i: nat)
      requires Valid() && op in parent
      ensures i < |blocks[parent[op]]| && blocks[parent[op]][i] == op
    {
      IndexOf(blocks[parent[op]], op)
    }
  }

  function IndexOf(s: seq<OpId>, x: OpId): (i: nat)
    requires x in s
    ensures i < |s| && s[i] == x
  {
    match Uniquers.Find(s, x)
    case Some(i) => i
  }

  /** A `Block::iterator`: the default (null) iterator, or a position in a block, where
      the position equal to the block's length is `end()`. */
  datatype Iter = NullIter | Pos(index: nat)

  /** The fields of a program point: `block`, `point` and `op`. The block form has a
      block and a position; the parentless form has only the operation. */
  datatype ProgramPoint = ProgramPoint(block: Option<BlockId>, point: Iter, op: Option<OpId>)

  /** The uniquing key `std::tuple<Block *, Block::iterator, Operation *>`. */
  datatype PointKey = PointKey(block: Option<BlockId>, point: Iter, op: Option<OpId>)

  /** `operator==(const KeyTy &)`: the three fields coincide. */
  predicate MatchesKey(pp: ProgramPoint, key: PointKey) {
    pp.block == key.block && pp.point == key.point && pp.op == key.op
  }

  /** The probe the uniquer compares stored points with. */
  function KeyContent(key: PointKey): (pp: ProgramPoint)
    ensures MatchesKey(pp, key)
    ensures forall q: ProgramPoint :: MatchesKey(q, key) <==> q == pp
  {
    ProgramPoint(key.block, key.point, key.op)
  }

  /** A key of the shape the solver builds: a block and an iterator and no operation, or
      an operation with neither block nor iterator. */
  predicate WellFormedKey(key: PointKey) {
    if key.block.Some? then key.op.None? else key.point == NullIter
  }

  /** `ProgramPoint::construct`: the block form when the key has a block, the
      parentless form otherwise. */
  function Construct(key: PointKey): (pp: ProgramPoint)
    ensures pp.block == key.block
    ensures key.block.Some? ==> pp.point == key.point && pp.op.None?
    ensures key.block.None? ==> pp.point == NullIter && pp.op == key.op
    ensures MatchesKey(pp, key) <==> WellFormedKey(key)
  {
    if key.block.Some? then ProgramPoint(key.block, key.point, None)
    else ProgramPoint(None, NullIter, key.op)
  }

  /** `isNull`: neither a block nor an operation is set. */
  predicate IsNull(pp: ProgramPoint) {
    pp.block.None? && pp.op.None?
  }

  lemma ConstructIsNull(key: PointKey)
    ensures IsNull(Construct(key)) <==> key.block.None? && key.op.None?
  {
  }

  /** A point whose block (if any) is in the IR and whose position lies inside it. */
  ghost predicate InIr(ir: Ir, pp: ProgramPoint) {
    pp.block.Some? ==>
      pp.block.value in ir.blocks && pp.point.Pos? && pp.point.index <= |ir.blocks[pp.block.value]|
  }

  /** `isBlockStart`: the block form at the block's `begin()`. */
  predicate IsBlockStart(pp: ProgramPoint)
  {
    pp.block.Some? && pp.point == Pos(0)
  }

  /** `isBlockEnd`: the block form at the block's `end()`. */
  predicate IsBlockEnd(ir: Ir, pp: ProgramPoint)
    requires InIr(ir, pp)
  {
    pp.block.Some? && pp.point == Pos(|ir.blocks[pp.block.value]|)
  }

  lemma ParentlessIsNeitherStartNorEnd(ir: Ir, pp: ProgramPoint)
    requires InIr(ir, pp) && pp.block.None?
    ensures !IsBlockStart(pp) && !IsBlockEnd(ir, pp)
  {
  }

  /** `getNextOp`: the operation at the point's position; for the parentless form, the
      operation itself. Not defined at the end of a block. */
  function GetNextOp(ir: Ir, pp: ProgramPoint): (r: Option<OpId>)
    requires ir.Valid() && InIr(ir, pp) && !IsBlockEnd(ir, pp)
    ensures pp.block.None? ==> r == pp.op
    ensures pp.block.Some? ==>
              r.Some? && r.value in ir.parent && ir.parent[r.value] == pp.block.value &&
              ir.PositionOf(r.value) == pp.point.index
  {
    if pp.block.None? then pp.op
    else Some(ir.blocks[pp.block.value][pp.point.index])
  }

  /** `getPrevOp`: the operation just before the point's position; for the parentless
      form, the operation itself. Not defined at the start of a block. */
  function GetPrevOp(ir: Ir, pp: ProgramPoint): (r: Option<OpId>)
    requires ir.Valid() && InIr(ir, pp) && !IsBlockStart(pp)
    ensures pp.block.None? ==> r == pp.op
    ensures pp.block.Some? ==>
              r.Some? && r.value in ir.parent && ir.parent[r.value] == pp.block.value &&
              ir.PositionOf(r.value) == pp.point.index - 1
  {
    if pp.block.None? then pp.op
    else Some(ir.blocks[pp.block.value][pp.point.index - 1])
  }

  // The keys the solver asks the uniquer for.

  /** `getProgramPointBefore(Operation *)`. */
  function BeforeOpKey(ir: Ir, op: OpId): PointKey
    requires ir.Valid()
  {
    if op in ir.parent then PointKey(Some(ir.parent[op]), Pos(ir.PositionOf(op)), None)
    else PointKey(None, NullIter, Some(op))
  }

  /** `getProgramPointAfter(Operation *)`: one past the operation's position. */
  function AfterOpKey(ir: Ir, op: OpId): PointKey
    requires ir.Valid()
  {
    if op in ir.parent then PointKey(Some(ir.parent[op]), Pos(ir.PositionOf(op) + 1), None)
    else PointKey(None, NullIter, Some(op))
  }

  /** `getProgramPointBefore(Block *)`: at `begin()`. */
  function BeforeBlockKey(b: BlockId): PointKey {
    PointKey(Some(b), Pos(0), None)
  }

  /** `getProgramPointAfter(Block *)`: at `end()`. */
  function AfterBlockKey(ir: Ir, b: BlockId): PointKey
    requires b in ir.blocks
  {
    PointKey(Some(b), Pos(|ir.blocks[b]|), None)
  }

  /** The keys the solver builds for an operation are well formed, so the constructed
      point matches the key and lies in the IR; before and after a parentless operation
      are the same key. */
  lemma OpKeysWellFormed(ir: Ir, op: OpId)
    requires ir.Valid()
    ensures WellFormedKey(BeforeOpKey(ir, op)) && WellFormedKey(AfterOpKey(ir, op))
    ensures InIr(ir, Construct(BeforeOpKey(ir, op))) && InIr(ir, Construct(AfterOpKey(ir, op)))
    ensures op !in ir.parent ==> BeforeOpKey(ir, op) == AfterOpKey(ir, op)
  {
  }

  /** The keys the solver builds for a block are well formed and lie in the IR, at
      `begin()` and at `end()`. */
  lemma BlockKeysWellFormed(ir: Ir, b: BlockId)
    requires b in ir.blocks
    ensures WellFormedKey(BeforeBlockKey(b)) && WellFormedKey(AfterBlockKey(ir, b))
    ensures InIr(ir, Construct(BeforeBlockKey(b))) && InIr(ir, Construct(AfterBlockKey(ir, b)))
    ensures IsBlockStart(Construct(BeforeBlockKey(b))) && IsBlockEnd(ir, Construct(AfterBlockKey(ir, b)))
  {
  }

  /** The point before an operation names that operation as its next operation, and the
      point after it names it as its previous one, in both forms. */
  lemma NextOfBeforeAndPrevOfAfter(ir: Ir, op: OpId)
    requires ir.Valid()
    ensures var before := Construct(BeforeOpKey(ir, op));
            InIr(ir, before) && !IsBlockEnd(ir, before) && GetNextOp(ir, before) == Some(op)
    ensures var after := Construct(AfterOpKey(ir, op));
            InIr(ir, after) && !IsBlockStart(after) && GetPrevOp(ir, after) == Some(op)
  {
  }

  /** Consecutive operations share a point: after `ops[i]` is before `ops[i + 1]`; before
      the first operation is before the block, after the last is after the block. */
  lemma AdjacentPointsCoincide(ir: Ir, b: BlockId, i: nat)
    requires ir.Valid() && b in ir.blocks && i < |ir.blocks[b]|
    ensures i + 1 < |ir.blocks[b]| ==>
              AfterOpKey(ir, ir.blocks[b][i]) == BeforeOpKey(ir, ir.blocks[b][i + 1])
    ensures i == 0 ==> BeforeOpKey(ir, ir.blocks[b][i]) == BeforeBlockKey(b)
    ensures i + 1 == |ir.blocks[b]| ==> AfterOpKey(ir, ir.blocks[b][i]) == AfterBlockKey(ir, b)
  {
    var op := ir.blocks[b][i];
    assert ir.parent[op] == b;
    assert ir.PositionOf(op) == i;
    if i + 1 < |ir.blocks[b]| {
      var next := ir.blocks[b][i + 1];
      assert ir.parent[next] == b;
      assert ir.PositionOf(next) == i + 1;
    }
  }

  /** `uniquer.get<ProgramPoint>(key)`: the first stored point equal to the key, or a
      newly constructed point stored at the end. */
  function GetPoint(store: seq<ProgramPoint>, key: PointKey): (r: (seq<ProgramPoint>, nat))
    ensures |store| <= |r.0| && r.1 < |r.0| && r.0[..|store|] == store
    ensures KeyContent(key) in store ==> r.0 == store && MatchesKey(r.0[r.1], key)
    ensures KeyContent(key) !in store ==> r.0 == store + [Construct(key)] && r.1 == |store|
    ensures AllConstructed(store) ==> AllConstructed(r.0)
  {
    Uniquers.Get(store, KeyContent(key), Construct(key))
  }

  /** Uniquing law for program points: for a well-formed key the second request returns
      the first one's handle, and the arena stays free of duplicates. */
  lemma {:induction false} GetPointTwice(store: seq<ProgramPoint>, key: PointKey)
    requires Uniquers.Distinct(store) && WellFormedKey(key)
    ensures var (s1, h1) := GetPoint(store, key);
            var (s2, h2) := GetPoint(s1, key);
            h2 == h1 && s2 == s1 && Uniquers.Distinct(s1) && MatchesKey(s1[h1], key)
  {
    assert Construct(key) == KeyContent(key);
    Uniquers.GetTwice(store, KeyContent(key));
  }

  /** Every stored point has the shape `Construct` gives: never both a block and an
      operation. */
  ghost predicate AllConstructed(store: seq<ProgramPoint>) {
    forall i :: 0 <= i < |store| ==> store[i].block.Some? ==> store[i].op.None?
  }

  /** A key with both a block and an operation never matches the point built from it, so
      the uniquer stores a new point on every request for it. The solver never builds such
      a key (OpKeysWellFormed, BlockKeysWellFormed). */
  lemma MalformedKeyIsNeverShared(store: seq<ProgramPoint>, key: PointKey)
    requires AllConstructed(store) && key.block.Some? && key.op.Some?
    ensures var (s1, h1) := GetPoint(store, key);
            var (s2, h2) := GetPoint(s1, key);
            h2 != h1 && |s2| == |store| + 2
  {
    var (s1, h1) := GetPoint(store, key);
    assert Construct(key) != KeyContent(key);
    assert KeyContent(key) !in s1;
    assert forall k :: 0 <= k < |s1| ==> (k < |store| ==> s1[k] == store[k]) && (k == |store| ==> s1[k] == Construct(key));
  }
}
