/** The data-flow solver, its analysis states and its child analyses as objects. The
    solver owns the program-point and generic-anchor arenas, the state table, the
    equivalence classes, the FIFO worklist and the list of loaded analyses; states own
    their dependents. The transfer functions of the analyses (`initialize`, `visit`,
    `initializeEquivalentLatticeAnchor`) are parameters of `InitializeAndRun`, given as
    the list of steps each one performs. */
module DataFlowFramework {
  import opened Wrappers
  import opened ChangeResults
  import opened LatticeAnchors
  import opened SolverTables
  import PP = ProgramPoints
  import EC = EquivalenceClasses
  import Uniquers

  /** `DataFlowSolver::WorkItem`: a program point (its handle) and the analysis to visit
      it with. */
  datatype WorkItem = WorkItem(point: nat, analysis: DataFlowAnalysis)

  /** `SetVector::insert`: a value already present is not added again; a new one goes at
      the back. */
  function SetVectorInsert<T(==)>(s: seq<T>, x: T): seq<T>
  {
    if x in s then s else s + [x]
  }

  /** A set vector keeps its elements distinct, keeps their insertion order, and holds
      exactly the old elements and the inserted one. */
  lemma SetVectorInsertLaws<T>(s: seq<T>, x: T)
    requires Uniquers.Distinct(s)
    ensures var r := SetVectorInsert(s, x);
            && Uniquers.Distinct(r) && |s| <= |r| && r[..|s|] == s && x in r
            && (forall y :: y in r <==> y in s || y == x)
            && (x in s <==> |r| == |s|)
  {
    var r := SetVectorInsert(s, x);
    assert r[..|s|] == s;
    if x !in s {
      forall i, j | 0 <= i < |r| && 0 <= j < |r| && r[i] == r[j]
        ensures i == j
      {
        if i < |s| && j < |s| {
          assert s[i] == s[j];
        }
      }
    }
  }

  /** One action of a transfer function: a query of a state for a dependent program point
      (`getOrCreateFor`), or an update of a state followed by `propagateIfChanged`. */
  datatype Step =
    | Query(stateType: StateType, dependent: nat, anchor: LatticeAnchor)
    | Update(stateType: StateType, target: LatticeAnchor, changed: ChangeResult)

  /** One `unionLatticeAnchors` call of `initializeEquivalentLatticeAnchor`. */
  datatype Union = Union(stateType: StateType, anchor: LatticeAnchor, other: LatticeAnchor)

  /** How `initializeAndRun` ends; `OutOfFuel` only reports that the model's iteration
      bound was reached first. */
  datatype RunOutcome = Converged | InitializeFailed | VisitFailed | OutOfFuel

  /** An analysis state attached to a lattice anchor. */
  class AnalysisState {
    /** The anchor passed to `getOrCreateState` when the state was created. */
    const anchor: LatticeAnchor
    const stateType: StateType
    /** The work items to enqueue when the state changes, in insertion order. */
    var dependents: seq<WorkItem>

    constructor(anchor: LatticeAnchor, stateType: StateType)
      ensures this.anchor == anchor && this.stateType == stateType && dependents == []
    {
      this.anchor := anchor;
      this.stateType := stateType;
      dependents := [];
    }

    /** `addDependency(point, analysis)`: records the work item once. */
    method AddDependency(point: nat, analysis: DataFlowAnalysis)
      modifies this`dependents
      ensures dependents == SetVectorInsert(old(dependents), WorkItem(point, analysis))
    {
      var item := WorkItem(point, analysis);
      if item !in dependents {
        dependents := dependents + [item];
      }
    }

    /** `onUpdate`: every dependent goes to the back of the worklist, in order. */
    method OnUpdate(solver: DataFlowSolver)
      modifies solver`worklist
      ensures solver.worklist == old(solver.worklist) + dependents
    {
      var i := 0;
      while i < |dependents|
        invariant 0 <= i <= |dependents|
        invariant solver.worklist == old(solver.worklist) + dependents[..i]
      {
        solver.Enqueue(dependents[i]);
        assert dependents[..i + 1] == dependents[..i] + [dependents[i]];
        i := i + 1;
      }
      assert dependents[..i] == dependents;
    }
  }

  /** A child analysis: a handle onto its solver. */
  class DataFlowAnalysis {
    const solver: DataFlowSolver

    constructor(solver: DataFlowSolver)
      ensures this.solver == solver
    {
      this.solver := solver;
    }

    /** `getOrCreateFor<T>(dependent, anchor)`: the state of `anchor` (created if need
        be), on which `(dependent, this)` becomes a dependent unless `anchor` and the
        dependent point are equivalent for `T`. */
    method GetOrCreateFor(t: StateType, dependent: nat, anchor: LatticeAnchor) returns (state: AnalysisState)
      requires solver.Valid() && this in solver.childAnalyses
      modifies solver`analysisStates, solver.States()
      ensures solver.Valid()
      ensures solver.equivalentAnchorMap == old(solver.equivalentAnchorMap)
      ensures var leader := LeaderOrSelf(solver.equivalentAnchorMap, t, anchor);
              var existing := Slot(old(solver.analysisStates), leader, t);
              && (existing.Some? ==> state == existing.value && solver.analysisStates == old(solver.analysisStates))
              && (existing.None? ==>
                    && fresh(state) && state.anchor == anchor && state.stateType == t
                    && solver.analysisStates == Publish(old(solver.analysisStates), leader, t, state))
      ensures var item := WorkItem(dependent, this);
              var before := if old(state in solver.States()) then old(state.dependents) else [];
              state.dependents ==
                if Equivalent(solver.equivalentAnchorMap, t, anchor, PointAnchor(dependent)) then before
                else SetVectorInsert(before, item)
      ensures forall s :: s in old(solver.States()) && s != state ==> s.dependents == old(s.dependents)
      ensures solver.States() <= old(solver.States()) + {state}
    {
      state := solver.GetOrCreateState(t, anchor);
      if !Equivalent(solver.equivalentAnchorMap, t, anchor, PointAnchor(dependent)) {
        state.AddDependency(dependent, this);
      }
    }

    /** `propagateIfChanged`, forwarded to the solver. */
    method PropagateIfChanged(state: AnalysisState, changed: ChangeResult)
      requires solver.Valid() && state in solver.States()
      modifies solver`worklist
      ensures solver.Valid()
      ensures solver.worklist == old(solver.worklist) + (if changed == Change then state.dependents else [])
    {
      solver.PropagateIfChanged(state, changed);
    }

    /** Performs the steps of one transfer function on behalf of this analysis: queries
        through `getOrCreateFor`, updates through `getOrCreate` and `propagateIfChanged`. */
    method Apply(steps: seq<Step>)
      requires solver.Valid() && this in solver.childAnalyses
      modifies solver`analysisStates, solver`worklist, solver.States()
      ensures solver.Valid()
      ensures solver.equivalentAnchorMap == old(solver.equivalentAnchorMap)
      ensures forall s :: s in solver.States() ==> s in old(solver.States()) || fresh(s)
    {
      var i := 0;
      while i < |steps|
        invariant 0 <= i <= |steps|
        invariant solver.Valid()
        invariant solver.equivalentAnchorMap == old(solver.equivalentAnchorMap)
        invariant forall s :: s in solver.States() ==> s in old(solver.States()) || fresh(s)
      {
        match steps[i] {
          case Query(t, dependent, anchor) =>
            var _ := GetOrCreateFor(t, dependent, anchor);
          case Update(t, target, changed) =>
            var state := solver.GetOrCreateState(t, target);
            solver.PropagateIfChanged(state, changed);
        }
        i := i + 1;
      }
    }
  }

  /** `DataFlowSolver`. */
  class DataFlowSolver {
    const interprocedural: bool
    var isRunning: bool
    /** The FIFO work queue: pushed at the back, served from the front. */
    var worklist: seq<WorkItem>
    var childAnalyses: seq<DataFlowAnalysis>
    /** The uniquer's arenas: a handle is an index. */
    var points: seq<PP.ProgramPoint>
    var genericAnchors: seq<GenericLatticeAnchor>
    var analysisStates: StateTable<AnalysisState>
    var equivalentAnchorMap: EquivalenceMap

    /** Every state object in the table. */
    function States(): set<AnalysisState>
      reads this
    {
      set x, t | x in analysisStates && t in analysisStates[x] :: analysisStates[x][t]
    }

    /** The arenas hold no duplicates, the classes are well formed, each slot holds a state
        of its own type, and every analysis the solver can reach is one of its own. */
    ghost predicate Valid()
      reads this, States()
    {
      ArenasValid() && ValidClasses(equivalentAnchorMap) && TableTyped(analysisStates) && AnalysesOwned()
    }

    /** The uniquer's arenas hold no duplicates. */
    ghost predicate ArenasValid()
      reads this
    {
      Uniquers.Distinct(points) && PP.AllConstructed(points) && Uniquers.Distinct(genericAnchors)
    }

    /** Each slot holds a state of its own type. */
    static ghost predicate TableTyped(table: StateTable<AnalysisState>)
      reads set x, t | x in table && t in table[x] :: table[x][t]
    {
      forall x, t :: Slot(table, x, t).Some? ==> Slot(table, x, t).value.stateType == t
    }

    /** Every analysis the solver can reach is one of its own. */
    ghost predicate AnalysesOwned()
      reads this, States()
    {
      && (forall a :: a in childAnalyses ==> a.solver == this)
      && (forall i :: 0 <= i < |worklist| ==> worklist[i].analysis in childAnalyses)
      && (forall s, i :: s in States() && 0 <= i < |s.dependents| ==> s.dependents[i].analysis in childAnalyses)
    }

    constructor(interprocedural: bool)
      ensures this.interprocedural == interprocedural && !isRunning
      ensures worklist == [] && childAnalyses == [] && points == [] && genericAnchors == []
      ensures analysisStates == map[] && equivalentAnchorMap == map[]
      ensures Valid()
    {
      this.interprocedural := interprocedural;
      isRunning := false;
      worklist := [];
      childAnalyses := [];
      points := [];
      genericAnchors := [];
      analysisStates := map[];
      equivalentAnchorMap := map[];
    }

    /** `load`: a new analysis on this solver, appended to the analyses in load order. */
    method Load() returns (analysis: DataFlowAnalysis)
      requires Valid()
      modifies this`childAnalyses
      ensures Valid()
      ensures fresh(analysis) && analysis.solver == this
      ensures childAnalyses == old(childAnalyses) + [analysis]
    {
      analysis := new DataFlowAnalysis(this);
      childAnalyses := childAnalyses + [analysis];
    }

    /** `getOrCreateState<T>(anchor)`: the state under the anchor's leader, created (and
        recording the anchor actually passed) when that slot is empty. */
    method GetOrCreateState(t: StateType, anchor: LatticeAnchor) returns (state: AnalysisState)
      requires Valid()
      modifies this`analysisStates
      ensures Valid()
      ensures Lookup(analysisStates, equivalentAnchorMap, t, anchor) == Some(state)
      ensures state.stateType == t
      ensures var leader := LeaderOrSelf(equivalentAnchorMap, t, anchor);
              var existing := Slot(old(analysisStates), leader, t);
              && (existing.Some? ==> state == existing.value && analysisStates == old(analysisStates))
              && (existing.None? ==>
                    && fresh(state) && state.anchor == anchor && state.dependents == []
                    && analysisStates == Publish(old(analysisStates), leader, t, state))
      ensures States() <= old(States()) + {state}
      ensures state in States()
    {
      var leader := LeaderOrSelf(equivalentAnchorMap, t, anchor);
      var row := Row(analysisStates, leader);
      if t in row {
        state := row[t];
      } else {
        state := new AnalysisState(anchor, t);
        ghost var before := analysisStates;
        analysisStates := Publish(analysisStates, leader, t, state);
        PublishStates(before, leader, t, state);
      }
    }

    /** Every state of a table after `Publish` was there before or is the one published. */
    static lemma PublishStates(table: StateTable<AnalysisState>, x: LatticeAnchor, t: StateType, s: AnalysisState)
      ensures var after := Publish(table, x, t, s);
              && (forall y, u :: y in after && u in after[y] ==>
                    after[y][u] == s || (y in table && u in table[y] && after[y][u] == table[y][u]))
              && x in after && t in after[x] && after[x][t] == s
    {
      var after := Publish(table, x, t, s);
      forall y, u | y in after && u in after[y]
        ensures after[y][u] == s || (y in table && u in table[y] && after[y][u] == table[y][u])
      {
        if y != x || u != t {
          assert Slot(after, y, u) == Slot(table, y, u);
        }
      }
    }

    /** `eraseState(anchor)`: for each state type whose classes hold the anchor, a leading
        anchor first hands its state to the next member, then leaves the class; last, the
        anchor's own entry goes. */
    method EraseState(anchor: LatticeAnchor)
      requires Valid()
      modifies this`analysisStates, this`equivalentAnchorMap
      ensures Valid()
      ensures equivalentAnchorMap == ErasedClasses(old(equivalentAnchorMap), anchor)
      ensures forall x, t :: Slot(analysisStates, x, t) == ErasedSlot(old(analysisStates), old(equivalentAnchorMap), anchor, x, t)
      ensures anchor !in analysisStates
    {
      ghost var table0 := analysisStates;
      ghost var eqm0 := equivalentAnchorMap;
      var todo := equivalentAnchorMap.Keys;
      ghost var done: set<StateType> := {};
      while todo != {}
        invariant Valid()
        invariant todo + done == eqm0.Keys && todo * done == {}
        invariant ErasedUpTo(analysisStates, equivalentAnchorMap, table0, eqm0, anchor, done)
        invariant States() <= old(States())
        decreases todo
      {
        var t :| t in todo;
        ghost var table, eqm := analysisStates, equivalentAnchorMap;
        EraseFromType(t, anchor);
        EraseStep(table, eqm, analysisStates, equivalentAnchorMap, table0, eqm0, anchor, done, t);
        todo := todo - {t};
        done := done + {t};
      }
      EraseDone(analysisStates, equivalentAnchorMap, table0, eqm0, anchor);
      EraseEntry(anchor);
    }

    /** `analysisStates.erase(anchor)`, on the solver. */
    method EraseEntry(anchor: LatticeAnchor)
      requires Valid()
      modifies this`analysisStates
      ensures Valid()
      ensures analysisStates == DropAnchor(old(analysisStates), anchor)
    {
      analysisStates := DropAnchor(analysisStates, anchor);
    }

    /** `analysisStates.erase(anchor)`. */
    static function DropAnchor(table: StateTable<AnalysisState>, x: LatticeAnchor): (r: StateTable<AnalysisState>)
      ensures x !in r
      ensures forall y, u :: y != x ==> Slot(r, y, u) == Slot(table, y, u)
      ensures forall y, u :: y in r && u in r[y] ==> y in table && u in table[y] && r[y][u] == table[y][u]
    {
      table - {x}
    }

    /** One iteration of `eraseState`: the classes of state type `t`. */
    method EraseFromType(t: StateType, anchor: LatticeAnchor)
      requires Valid() && t in equivalentAnchorMap
      modifies this`analysisStates, this`equivalentAnchorMap
      ensures Valid()
      ensures equivalentAnchorMap == old(equivalentAnchorMap)[t := EC.Erase(old(equivalentAnchorMap)[t], anchor)]
      ensures forall x :: x != anchor ==>
                Slot(analysisStates, x, t) == ErasedSlot(old(analysisStates), old(equivalentAnchorMap), anchor, x, t)
      ensures forall x, u :: u != t ==> Slot(analysisStates, x, u) == Slot(old(analysisStates), x, u)
      ensures States() <= old(States())
    {
      var classes := equivalentAnchorMap[t];
      EC.EraseProperties(classes, anchor);
      if EC.Contains(classes, anchor) {
        match EC.SecondMember(classes, anchor) {
          case Some(next) =>
            HandOver(t, anchor, next);
          case None =>
        }
        equivalentAnchorMap := equivalentAnchorMap[t := EC.Erase(classes, anchor)];
      }
    }

    /** A leading anchor's state of type `t` moves to the next member of its class, and a
        null state moves as a null. */
    method HandOver(t: StateType, anchor: LatticeAnchor, next: LatticeAnchor)
      requires Valid() && next != anchor
      modifies this`analysisStates
      ensures Valid()
      ensures Slot(analysisStates, next, t) == Slot(old(analysisStates), anchor, t)
      ensures Slot(analysisStates, anchor, t).None?
      ensures forall y, u :: (y != anchor && y != next) || u != t ==>
                Slot(analysisStates, y, u) == Slot(old(analysisStates), y, u)
      ensures States() <= old(States())
    {
      ghost var before := analysisStates;
      match Slot(analysisStates, anchor, t) {
        case Some(s) =>
          analysisStates := Publish(analysisStates, next, t, s);
          PublishStates(before, next, t, s);
          analysisStates := ClearSlot(analysisStates, anchor, t);
        case None =>
          analysisStates := ClearSlot(analysisStates, next, t);
      }
    }

    /** The state left null in a slot: by `std::move` out of it, or by assigning a null
        pointer into it. */
    static function ClearSlot(table: StateTable<AnalysisState>, x: LatticeAnchor, t: StateType)
      : (r: StateTable<AnalysisState>)
      ensures Slot(r, x, t).None?
      ensures forall y, u :: (y != x || u != t) ==> Slot(r, y, u) == Slot(table, y, u)
      ensures forall y, u :: y in r && u in r[y] ==> y in table && u in table[y] && r[y][u] == table[y][u]
    {
      if x in table then table[x := table[x] - {t}] else table
    }

    /** `eraseAllStates`: both the state table and the equivalence classes become empty. */
    method EraseAllStates()
      requires Valid()
      modifies this`analysisStates, this`equivalentAnchorMap
      ensures Valid()
      ensures analysisStates == map[] && equivalentAnchorMap == map[]
    {
      analysisStates := map[];
      equivalentAnchorMap := map[];
    }

    /** `unionLatticeAnchors<T>(anchor, other)`. */
    method UnionLatticeAnchors(t: StateType, anchor: LatticeAnchor, other: LatticeAnchor)
      requires Valid()
      modifies this`equivalentAnchorMap
      ensures Valid()
      ensures equivalentAnchorMap == UnionMap(old(equivalentAnchorMap), t, anchor, other)
      ensures Equivalent(equivalentAnchorMap, t, anchor, other)
    {
      UnionMakesEquivalent(equivalentAnchorMap, t, anchor, other, anchor, other, t);
      equivalentAnchorMap := UnionMap(equivalentAnchorMap, t, anchor, other);
    }

    /** The uniquer's `get<ProgramPoint>` for a key of the shape the solver builds. */
    method UniquePoint(key: PP.PointKey) returns (handle: nat)
      requires Valid() && PP.WellFormedKey(key)
      modifies this`points
      ensures Valid()
      ensures (points, handle) == PP.GetPoint(old(points), key)
      ensures handle < |points| && PP.MatchesKey(points[handle], key)
    {
      PP.GetPointTwice(points, key);
      var (store, h) := PP.GetPoint(points, key);
      points := store;
      handle := h;
    }

    /** `getProgramPointBefore(op)`. */
    method GetProgramPointBeforeOp(ir: PP.Ir, op: PP.OpId) returns (handle: nat)
      requires Valid() && ir.Valid()
      modifies this`points
      ensures Valid()
      ensures (points, handle) == PP.GetPoint(old(points), PP.BeforeOpKey(ir, op))
    {
      PP.OpKeysWellFormed(ir, op);
      handle := UniquePoint(PP.BeforeOpKey(ir, op));
    }

    /** `getProgramPointAfter(op)`. */
    method GetProgramPointAfterOp(ir: PP.Ir, op: PP.OpId) returns (handle: nat)
      requires Valid() && ir.Valid()
      modifies this`points
      ensures Valid()
      ensures (points, handle) == PP.GetPoint(old(points), PP.AfterOpKey(ir, op))
    {
      PP.OpKeysWellFormed(ir, op);
      handle := UniquePoint(PP.AfterOpKey(ir, op));
    }

    /** `getProgramPointBefore(block)`. */
    method GetProgramPointBeforeBlock(b: PP.BlockId) returns (handle: nat)
      requires Valid()
      modifies this`points
      ensures Valid()
      ensures (points, handle) == PP.GetPoint(old(points), PP.BeforeBlockKey(b))
    {
      handle := UniquePoint(PP.BeforeBlockKey(b));
    }

    /** `getProgramPointAfter(block)`. */
    method GetProgramPointAfterBlock(ir: PP.Ir, b: PP.BlockId) returns (handle: nat)
      requires Valid() && b in ir.blocks
      modifies this`points
      ensures Valid()
      ensures (points, handle) == PP.GetPoint(old(points), PP.AfterBlockKey(ir, b))
    {
      handle := UniquePoint(PP.AfterBlockKey(ir, b));
    }

    /** `getLatticeAnchor<AnchorT>(value)` for a generic anchor type. */
    method GetLatticeAnchor(typeId: nat, value: int) returns (handle: nat)
      requires Valid()
      modifies this`genericAnchors
      ensures Valid()
      ensures (genericAnchors, handle) == GetGeneric(old(genericAnchors), typeId, value)
    {
      GetGenericTwice(genericAnchors, typeId, value);
      var (store, h) := GetGeneric(genericAnchors, typeId, value);
      genericAnchors := store;
      handle := h;
    }

    /** `enqueue`: to the back of the queue. */
    method Enqueue(item: WorkItem)
      modifies this`worklist
      ensures worklist == old(worklist) + [item]
    {
      worklist := worklist + [item];
    }

    /** `propagateIfChanged`: a changed state enqueues its dependents (`onUpdate`). */
    method PropagateIfChanged(state: AnalysisState, changed: ChangeResult)
      requires Valid() && state in States()
      modifies this`worklist
      ensures Valid()
      ensures worklist == old(worklist) + (if changed == Change then state.dependents else [])
    {
      if changed == Change {
        state.OnUpdate(this);
      }
    }

    /** `initializeAndRun`, as far as the documentation describes it: while running,
        every analysis first declares its equivalences, then each is initialized in load
        order, stopping at the first failure; then work items are served from the front of
        the queue and visited until the queue is empty or a visit fails. */
    method InitializeAndRun(equivalences: DataFlowAnalysis -> seq<Union>,
                            initialize: DataFlowAnalysis -> Option<seq<Step>>,
                            visit: WorkItem -> Option<seq<Step>>,
                            fuel: nat) returns (outcome: RunOutcome)
      requires Valid()
      modifies this`isRunning, this`worklist, this`analysisStates, this`equivalentAnchorMap, States()
      ensures Valid() && !isRunning
      ensures childAnalyses == old(childAnalyses)
      ensures outcome == Converged ==> worklist == []
      ensures outcome == OutOfFuel ==> worklist != []
      ensures outcome == InitializeFailed <==>
                exists i :: 0 <= i < |childAnalyses| && initialize(childAnalyses[i]).None?
    {
      isRunning := true;
      DeclareEquivalences(equivalences);
      var initialized := InitializeAll(initialize);
      if !initialized {
        isRunning := false;
        return InitializeFailed;
      }
      outcome := RunWorklist(visit, fuel);
      isRunning := false;
    }

    /** Every analysis, in load order, performs its `unionLatticeAnchors` calls. */
    method DeclareEquivalences(equivalences: DataFlowAnalysis -> seq<Union>)
      requires Valid()
      modifies this`equivalentAnchorMap
      ensures Valid()
    {
      var i := 0;
      while i < |childAnalyses|
        invariant 0 <= i <= |childAnalyses|
        invariant Valid()
      {
        var unions := equivalences(childAnalyses[i]);
        var k := 0;
        while k < |unions|
          invariant 0 <= k <= |unions|
          invariant Valid()
        {
          UnionLatticeAnchors(unions[k].stateType, unions[k].anchor, unions[k].other);
          k := k + 1;
        }
        i := i + 1;
      }
    }

    /** Every analysis, in load order, performs its initialization; false at the first
        failure. */
    method InitializeAll(initialize: DataFlowAnalysis -> Option<seq<Step>>) returns (ok: bool)
      requires Valid()
      modifies this`worklist, this`analysisStates, States()
      ensures Valid()
      ensures forall s :: s in States() ==> s in old(States()) || fresh(s)
      ensures ok <==> forall i :: 0 <= i < |childAnalyses| ==> initialize(childAnalyses[i]).Some?
    {
      var analyses := childAnalyses;
      var i := 0;
      while i < |analyses|
        invariant 0 <= i <= |analyses| && childAnalyses == analyses
        invariant Valid()
        invariant forall s :: s in States() ==> s in old(States()) || fresh(s)
        invariant forall j :: 0 <= j < i ==> initialize(analyses[j]).Some?
      {
        ghost var before := States();
        var initialized := InitializeNext(analyses[i], initialize);
        forall s | s in States() && s !in before
          ensures fresh(s)
        {
        }
        if !initialized {
          return false;
        }
        i := i + 1;
      }
      return true;
    }

    /** One step of the initialization loop: one loaded analysis initializes, and its
        steps are applied when it succeeds. */
    method InitializeNext(analysis: DataFlowAnalysis, initialize: DataFlowAnalysis -> Option<seq<Step>>)
      returns (initialized: bool)
      requires Valid() && analysis in childAnalyses
      modifies this`worklist, this`analysisStates, States()
      ensures Valid()
      ensures forall s :: s in States() ==> s in old(States()) || fresh(s)
      ensures childAnalyses == old(childAnalyses)
      ensures initialized <==> initialize(analysis).Some?
    {
      match initialize(analysis) {
        case None =>
          return false;
        case Some(steps) =>
          analysis.Apply(steps);
          return true;
      }
    }

    /** The fixed-point loop: the front work item is removed and visited by its analysis
        until the queue is empty, a visit fails, or `fuel` visits have been made. */
    method RunWorklist(visit: WorkItem -> Option<seq<Step>>, fuel: nat) returns (outcome: RunOutcome)
      requires Valid()
      modifies this`worklist, this`analysisStates, States()
      ensures Valid()
      ensures outcome in {Converged, VisitFailed, OutOfFuel}
      ensures outcome == Converged ==> worklist == []
      ensures outcome == OutOfFuel ==> worklist != []
    {
      var remaining := fuel;
      while worklist != [] && remaining > 0
        invariant Valid()
        invariant forall s :: s in States() ==> s in old(States()) || fresh(s)
        decreases remaining
      {
        var item := worklist[0];
        worklist := worklist[1..];
        match visit(item) {
          case None =>
            return VisitFailed;
          case Some(steps) =>
            item.analysis.Apply(steps);
        }
        remaining := remaining - 1;
      }
      outcome := if worklist == [] then Converged else OutOfFuel;
    }
  }
}
