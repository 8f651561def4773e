/** The data-flow solver's bookkeeping as values: the table of analysis states keyed by
    lattice anchor and state type, and the per-state-type equivalence classes of anchors
    through which every access to the table is resolved. The solver class keeps these in
    its fields and its methods are specified by the functions below. */
module SolverTables {
  import opened Wrappers
  import opened LatticeAnchors
  import EC = EquivalenceClasses

  /** A state type (`TypeID::get<StateT>()`). */
  type StateType = nat

  /** `analysisStates`: anchor -> state type -> state. */
  type StateTable<S> = map<LatticeAnchor, map<StateType, S>>

  /** `equivalentAnchorMap`: state type -> equivalence classes of anchors. */
  type EquivalenceMap = map<StateType, EC.Classes<LatticeAnchor>>

  ghost predicate ValidClasses(eqm: EquivalenceMap) {
    forall t :: t in eqm ==> EC.Valid(eqm[t])
  }

  /** The inner map of an anchor, created empty by `operator[]` when absent. */
  function Row<S>(table: StateTable<S>, x: LatticeAnchor): map<StateType, S> {
    if x in table then table[x] else map[]
  }

  /** The state stored under `(x, t)`, if any. */
  function Slot<S>(table: StateTable<S>, x: LatticeAnchor, t: StateType): Option<S> {
    if x in table && t in table[x] then Some(table[x][t]) else None
  }

  /** The classes of a state type, as `operator[]` gives them: none when absent. */
  function ClassesOf(eqm: EquivalenceMap, t: StateType): EC.Classes<LatticeAnchor> {
    if t in eqm then eqm[t] else []
  }

  /** `getLeaderAnchorOrSelf<T>`: the leader of the anchor's class for `t`, or the anchor
      itself when `t` has no classes or the anchor is in none of them. */
  function LeaderOrSelf(eqm: EquivalenceMap, t: StateType, x: LatticeAnchor): (r: LatticeAnchor)
    ensures !EC.Contains(ClassesOf(eqm, t), x) ==> r == x
  {
    if t !in eqm then x
    else match EC.FindLeader(eqm[t], x)
      case Some(l) => l
      case None => x
  }

  /** `isEquivalent<T>`: false unless `t` has classes holding both anchors; then the
      classes' own `isEquivalent`. */
  predicate Equivalent(eqm: EquivalenceMap, t: StateType, a: LatticeAnchor, b: LatticeAnchor) {
    t in eqm && EC.Contains(eqm[t], a) && EC.Contains(eqm[t], b) && EC.IsEquivalent(eqm[t], a, b)
  }

  /** `lookupState<T>(anchor)`: the state under the anchor's leader for `t`; `None` (a
      null pointer) when the leader has no entry or its entry has no state of type `t`. */
  function Lookup<S>(table: StateTable<S>, eqm: EquivalenceMap, t: StateType, x: LatticeAnchor)
    : (r: Option<S>)
    ensures var l := LeaderOrSelf(eqm, t, x);
            r.None? <==> l !in table || t !in table[l]
  {
    Slot(table, LeaderOrSelf(eqm, t, x), t)
  }

  /** `analysisStates[x][t] = s`: the one slot changes, every other slot keeps its state. */
  function Publish<S>(table: StateTable<S>, x: LatticeAnchor, t: StateType, s: S): (r: StateTable<S>)
    ensures Slot(r, x, t) == Some(s)
    ensures forall y, u :: (y != x || u != t) ==> Slot(r, y, u) == Slot(table, y, u)
  {
    table[x := Row(table, x)[t := s]]
  }

  /** `unionLatticeAnchors<T>(a, b)`: `unionSets` on the classes of `t`, created empty if
      absent. */
  function UnionMap(eqm: EquivalenceMap, t: StateType, a: LatticeAnchor, b: LatticeAnchor)
    : EquivalenceMap
  {
    eqm[t := EC.UnionSets(ClassesOf(eqm, t), a, b)]
  }

  /** The classes after `eraseState(a)`: `a` erased from the classes of every type. */
  function ErasedClasses(eqm: EquivalenceMap, a: LatticeAnchor): (r: EquivalenceMap)
    ensures r.Keys == eqm.Keys
  {
    map t | t in eqm :: EC.Erase(eqm[t], a)
  }

  /** The slot `(x, t)` after `eraseState(a)`: nothing under `a`; under the member that
      follows `a` in a class of type `t` led by `a`, whatever `a` held for `t` (the moved
      state, or nothing when `a` held none); everywhere else, as before. */
  function ErasedSlot<S>(table: StateTable<S>, eqm: EquivalenceMap, a: LatticeAnchor,
                         x: LatticeAnchor, t: StateType): Option<S>
  {
    if x == a then None
    else if t in eqm && EC.SecondMember(eqm[t], a) == Some(x) then Slot(table, a, t)
    else Slot(table, x, t)
  }

  /** `eraseState(a)` has dealt with the state types in `done` and with no other: the
      classes and slots of those types are as `ErasedClasses` and `ErasedSlot` say, the
      rest are as at the start. */
  ghost predicate ErasedUpTo<S>(table: StateTable<S>, eqm: EquivalenceMap,
                                table0: StateTable<S>, eqm0: EquivalenceMap,
                                a: LatticeAnchor, done: set<StateType>)
  {
    && eqm.Keys == eqm0.Keys
    && (forall t :: t in eqm0 ==> eqm[t] == (if t in done then EC.Erase(eqm0[t], a) else eqm0[t]))
    && (forall x, t :: x != a ==>
          Slot(table, x, t) == (if t in done then ErasedSlot(table0, eqm0, a, x, t) else Slot(table0, x, t)))
    && (forall t :: t !in done ==> Slot(table, a, t) == Slot(table0, a, t))
  }

  // ---------------------------------------------------------------------------
  // Lemmas

  /** Dealing with one more state type `t` (erasing `a` from its classes and moving its
      slot as `ErasedSlot` says) extends the erasure to `done + {t}`. */
  lemma EraseStep<S>(table: StateTable<S>, eqm: EquivalenceMap, table1: StateTable<S>, eqm1: EquivalenceMap,
                     table0: StateTable<S>, eqm0: EquivalenceMap, a: LatticeAnchor,
                     done: set<StateType>, t: StateType)
    requires ErasedUpTo(table, eqm, table0, eqm0, a, done) && t in eqm0 && t !in done
    requires eqm1 == eqm[t := EC.Erase(eqm[t], a)]
    requires forall x :: x != a ==> Slot(table1, x, t) == ErasedSlot(table, eqm, a, x, t)
    requires forall x, u :: u != t ==> Slot(table1, x, u) == Slot(table, x, u)
    ensures ErasedUpTo(table1, eqm1, table0, eqm0, a, done + {t})
  {
  }

  /** Once every state type is dealt with, the erasure is complete. */
  lemma EraseDone<S>(table: StateTable<S>, eqm: EquivalenceMap,
                     table0: StateTable<S>, eqm0: EquivalenceMap, a: LatticeAnchor)
    requires ErasedUpTo(table, eqm, table0, eqm0, a, eqm0.Keys)
    ensures eqm == ErasedClasses(eqm0, a)
    ensures forall x, t :: x != a ==> Slot(table, x, t) == ErasedSlot(table0, eqm0, a, x, t)
  {
    forall x, t | x != a
      ensures Slot(table, x, t) == ErasedSlot(table0, eqm0, a, x, t)
    {
      if t !in eqm0 {
        assert Slot(table, x, t) == Slot(table0, x, t);
      }
    }
  }

  /** `isEquivalent<T>(a, b)` holds exactly when `t` has a class holding both anchors. */
  lemma EquivalentIffSameClass(eqm: EquivalenceMap, t: StateType, a: LatticeAnchor, b: LatticeAnchor)
    requires ValidClasses(eqm)
    ensures Equivalent(eqm, t, a, b) <==> t in eqm && EC.SameClass(eqm[t], a, b)
  {
    if t in eqm {
      EC.EquivalentIffSameClass(eqm[t], a, b);
    }
  }

  /** The leader is its own leader and is equivalent to the anchor (unless it is the
      anchor itself), and equivalent anchors have one leader. */
  lemma LeaderLaws(eqm: EquivalenceMap, t: StateType, x: LatticeAnchor, y: LatticeAnchor)
    requires ValidClasses(eqm)
    ensures var l := LeaderOrSelf(eqm, t, x);
            && LeaderOrSelf(eqm, t, l) == l
            && (l == x || Equivalent(eqm, t, x, l))
            && (Equivalent(eqm, t, x, y) ==> LeaderOrSelf(eqm, t, y) == l)
  {
    var l := LeaderOrSelf(eqm, t, x);
    if t in eqm && EC.Contains(eqm[t], x) {
      var ec := eqm[t];
      var c := EC.ClassIndex(ec, x).value;
      assert ec[c][0] in ec[c];
      EC.ClassIndexOf(ec, c, l);
      EC.EquivalentIffSameClass(ec, x, y);
    }
  }

  /** After `getOrCreateState` stores `s` under the leader of `x`, looking up `x`, or any
      anchor equivalent to it, finds `s`; lookups of other state types are unchanged. */
  lemma LookupAfterPublish<S>(table: StateTable<S>, eqm: EquivalenceMap, t: StateType,
                              x: LatticeAnchor, s: S, y: LatticeAnchor, u: StateType)
    requires ValidClasses(eqm)
    ensures var after := Publish(table, LeaderOrSelf(eqm, t, x), t, s);
            && Lookup(after, eqm, t, x) == Some(s)
            && (Equivalent(eqm, t, x, y) ==> Lookup(after, eqm, t, y) == Some(s))
            && (u != t ==> Lookup(after, eqm, u, y) == Lookup(table, eqm, u, y))
  {
    LeaderLaws(eqm, t, x, y);
  }

  /** After `unionLatticeAnchors<T>(a, b)`: the classes stay well formed, `a` and `b` are
      equivalent for `t`, anchors equivalent before stay equivalent, and other state
      types are untouched. */
  lemma UnionMakesEquivalent(eqm: EquivalenceMap, t: StateType, a: LatticeAnchor, b: LatticeAnchor,
                             x: LatticeAnchor, y: LatticeAnchor, u: StateType)
    requires ValidClasses(eqm)
    ensures var after := UnionMap(eqm, t, a, b);
            && ValidClasses(after)
            && Equivalent(after, t, a, b)
            && (Equivalent(eqm, t, x, y) ==> Equivalent(after, t, x, y))
            && (u != t ==> (Equivalent(after, u, x, y) <==> Equivalent(eqm, u, x, y)))
  {
    var after := UnionMap(eqm, t, a, b);
    var ec := ClassesOf(eqm, t);
    EC.UnionProperties(ec, a, b);
    EquivalentIffSameClass(after, t, a, b);
    if Equivalent(eqm, t, x, y) {
      EquivalentIffSameClass(eqm, t, x, y);
      EC.InsertProperties(ec, a);
      EC.InsertProperties(EC.Insert(ec, a), b);
      EC.UnionSameClass(ec, a, b, x, y);
      EquivalentIffSameClass(after, t, x, y);
    }
  }

  /** `eraseState(a)` at one state type and one other anchor `y`: `y` finds the same state
      as before. */
  lemma EraseKeepsLookupAt<S>(table: StateTable<S>, eqm: EquivalenceMap, after: StateTable<S>,
                              a: LatticeAnchor, t: StateType, y: LatticeAnchor)
    requires ValidClasses(eqm) && y != a
    requires forall x, u :: Slot(after, x, u) == ErasedSlot(table, eqm, a, x, u)
    ensures Lookup(after, ErasedClasses(eqm, a), t, y) == Lookup(table, eqm, t, y)
  {
    var eqm' := ErasedClasses(eqm, a);
    var l' := LeaderOrSelf(eqm', t, y);
    assert Slot(after, l', t) == ErasedSlot(table, eqm, a, l', t);
    if t in eqm {
      assert eqm'[t] == EC.Erase(eqm[t], a);
      EraseLeaderAt(eqm[t], a, y);
    }
  }

  /** The leader of `y != a` after `erase(a)`, and why its slot is untouched or moved:
      it is the old leader unless that was `a`, then it is the member after `a`; an old
      leader is never that member. */
  lemma EraseLeaderAt(ec: EC.Classes<LatticeAnchor>, a: LatticeAnchor, y: LatticeAnchor)
    requires EC.Valid(ec) && y != a
    ensures var r := EC.Erase(ec, a);
            var second := EC.SecondMember(ec, a);
            && (!EC.Contains(ec, y) ==> !EC.Contains(r, y) && second != Some(y))
            && (EC.FindLeader(ec, y) == Some(a) ==> second.Some? && EC.FindLeader(r, y) == second && second.value != a)
            && (EC.Contains(ec, y) && EC.FindLeader(ec, y) != Some(a) ==>
                  EC.FindLeader(r, y) == EC.FindLeader(ec, y) && EC.FindLeader(ec, y) != second)
  {
    EC.EraseProperties(ec, a);
    var second := EC.SecondMember(ec, a);
    if EC.FindLeader(ec, y) == Some(a) {
      var c := EC.ClassIndex(ec, y).value;
      EC.ClassIndexOf(ec, c, a);
      assert ec[c][0] == a && y in ec[c];
      assert second.Some?;
    } else if EC.Contains(ec, y) && second.Some? {
      EC.SecondMemberLeadsNothing(ec, a, y);
    }
  }

  /** `eraseState(a)` leaves no state reachable from `a`, takes `a` out of every class,
      keeps the classes well formed, gives the member after a leading `a` the state `a`
      held and makes it the leader, and changes nothing any other anchor looks up. */
  lemma EraseKeepsOtherLookups<S>(table: StateTable<S>, eqm: EquivalenceMap, after: StateTable<S>,
                                  a: LatticeAnchor)
    requires ValidClasses(eqm)
    requires forall x, u :: Slot(after, x, u) == ErasedSlot(table, eqm, a, x, u)
    ensures ValidClasses(ErasedClasses(eqm, a))
    ensures forall t :: !EC.Contains(ClassesOf(ErasedClasses(eqm, a), t), a)
    ensures forall t :: Lookup(after, ErasedClasses(eqm, a), t, a).None?
    ensures forall t, y :: y != a ==> Lookup(after, ErasedClasses(eqm, a), t, y) == Lookup(table, eqm, t, y)
    ensures forall t, n :: t in eqm && EC.SecondMember(eqm[t], a) == Some(n) ==>
              LeaderOrSelf(ErasedClasses(eqm, a), t, n) == n && Slot(after, n, t) == Slot(table, a, t)
  {
    var eqm' := ErasedClasses(eqm, a);
    forall t | t in eqm'
      ensures EC.Valid(eqm'[t]) && !EC.Contains(eqm'[t], a)
    {
      EC.EraseProperties(eqm[t], a);
    }
    forall t, y | y != a
      ensures Lookup(after, eqm', t, y) == Lookup(table, eqm, t, y)
    {
      EraseKeepsLookupAt(table, eqm, after, a, t, y);
    }
    forall t, n | t in eqm && EC.SecondMember(eqm[t], a) == Some(n)
      ensures LeaderOrSelf(eqm', t, n) == n && Slot(after, n, t) == Slot(table, a, t)
    {
      var ec := eqm[t];
      EC.EraseProperties(ec, a);
      var c := EC.ClassIndex(ec, a).value;
      EC.ClassIndexOf(ec, c, n);
      assert EC.FindLeader(ec, n) == Some(a);
    }
  }
}
