/** The two-valued `ChangeResult` of the data-flow framework and its operators, which
    behave as if `Change` were truth. */
module ChangeResults {

  datatype ChangeResult = NoChange | Change

  /** `lhs | rhs`: `lhs` when it is `Change`, otherwise `rhs`. */
  function Or(lhs: ChangeResult, rhs: ChangeResult): (r: ChangeResult)
    ensures r == Change <==> (lhs == Change || rhs == Change)
  {
    match lhs
    case Change => lhs
    case NoChange => rhs
  }

  /** `lhs & rhs`: `lhs` when it is `NoChange`, otherwise `rhs`. */
  function And(lhs: ChangeResult, rhs: ChangeResult): (r: ChangeResult)
    ensures r == Change <==> (lhs == Change && rhs == Change)
  {
    match lhs
    case NoChange => lhs
    case Change => rhs
  }

  /** `lhs |= rhs`: the variable ends up holding `lhs | rhs`, which is also returned. */
  method OrAssign(lhs: ChangeResult, rhs: ChangeResult) returns (updated: ChangeResult)
    ensures updated == Change <==> (lhs == Change || rhs == Change)
    ensures updated == Or(lhs, rhs)
  {
    updated := lhs;
    updated := Or(updated, rhs);
  }

  /** `|` and `&` form a commutative monoid each; `NoChange` is the unit of `|`,
      `Change` the unit of `&`, and `Change` absorbs `|`. */
  lemma OrAssociativeCommutative(a: ChangeResult, b: ChangeResult, c: ChangeResult)
    ensures Or(a, Or(b, c)) == Or(Or(a, b), c)
    ensures Or(a, b) == Or(b, a)
    ensures Or(NoChange, a) == a && Or(a, NoChange) == a
    ensures Or(Change, a) == Change && Or(a, Change) == Change
  {
  }

  lemma AndAssociativeCommutative(a: ChangeResult, b: ChangeResult, c: ChangeResult)
    ensures And(a, And(b, c)) == And(And(a, b), c)
    ensures And(a, b) == And(b, a)
    ensures And(Change, a) == a && And(NoChange, a) == NoChange
  {
  }

  /** Folding `|` over a sequence of results: the way a loop that does `changed |= step()`
      accumulates its answer. */
  function OrAll(rs: seq<ChangeResult>): ChangeResult
  {
    if rs == [] then NoChange else Or(OrAll(rs[..|rs| - 1]), rs[|rs| - 1])
  }

  lemma {:induction false} OrAllIsExists(rs: seq<ChangeResult>)
    ensures OrAll(rs) == Change <==> exists i :: 0 <= i < |rs| && rs[i] == Change
  {
    if rs != [] {
      var init := rs[..|rs| - 1];
      OrAllIsExists(init);
      assert forall i :: 0 <= i < |init| ==> init[i] == rs[i];
      if OrAll(rs) == Change && rs[|rs| - 1] != Change {
        var i :| 0 <= i < |init| && init[i] == Change;
        assert rs[i] == Change;
      }
    }
  }
}
