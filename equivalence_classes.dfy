/** A value model of `llvm::EquivalenceClasses<T>` as the data-flow solver uses it
    (`unionSets`, `contains`, `findLeader`, `isEquivalent`, `erase`). Each class is an
    ordered member list whose head is the leader; `unionSets` appends the second class's
    list to the first class's, and `erase` of a leader promotes the next member. A class
    emptied by `erase` or by a union keeps its slot in the outer sequence, where no query
    can see it. */
module EquivalenceClasses {
  import opened Wrappers
  import Uniquers

  type Classes<T> = seq<seq<T>>

  /** No member is listed twice in its class, and no value belongs to two classes. */
  ghost predicate Valid<T>(ec: Classes<T>) {
    && (forall c :: 0 <= c < |ec| ==> Uniquers.Distinct(ec[c]))
    && (forall c, d, x :: 0 <= c < |ec| && 0 <= d < |ec| && x in ec[c] && x in ec[d] ==> c == d)
  }

  /** The slot of the class holding `x`, if any. */
  function ClassIndex<T(==)>(ec: Classes<T>, x: T): (r: Option<nat>)
    ensures r.Some? ==> r.value < |ec| && x in ec[r.value]
    ensures r.None? <==> forall c :: 0 <= c < |ec| ==> x !in ec[c]
  {
    if ec == [] then None
    else if x in ec[0] then Some(0)
    else match ClassIndex(ec[1..], x)
      case None =>
        assert forall c :: 1 <= c < |ec| ==> ec[c] == ec[1..][c - 1];
        None
      case Some(c) => Some(c + 1)
  }

  /** `contains`. */
  predicate Contains<T(==)>(ec: Classes<T>, x: T) {
    ClassIndex(ec, x).Some?
  }

  /** `findLeader`: the head of the class holding `x`; `None` plays `member_end()`. */
  function FindLeader<T(==)>(ec: Classes<T>, x: T): (r: Option<T>)
    ensures r.Some? <==> Contains(ec, x)
    ensures r.Some? ==> r.value == ec[ClassIndex(ec, x).value][0]
  {
    match ClassIndex(ec, x)
    case None => None
    case Some(c) => Some(ec[c][0])
  }

  /** `isEquivalent`: equal values, or values with the same (existing) leader. */
  predicate IsEquivalent<T(==)>(ec: Classes<T>, a: T, b: T) {
    a == b || (FindLeader(ec, a).Some? && FindLeader(ec, a) == FindLeader(ec, b))
  }

  /** Both values are members of one class. */
  predicate SameClass<T(==)>(ec: Classes<T>, a: T, b: T) {
    Contains(ec, a) && ClassIndex(ec, a) == ClassIndex(ec, b)
  }

  /** `insert`: a value not yet present becomes a singleton class. */
  function Insert<T(==)>(ec: Classes<T>, x: T): (r: Classes<T>)
    ensures Contains(ec, x) ==> r == ec
    ensures !Contains(ec, x) ==> r == ec + [[x]]
    ensures Contains(r, x)
  {
    assert !Contains(ec, x) ==> (ec + [[x]])[|ec|] == [x];
    if Contains(ec, x) then ec else ec + [[x]]
  }

  /** `unionSets(a, b)`: insert both; if their leaders differ, append `b`'s member list
      after `a`'s, so `a`'s leader leads the merged class. */
  function UnionSets<T(==)>(ec: Classes<T>, a: T, b: T): Classes<T>
  {
    var e := Insert(Insert(ec, a), b);
    InsertKeeps(Insert(ec, a), b, a);
    var ca := ClassIndex(e, a).value;
    var cb := ClassIndex(e, b).value;
    if ca == cb then e else Merge(e, ca, cb)
  }

  lemma InsertKeeps<T>(ec: Classes<T>, x: T, y: T)
    requires Contains(ec, y)
    ensures Contains(Insert(ec, x), y)
  {
    var c := ClassIndex(ec, y).value;
    assert y in Insert(ec, x)[c];
  }

  /** `erase(x)`: drop `x` from its class; the next member leads a class whose leader was
      `x`. */
  function Erase<T(==)>(ec: Classes<T>, x: T): Classes<T>
  {
    match ClassIndex(ec, x)
    case None => ec
    case Some(c) =>
      var i := Position(ec[c], x);
      ec[c := ec[c][..i] + ec[c][i + 1..]]
  }

  /** The member after `x` when `x` leads a class with another member: the value
      `++findLeader(x)` reaches, and so the leader after `erase(x)`. */
  function SecondMember<T(==)>(ec: Classes<T>, x: T): (r: Option<T>)
    ensures r.Some? ==> Contains(ec, x) && FindLeader(ec, x) == Some(x)
    ensures r.Some? && Valid(ec) ==> r.value != x && SameClass(ec, r.value, x)
  {
    match ClassIndex(ec, x)
    case None => None
    case Some(c) =>
      if ec[c][0] == x && |ec[c]| > 1 then
        assert ec[c][1] in ec[c];
        Some(ec[c][1])
      else None
  }

  function Position<T(==)>(s: seq<T>, x: T): (i: nat)
    requires x in s
    ensures i < |s| && s[i] == x
  {
    match Uniquers.Find(s, x)
    case Some(i) => i
  }

  // ---------------------------------------------------------------------------
  // Lemmas

  lemma ClassIndexOf<T>(ec: Classes<T>, c: nat, x: T)
    requires Valid(ec) && c < |ec| && x in ec[c]
    ensures ClassIndex(ec, x) == Some(c)
  {
  }

  /** With distinct members, having the same leader is being in the same class, so
      `isEquivalent` is equality or class membership in common. */
  lemma EquivalentIffSameClass<T>(ec: Classes<T>, a: T, b: T)
    requires Valid(ec)
    ensures IsEquivalent(ec, a, b) <==> a == b || SameClass(ec, a, b)
  {
    if a != b && FindLeader(ec, a).Some? && FindLeader(ec, a) == FindLeader(ec, b) {
      var ca, cb := ClassIndex(ec, a).value, ClassIndex(ec, b).value;
      assert ec[ca][0] in ec[ca] && ec[ca][0] in ec[cb];
    }
  }

  lemma InsertProperties<T>(ec: Classes<T>, x: T)
    requires Valid(ec)
    ensures var r := Insert(ec, x);
            && Valid(r) && Contains(r, x)
            && (forall y :: Contains(r, y) <==> Contains(ec, y) || y == x)
            && (forall y :: Contains(ec, y) ==> ClassIndex(r, y) == ClassIndex(ec, y))
            && (!Contains(ec, x) ==> ClassIndex(r, x) == Some(|ec|) && FindLeader(r, x) == Some(x))
  {
    var r := Insert(ec, x);
    if !Contains(ec, x) {
      AppendSingletonValid(ec, x);
      forall y | Contains(ec, y)
        ensures ClassIndex(r, y) == ClassIndex(ec, y)
      {
        ClassIndexOf(r, ClassIndex(ec, y).value, y);
      }
      ClassIndexOf(r, |ec|, x);
      forall y | Contains(r, y)
        ensures Contains(ec, y) || y == x
      {
        var c := ClassIndex(r, y).value;
        if c < |ec| { assert y in ec[c]; }
      }
    }
  }

  lemma AppendSingletonValid<T>(ec: Classes<T>, x: T)
    requires Valid(ec) && !Contains(ec, x)
    ensures Valid(ec + [[x]])
  {
    var r := ec + [[x]];
    assert forall c :: 0 <= c < |ec| ==> r[c] == ec[c];
    assert Uniquers.Distinct([x]);
    forall c, d, y | 0 <= c < |r| && 0 <= d < |r| && y in r[c] && y in r[d]
      ensures c == d
    {
      if c < |ec| && d < |ec| {
        assert y in ec[c] && y in ec[d];
      }
    }
  }

  lemma DistinctConcat<T>(s: seq<T>, t: seq<T>)
    requires Uniquers.Distinct(s) && Uniquers.Distinct(t)
    requires forall x :: x in s ==> x !in t
    ensures Uniquers.Distinct(s + t)
  {
    var u := s + t;
    forall i, j | 0 <= i < |s| <= j < |u|
      ensures u[i] != u[j]
    {
      assert u[i] == s[i] && s[i] in s;
      assert u[j] == t[j - |s|];
    }
    forall i, j | |s| <= i < |u| && |s| <= j < |u| && u[i] == u[j]
      ensures i == j
    {
      assert t[i - |s|] == t[j - |s|];
    }
  }

  lemma DistinctRemove<T>(s: seq<T>, i: nat)
    requires Uniquers.Distinct(s) && i < |s|
    ensures Uniquers.Distinct(s[..i] + s[i + 1..])
    ensures forall y :: y in s[..i] + s[i + 1..] <==> y in s && y != s[i]
  {
    var u := s[..i] + s[i + 1..];
    assert forall k :: 0 <= k < |u| ==> u[k] == (if k < i then s[k] else s[k + 1]);
    forall y | y in s && y != s[i]
      ensures y in u
    {
      var k :| 0 <= k < |s| && s[k] == y;
      if k < i { assert u[k] == y; } else { assert u[k - 1] == y; }
    }
  }

  /** The class in slot `cb` joins the one in slot `ca`, behind its members. */
  function Merge<T>(e: Classes<T>, ca: nat, cb: nat): Classes<T>
    requires ca < |e| && cb < |e|
  {
    e[ca := e[ca] + e[cb]][cb := []]
  }

  /** Merging keeps the structure well formed and moves exactly the members of slot `cb`
      to slot `ca`. */
  lemma MergeProperties<T>(e: Classes<T>, ca: nat, cb: nat)
    requires Valid(e) && ca < |e| && cb < |e| && ca != cb
    ensures var u := Merge(e, ca, cb);
            && Valid(u) && u[ca][..|e[ca]|] == e[ca]
            && (forall y :: ClassIndex(u, y) == (if ClassIndex(e, y) == Some(cb) then Some(ca) else ClassIndex(e, y)))
  {
    var u := Merge(e, ca, cb);
    DistinctConcat(e[ca], e[cb]);
    assert u[ca] == e[ca] + e[cb] && u[cb] == [];
    assert forall k :: 0 <= k < |e| && k != ca && k != cb ==> u[k] == e[k];
    assert forall x :: x in u[ca] <==> x in e[ca] || x in e[cb];
    assert Valid(u);
    forall y
      ensures ClassIndex(u, y) == (if ClassIndex(e, y) == Some(cb) then Some(ca) else ClassIndex(e, y))
    {
      if ClassIndex(e, y).Some? {
        var k := ClassIndex(e, y).value;
        if k == cb || k == ca { ClassIndexOf(u, ca, y); } else { ClassIndexOf(u, k, y); }
      } else {
        assert forall k :: 0 <= k < |u| ==> y !in u[k];
      }
    }
  }

  /** After `unionSets(a, b)` the structure is well formed, holds exactly the old members
      and `a` and `b`, and holds `a` and `b` in one class led by `a`'s leader. */
  lemma UnionProperties<T>(ec: Classes<T>, a: T, b: T)
    requires Valid(ec)
    ensures var e := Insert(Insert(ec, a), b);
            var u := UnionSets(ec, a, b);
            && Valid(u)
            && (forall y :: Contains(u, y) <==> Contains(ec, y) || y == a || y == b)
            && IsEquivalent(u, a, b) && SameClass(u, a, b)
            && FindLeader(u, b) == FindLeader(u, a) == FindLeader(e, a)
  {
    InsertProperties(ec, a);
    InsertProperties(Insert(ec, a), b);
    var e := Insert(Insert(ec, a), b);
    var u := UnionSets(ec, a, b);
    var ca := ClassIndex(e, a).value;
    var cb := ClassIndex(e, b).value;
    if ca != cb {
      MergeProperties(e, ca, cb);
      assert e[ca][0] in e[ca];
      assert u[ca][0] == e[ca][0];
    }
    EquivalentIffSameClass(u, a, b);
  }

  /** `unionSets(a, b)` joins exactly the class of `a` with the class of `b`: two values
      share a class afterwards iff they shared one before (once `a` and `b` are
      inserted), or one shared a class with `a` and the other with `b`. */
  lemma UnionSameClass<T>(ec: Classes<T>, a: T, b: T, x: T, y: T)
    requires Valid(ec)
    ensures var e := Insert(Insert(ec, a), b);
            SameClass(UnionSets(ec, a, b), x, y) <==>
              || SameClass(e, x, y)
              || (SameClass(e, x, a) && SameClass(e, y, b))
              || (SameClass(e, x, b) && SameClass(e, y, a))
  {
    InsertProperties(ec, a);
    InsertProperties(Insert(ec, a), b);
    var e := Insert(Insert(ec, a), b);
    var ca := ClassIndex(e, a).value;
    var cb := ClassIndex(e, b).value;
    if ca != cb {
      MergeProperties(e, ca, cb);
      var u := Merge(e, ca, cb);
      assert UnionSets(ec, a, b) == u;
      var ix, iy := ClassIndex(e, x), ClassIndex(e, y);
      assert ClassIndex(u, x) == (if ix == Some(cb) then Some(ca) else ix);
      assert ClassIndex(u, y) == (if iy == Some(cb) then Some(ca) else iy);
    }
  }

  /** After `erase(x)`: the structure is well formed, `x` is gone and every other member
      stays; a class led by `x` is now led by the member after it; every other leader is
      unchanged; and the classes of the remaining values are the same as before. */
  lemma EraseProperties<T>(ec: Classes<T>, x: T)
    requires Valid(ec)
    ensures var r := Erase(ec, x);
            && Valid(r)
            && (forall y :: Contains(r, y) <==> Contains(ec, y) && y != x)
            && (forall y :: y != x && FindLeader(ec, y) == Some(x) ==> FindLeader(r, y) == SecondMember(ec, x))
            && (forall y :: y != x && FindLeader(ec, y) != Some(x) ==> FindLeader(r, y) == FindLeader(ec, y))
            && (forall y, z :: y != x && z != x ==> (SameClass(r, y, z) <==> SameClass(ec, y, z)))
  {
    var r := Erase(ec, x);
    if Contains(ec, x) {
      var c := ClassIndex(ec, x).value;
      var i := Position(ec[c], x);
      var rest := ec[c][..i] + ec[c][i + 1..];
      DistinctRemove(ec[c], i);
      assert r == ec[c := rest];
      assert Valid(r);
      forall y | Contains(ec, y) && y != x
        ensures ClassIndex(r, y) == ClassIndex(ec, y)
      {
        var k := ClassIndex(ec, y).value;
        ClassIndexOf(r, k, y);
      }
      forall y | !Contains(ec, y) || y == x
        ensures !Contains(r, y)
      {
        assert forall k :: 0 <= k < |r| ==> y !in r[k];
      }
      // The new head of class c.
      if |ec[c]| > 1 {
        if i == 0 {
          assert rest[0] == ec[c][1];
        } else {
          assert rest[0] == ec[c][0];
          assert ec[c][0] != x;
        }
      }
      forall y | y != x && FindLeader(ec, y) == Some(x)
        ensures FindLeader(r, y) == SecondMember(ec, x)
      {
        assert ClassIndex(ec, y) == Some(c) by {
          assert x in ec[ClassIndex(ec, y).value];
        }
        ClassIndexOf(ec, c, x);
        assert i == 0;
      }
      forall y | y != x && FindLeader(ec, y) != Some(x) && Contains(ec, y)
        ensures FindLeader(r, y) == FindLeader(ec, y)
      {
        if ClassIndex(ec, y) == Some(c) {
          assert ec[c][0] != x;
          assert i != 0;
        }
      }
    }
  }

  /** The member after a leader is never itself a leader: it sits behind the leader in
      the same class. */
  lemma SecondMemberLeadsNothing<T>(ec: Classes<T>, x: T, y: T)
    requires Valid(ec) && SecondMember(ec, x).Some? && Contains(ec, y)
    ensures FindLeader(ec, y) != SecondMember(ec, x)
  {
    var c := ClassIndex(ec, x).value;
    var d := ClassIndex(ec, y).value;
    var n := ec[c][1];
    assert ec[c][0] == x && SecondMember(ec, x) == Some(n) && n in ec[c];
    var members := ec[d];
    assert members[0] == n ==> n in members && c == d;
  }
}
