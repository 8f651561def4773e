/** Lattice anchors: the places analysis states attach to. */
module LatticeAnchors {
  import Uniquers

  /** A generic lattice anchor as the uniquer stores it: the type identifier of its
      concrete class and its content key (modelled as an integer). */
  datatype GenericLatticeAnchor = GenericLatticeAnchor(typeId: nat, value: int)

  /** `LatticeAnchor`, a `PointerUnion` of a generic anchor, a program point and an IR
      value; the two uniqued kinds are named by their handle in the solver's arenas.
      The default-constructed union is `NullAnchor`. */
  datatype LatticeAnchor =
    | NullAnchor
    | GenericAnchor(generic: nat)
    | PointAnchor(point: nat)
    | ValueAnchor(value: nat)

  /** `GenericLatticeAnchorBase::get`: the stored anchor of that concrete type whose value
      equals `value`, or a new one at the end of the arena. */
  function GetGeneric(store: seq<GenericLatticeAnchor>, typeId: nat, value: int)
    : (r: (seq<GenericLatticeAnchor>, nat))
    ensures r.1 < |r.0| && r.0[r.1] == GenericLatticeAnchor(typeId, value)
    ensures GenericLatticeAnchor(typeId, value) in store ==> r.0 == store
    ensures GenericLatticeAnchor(typeId, value) !in store ==>
              r.0 == store + [GenericLatticeAnchor(typeId, value)] && r.1 == |store|
  {
    var content := GenericLatticeAnchor(typeId, value);
    Uniquers.Get(store, content, content)
  }

  /** Asking twice for the same generic anchor yields one handle, and the arena stays free
      of duplicates. */
  lemma GetGenericTwice(store: seq<GenericLatticeAnchor>, typeId: nat, value: int)
    requires Uniquers.Distinct(store)
    ensures var (s1, h1) := GetGeneric(store, typeId, value);
            var (s2, h2) := GetGeneric(s1, typeId, value);
            h2 == h1 && s2 == s1 && Uniquers.Distinct(s1)
  {
    Uniquers.GetTwice(store, GenericLatticeAnchor(typeId, value));
  }
}
