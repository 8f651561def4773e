/** Hash-consing as the storage uniquer of the data-flow solver performs it: stored
    objects live in an arena and are named by their index (the model's pointer); a
    request returns the first stored object equal to the requested content, and
    otherwise stores a newly constructed one at the end. */
module Uniquers {
  import opened Wrappers

  /** The first position of `x` in `store`, if any. */
  function Find<T(==)>(store: seq<T>, x: T): (r: Option<nat>)
    ensures r.Some? ==> r.value < |store| && store[r.value] == x && x !in store[..r.value]
    ensures r.None? <==> x !in store
  {
    if store == [] then None
    else if store[0] == x then Some(0)
    else match Find(store[1..], x)
      case None => None
      case Some(i) =>
        assert store[1..][..i] == store[1..i + 1];
        assert store[..i + 1] == [store[0]] + store[1..i + 1];
        Some(i + 1)
  }

  /** No object is stored twice. */
  ghost predicate Distinct<T>(store: seq<T>) {
    forall i, j :: 0 <= i < |store| && 0 <= j < |store| && store[i] == store[j] ==> i == j
  }

  /** Returns the handle of the object equal to `probe` if one is stored, otherwise
      appends `built` (the object built from the key) and returns its handle. */
  function Get<T(==)>(store: seq<T>, probe: T, built: T): (r: (seq<T>, nat))
    ensures r.1 < |r.0|
    ensures probe in store ==> r.0 == store && r.0[r.1] == probe
    ensures probe !in store ==> r.0 == store + [built] && r.1 == |store|
  {
    match Find(store, probe)
    case Some(i) => (store, i)
    case None => (store + [built], |store|)
  }

  /** Uniquing law: when the object built from a key equals the key's content, asking
      twice yields one handle and stores nothing the second time; and the arena stays
      free of duplicates. */
  lemma GetTwice<T>(store: seq<T>, x: T)
    requires Distinct(store)
    ensures var (s1, h1) := Get(store, x, x);
            var (s2, h2) := Get(s1, x, x);
            h2 == h1 && s2 == s1 && s1[h1] == x && Distinct(s1)
  {
    var (s1, h1) := Get(store, x, x);
    assert x in s1;
  }
}
