/** The setdex: a `defaultdict(list)` from species key to the labelled sets
    filed under it, in the order they were appended. */
module Dex {
  import opened Records

  type Sets = map<string, seq<Entry>>

  /** The appends a run makes, in order: (species key, labelled set). */
  type Routes = seq<(string, Entry)>

  /** The list filed under `key`, empty when the key was never touched. */
  function ListAt(m: Sets, key: string): seq<Entry> {
    if key in m then m[key] else []
  }

  /** `setdex[key].append(e)`. */
  function AppendAt(m: Sets, key: string, e: Entry): (r: Sets)
    ensures r.Keys == m.Keys + {key}
    ensures ListAt(r, key) == ListAt(m, key) + [e]
    ensures forall k :: k != key ==> ListAt(r, k) == ListAt(m, k)
  {
    m[key := ListAt(m, key) + [e]]
  }

  /** The appends of `routes`, one after another. */
  function ApplyAll(m: Sets, routes: Routes): Sets
    decreases |routes|
  {
    if routes == [] then m
    else ApplyAll(AppendAt(m, routes[0].0, routes[0].1), routes[1..])
  }

  /** Appending one more route extends the result by one append. */
  lemma {:induction false} ApplyAllSnoc(m: Sets, routes: Routes, key: string, e: Entry)
    ensures ApplyAll(m, routes + [(key, e)]) == AppendAt(ApplyAll(m, routes), key, e)
    decreases |routes|
  {
    if routes == [] {
      assert ([] + [(key, e)])[1..] == [];
    } else {
      assert (routes + [(key, e)])[1..] == routes[1..] + [(key, e)];
      ApplyAllSnoc(AppendAt(m, routes[0].0, routes[0].1), routes[1..], key, e);
    }
  }

  /** Running two batches of routes is running them together. */
  lemma {:induction false} ApplyAllConcat(m: Sets, a: Routes, b: Routes)
    ensures ApplyAll(m, a + b) == ApplyAll(ApplyAll(m, a), b)
    decreases |a|
  {
    if a != [] {
      assert (a + b)[1..] == a[1..] + b;
      ApplyAllConcat(AppendAt(m, a[0].0, a[0].1), a[1..], b);
    } else {
      assert a + b == b;
    }
  }

  /** The sets routed to `key`, in route order. */
  function RoutedTo(routes: Routes, key: string): (r: seq<Entry>)
    ensures |r| <= |routes|
  {
    if routes == [] then []
    else (if routes[0].0 == key then [routes[0].1] else []) + RoutedTo(routes[1..], key)
  }

  /** Each key's list is its old list followed by the sets routed to it, in
      route order. */
  lemma {:induction false} ApplyAllLists(m: Sets, routes: Routes)
    ensures forall k :: ListAt(ApplyAll(m, routes), k) == ListAt(m, k) + RoutedTo(routes, k)
    decreases |routes|
  {
    if routes != [] {
      var m' := AppendAt(m, routes[0].0, routes[0].1);
      ApplyAllLists(m', routes[1..]);
      forall k ensures ListAt(ApplyAll(m, routes), k) == ListAt(m, k) + RoutedTo(routes, k) {
        assert RoutedTo(routes, k) == (if routes[0].0 == k then [routes[0].1] else []) + RoutedTo(routes[1..], k);
      }
    }
  }

  /** The sets routed to `key` are exactly those the routes file under it. */
  lemma {:induction false} RoutedToMembers(routes: Routes, key: string)
    ensures forall e :: e in RoutedTo(routes, key) <==> (key, e) in routes
    decreases |routes|
  {
    if routes != [] {
      RoutedToMembers(routes[1..], key);
      assert routes == [routes[0]] + routes[1..];
    }
  }

  /** The `setdex` object `parse_scms` fills. */
  class Setdex {
    var sets: Sets

    /** `collections.defaultdict(list)`. */
    constructor ()
      ensures sets == map[]
    {
      sets := map[];
    }

    /** `setdex[key].append(e)`. */
    method Append(key: string, e: Entry)
      modifies this
      ensures sets == AppendAt(old(sets), key, e)
    {
      sets := sets[key := ListAt(sets, key) + [e]];
    }
  }
}
