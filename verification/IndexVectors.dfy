/** The vector of glob positions that a match fills, sorts and deduplicates in place. */
module IndexVectors {

  predicate Ascending(s: seq<nat>) {
    forall i, j | 0 <= i < j < |s| :: s[i] <= s[j]
  }

  predicate StrictlyAscending(s: seq<nat>) {
    forall i, j | 0 <= i < j < |s| :: s[i] < s[j]
  }

  function Elements(s: seq<nat>): set<nat> {
    set x | x in s
  }

  lemma AllButLast(a: seq<nat>)
    requires StrictlyAscending(a) && a != []
    ensures StrictlyAscending(a[..|a| - 1])
    ensures forall x | x in a :: x <= a[|a| - 1]
    ensures Elements(a[..|a| - 1]) == Elements(a) - {a[|a| - 1]}
  {
    assert a == a[..|a| - 1] + [a[|a| - 1]];
  }

  // A strictly ascending sequence is determined by its elements.
  lemma {:induction false} AscendingUnique(a: seq<nat>, b: seq<nat>)
    requires StrictlyAscending(a) && StrictlyAscending(b)
    requires Elements(a) == Elements(b)
    ensures a == b
  {
    if a == [] {
      assert forall i | 0 <= i < |b| :: b[i] in Elements(b);
    } else {
      assert a[0] in Elements(a);
      AllButLast(a);
      AllButLast(b);
      assert a[|a| - 1] in Elements(a) && b[|b| - 1] in Elements(b);
      assert a[|a| - 1] == b[|b| - 1];
      AscendingUnique(a[..|a| - 1], b[..|b| - 1]);
      assert a == a[..|a| - 1] + [a[|a| - 1]] && b == b[..|b| - 1] + [b[|b| - 1]];
    }
  }

  lemma AppendStrict(a: seq<nat>, x: nat)
    requires StrictlyAscending(a) && (a != [] ==> a[|a| - 1] < x)
    ensures StrictlyAscending(a + [x])
  {
    forall i, j | 0 <= i < j < |a + [x]|
      ensures (a + [x])[i] < (a + [x])[j]
    {
      assert i < |a| - 1 ==> a[i] < a[|a| - 1];
    }
  }

  function Insert(s: seq<nat>, x: nat): (r: seq<nat>)
    ensures multiset(r) == multiset(s) + multiset{x}
  {
    if s == [] then [x]
    else if s[|s| - 1] <= x then s + [x]
    else
      assert s == s[..|s| - 1] + [s[|s| - 1]];
      Insert(s[..|s| - 1], x) + [s[|s| - 1]]
  }

  lemma {:induction false} InsertAscending(s: seq<nat>, x: nat)
    requires Ascending(s)
    ensures Ascending(Insert(s, x))
  {
    if s == [] || s[|s| - 1] <= x {
    } else {
      var front, last := s[..|s| - 1], s[|s| - 1];
      InsertAscending(front, x);
      forall i | 0 <= i < |Insert(front, x)|
        ensures Insert(front, x)[i] <= last
      {
        assert Insert(front, x)[i] in multiset(Insert(front, x));
      }
    }
  }

  class IndexVector {
    var items: seq<nat>

    constructor ()
      ensures items == []
    {
      items := [];
    }

    method Clear()
      modifies this
      ensures items == []
    {
      items := [];
    }

    method Push(i: nat)
      modifies this
      ensures items == old(items) + [i]
    {
      items := items + [i];
    }

    method Extend(hits: seq<nat>)
      modifies this
      ensures items == old(items) + hits
    {
      items := items + hits;
    }

    method Sort()
      modifies this
      ensures Ascending(items) && multiset(items) == multiset(old(items))
    {
      var sorted := [];
      for n := 0 to |items|
        invariant items == old(items)
        invariant Ascending(sorted) && multiset(sorted) == multiset(items[..n])
      {
        assert items[..n + 1] == items[..n] + [items[n]];
        InsertAscending(sorted, items[n]);
        sorted := Insert(sorted, items[n]);
      }
      assert items[..|items|] == items;
      items := sorted;
    }

    // Remove all but the first of consecutive equal elements.
    method Dedup()
      modifies this
      ensures forall x :: x in items <==> x in old(items)
      ensures Ascending(old(items)) ==> StrictlyAscending(items)
    {
      var kept: seq<nat> := [];
      for n := 0 to |items|
        invariant items == old(items)
        invariant forall x :: x in kept <==> x in items[..n]
        invariant n == 0 ==> kept == []
        invariant n > 0 ==> kept != [] && kept[|kept| - 1] == items[n - 1]
        invariant Ascending(items) ==> StrictlyAscending(kept)
      {
        assert items[..n + 1] == items[..n] + [items[n]];
        if n == 0 || items[n] != items[n - 1] {
          if Ascending(items) {
            assert n > 0 ==> items[n - 1] <= items[n];
            AppendStrict(kept, items[n]);
          }
          kept := kept + [items[n]];
        }
      }
      assert items[..|items|] == items;
      items := kept;
    }
  }
}
