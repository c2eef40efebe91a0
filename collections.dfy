/**
 * Insertion-ordered collections: a Java list is a `seq`; a LinkedHashSet built
 * from a list is the list without its repeats, in order of first occurrence.
 */
module Collections {

  predicate NoDuplicates<T(==)>(s: seq<T>) {
    forall i, j :: 0 <= i < j < |s| ==> s[i] != s[j]
  }

  function Elements<T(==)>(s: seq<T>): set<T> {
    set x | x in s
  }

  /** `new LinkedHashSet<>(s)`, read back in iteration order. */
  function Distinct<T(==)>(s: seq<T>): (d: seq<T>)
    ensures NoDuplicates(d)
    ensures Elements(d) == Elements(s)
    ensures |d| <= |s|
  {
    if s == [] then []
    else
      var d := Distinct(s[..|s| - 1]);
      var x := s[|s| - 1];
      ElementsAppend(s[..|s| - 1], x);
      ElementsAppend(d, x);
      if x in d then d else d + [x]
  }

  lemma ElementsAppend<T>(s: seq<T>, x: T)
    ensures Elements(s + [x]) == Elements(s) + {x}
  {
    assert forall y :: y in s + [x] <==> y in s || y == x;
  }

  lemma DistinctMember<T>(s: seq<T>, x: T)
    ensures x in Distinct(s) <==> x in s
  {
    assert x in Distinct(s) <==> x in Elements(Distinct(s));
  }

  /** A list that already has no repeats is its own de-duplicated view. */
  lemma {:induction false} DistinctOfDistinct<T>(s: seq<T>)
    requires NoDuplicates(s)
    ensures Distinct(s) == s
  {
    if s != [] {
      var init := s[..|s| - 1];
      assert NoDuplicates(init);
      DistinctOfDistinct(init);
      assert s[|s| - 1] !in init;
      assert init + [s[|s| - 1]] == s;
    }
  }

  /** De-duplicating twice is de-duplicating once. */
  lemma DistinctIdempotent<T>(s: seq<T>)
    ensures Distinct(Distinct(s)) == Distinct(s)
  {
    DistinctOfDistinct(Distinct(s));
  }

  /** Appending a value already present leaves the view alone; a new one goes last. */
  lemma DistinctAppend<T>(s: seq<T>, x: T)
    ensures x in s ==> Distinct(s + [x]) == Distinct(s)
    ensures x !in s ==> Distinct(s + [x]) == Distinct(s) + [x]
  {
    var t := s + [x];
    assert t[..|t| - 1] == s;
    assert t[|t| - 1] == x;
    assert x in s <==> x in Elements(Distinct(s));
  }

  /** The first element of the view is the first element of the list. */
  lemma {:induction false} DistinctKeepsFirst<T>(s: seq<T>)
    requires s != []
    ensures Distinct(s) != [] && Distinct(s)[0] == s[0]
  {
    if |s| > 1 {
      var init := s[..|s| - 1];
      DistinctKeepsFirst(init);
      assert init[0] == s[0];
    }
  }

  /**
   * The de-duplicated view of every value of a map: the loop over `keySet()`
   * that copies each list into a fresh LinkedHashSet.
   */
  method DistinctValues<K(==), V(==)>(m: map<K, seq<V>>) returns (r: map<K, seq<V>>)
    ensures r.Keys == m.Keys
    ensures forall k :: k in r ==> NoDuplicates(r[k]) && Elements(r[k]) == Elements(m[k])
    ensures forall k :: k in r ==> r[k] == Distinct(m[k])
  {
    r := map[];
    var todo := m.Keys;
    while todo != {}
      invariant todo <= m.Keys
      invariant r.Keys == m.Keys - todo
      invariant forall k :: k in r ==> r[k] == Distinct(m[k])
      decreases todo
    {
      var k :| k in todo;
      r := r[k := Distinct(m[k])];
      todo := todo - {k};
    }
  }
}
