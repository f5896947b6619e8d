/** `slices.Sort` over the keys of a map: strictly increasing lists and the sets they list. */
module SortedKeys {
  predicate Increasing(s: seq<int>) {
    forall i, j :: 0 <= i < j < |s| ==> s[i] < s[j]
  }

  ghost function Elements(s: seq<int>): set<int> {
    set v | v in s
  }

  lemma {:induction false} IncreasingUnique(a: seq<int>, b: seq<int>)
    requires Increasing(a) && Increasing(b) && Elements(a) == Elements(b)
    ensures a == b
    decreases |a|
  {
    assert forall i :: 0 <= i < |a| ==> a[i] in Elements(b);
    assert forall i :: 0 <= i < |b| ==> b[i] in Elements(a);
    if a != [] {
      assert a[0] == b[0];
      TailElements(a);
      TailElements(b);
      IncreasingUnique(a[1..], b[1..]);
    }
  }

  lemma TailElements(a: seq<int>)
    requires a != [] && Increasing(a)
    ensures Elements(a[1..]) == Elements(a) - {a[0]}
  {
    forall v | v in Elements(a) && v != a[0]
      ensures v in Elements(a[1..])
    {
      var i :| 0 <= i < |a| && a[i] == v;
      assert a[1..][i - 1] == v;
    }
  }

  lemma AppendLargest(s: seq<int>, m: int)
    requires Increasing(s) && forall i :: 0 <= i < |s| ==> s[i] < m
    ensures Increasing(s + [m]) && Elements(s + [m]) == Elements(s) + {m}
  {
  }

  /** The keys between `lo` and `hi`, in order. */
  function SortKeys(keys: set<int>, lo: int, hi: int): (result: seq<int>)
    requires lo <= hi + 1
    ensures Increasing(result) && Elements(result) == set k | k in keys && lo <= k <= hi
    decreases hi - lo
  {
    if lo > hi then
      EmptyElements();
      []
    else
      var rest := SortKeys(keys, lo, hi - 1);
      assert forall i :: 0 <= i < |rest| ==> rest[i] in Elements(rest);
      if hi in keys then
        AppendLargest(rest, hi);
        rest + [hi]
      else rest
  }

  lemma EmptyElements()
    ensures Elements([]) == {}
  {
  }
}
