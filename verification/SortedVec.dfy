/** Association vectors kept strictly sorted by key, and the binary search that reads them. */
module SortedVec {
  import opened Types

  ghost predicate Sorted<V>(s: seq<(Id, V)>) {
    forall i, j :: 0 <= i < j < |s| ==> s[i].0 < s[j].0
  }

  /** The position a binary search for k ends at: the first entry whose key is not below k. */
  function LowerBound<V>(s: seq<(Id, V)>, k: Id): (p: nat)
    ensures p <= |s|
    ensures forall i :: 0 <= i < p ==> s[i].0 < k
    ensures p < |s| ==> k <= s[p].0
  {
    if |s| == 0 || k <= s[0].0 then 0 else 1 + LowerBound(s[1..], k)
  }

  predicate Has<V>(s: seq<(Id, V)>, k: Id) {
    var p := LowerBound(s, k);
    p < |s| && s[p].0 == k
  }

  function Get<V>(s: seq<(Id, V)>, k: Id): Option<V> {
    var p := LowerBound(s, k);
    if p < |s| && s[p].0 == k then Some(s[p].1) else None
  }

  function Insert<V>(s: seq<(Id, V)>, k: Id, v: V): seq<(Id, V)> {
    var p := LowerBound(s, k);
    s[..p] + [(k, v)] + s[p..]
  }

  /** The standard library's binary search, proved to land on LowerBound. */
  method BinarySearch<V>(s: seq<(Id, V)>, k: Id) returns (found: bool, pos: nat)
    requires Sorted(s)
    ensures pos == LowerBound(s, k)
    ensures found == Has(s, k)
  {
    var lo, hi := 0, |s|;
    while lo < hi
      invariant 0 <= lo <= hi <= |s|
      invariant forall i :: 0 <= i < lo ==> s[i].0 < k
      invariant forall i :: hi <= i < |s| ==> k <= s[i].0
    {
      var mid := lo + (hi - lo) / 2;
      if s[mid].0 < k {
        lo := mid + 1;
      } else {
        hi := mid;
      }
    }
    pos := lo;
    found := pos < |s| && s[pos].0 == k;
  }

  lemma GetAt<V>(s: seq<(Id, V)>, i: nat)
    requires Sorted(s) && i < |s|
    ensures Get(s, s[i].0) == Some(s[i].1)
    ensures LowerBound(s, s[i].0) == i
  {
  }

  /** Two sorted vectors with the same keys put every key in the same place. */
  lemma SameKeys<V, W>(s: seq<(Id, V)>, t: seq<(Id, W)>, k: Id)
    requires Sorted(s) && |s| == |t|
    requires forall i :: 0 <= i < |s| ==> s[i].0 == t[i].0
    ensures Sorted(t) && LowerBound(s, k) == LowerBound(t, k)
  {
  }

  lemma InsertKeepsSorted<V>(s: seq<(Id, V)>, k: Id, v: V)
    requires Sorted(s) && !Has(s, k)
    ensures Sorted(Insert(s, k, v))
  {
  }

  lemma GetInserted<V>(s: seq<(Id, V)>, k: Id, v: V, q: Id)
    requires Sorted(s) && !Has(s, k)
    ensures Get(Insert(s, k, v), q) == if q == k then Some(v) else Get(s, q)
  {
    InsertKeepsSorted(s, k, v);
    var p, t := LowerBound(s, k), Insert(s, k, v);
    if q == k {
      GetAt(t, p);
    } else if Has(s, q) {
      var i := LowerBound(s, q);
      GetAt(t, if i < p then i else i + 1);
    } else if Has(t, q) {
      var i := LowerBound(t, q);
      GetAt(s, if i < p then i else i - 1);
    }
  }

  lemma GetUpdated<V>(s: seq<(Id, V)>, i: nat, v: V, q: Id)
    requires Sorted(s) && i < |s|
    ensures Sorted(s[i := (s[i].0, v)])
    ensures Get(s[i := (s[i].0, v)], q) == if q == s[i].0 then Some(v) else Get(s, q)
  {
    var t := s[i := (s[i].0, v)];
    SameKeys(s, t, q);
    GetAt(s, i);
    GetAt(t, i);
  }
}
