/** Python's `sorted(xs, reverse=True)` on integers, as an insertion sort. */
module Sorting {

  predicate SortedDesc(s: seq<int>) {
    forall i, j :: 0 <= i < j < |s| ==> s[i] >= s[j]
  }

  predicate StrictlyDesc(s: seq<int>) {
    forall i, j :: 0 <= i < j < |s| ==> s[i] > s[j]
  }

  /** Putting a value no smaller than the head in front keeps the order. */
  lemma PrependSorted(x: int, s: seq<int>)
    requires SortedDesc(s) && (s == [] || x >= s[0])
    ensures SortedDesc([x] + s)
  {
    var r := [x] + s;
    forall i, j | 0 <= i < j < |r| ensures r[i] >= r[j] {
      if i == 0 && j > 1 {
        assert s[0] >= s[j - 1];
      }
    }
  }

  /** Places x in front of the first element it is not smaller than. */
  function Insert(x: int, s: seq<int>): (r: seq<int>)
    requires SortedDesc(s)
    ensures SortedDesc(r)
    ensures multiset(r) == multiset(s) + multiset{x}
    ensures |r| == |s| + 1
  {
    if s == [] || x >= s[0] then
      PrependSorted(x, s);
      [x] + s
    else
      var rest := s[1..];
      assert s == [s[0]] + rest;
      var tail := Insert(x, rest);
      assert s[0] >= tail[0] by {
        assert tail[0] in multiset(tail);
        if tail[0] != x {
          assert tail[0] in rest;
        }
      }
      PrependSorted(s[0], tail);
      [s[0]] + tail
  }

  /** The elements of s in descending order. */
  function SortDesc(s: seq<int>): (r: seq<int>)
    ensures SortedDesc(r)
    ensures multiset(r) == multiset(s)
    ensures |r| == |s|
  {
    if s == [] then []
    else
      assert s == [s[0]] + s[1..];
      Insert(s[0], SortDesc(s[1..]))
  }

  /** The head of a descending sequence is its largest value. */
  lemma HeadIsMax(a: seq<int>, v: int)
    requires SortedDesc(a) && v in multiset(a)
    ensures a[0] >= v
  {
    var i :| 0 <= i < |a| && a[i] == v;
  }

  lemma TailMultiset(a: seq<int>)
    requires a != []
    ensures multiset(a[1..]) == multiset(a) - multiset{a[0]}
  {
    assert a == [a[0]] + a[1..];
  }

  /** Two descending arrangements of one multiset start alike. */
  lemma SameHead(a: seq<int>, b: seq<int>)
    requires SortedDesc(a) && SortedDesc(b) && multiset(a) == multiset(b) && a != []
    ensures b != [] && a[0] == b[0] && multiset(a[1..]) == multiset(b[1..])
  {
    assert a[0] in multiset(b);
    HeadIsMax(a, b[0]);
    HeadIsMax(b, a[0]);
    TailMultiset(a);
    TailMultiset(b);
  }

  lemma SortedTail(a: seq<int>)
    requires SortedDesc(a) && a != []
    ensures SortedDesc(a[1..])
  {
  }

  /** There is only one descending arrangement of a multiset. */
  lemma {:induction false} SortedUnique(a: seq<int>, b: seq<int>)
    requires SortedDesc(a) && SortedDesc(b)
    requires multiset(a) == multiset(b)
    ensures a == b
    decreases |a|
  {
    if a == [] {
      assert |b| == |multiset(b)| == 0;
    } else {
      SameHead(a, b);
      SortedTail(a);
      SortedTail(b);
      SortedUnique(a[1..], b[1..]);
      assert a == [a[0]] + a[1..] == [b[0]] + b[1..] == b;
    }
  }

  /** Sorting an already descending sequence changes nothing. */
  lemma SortDescOfSorted(s: seq<int>)
    requires SortedDesc(s)
    ensures SortDesc(s) == s
  {
    SortedUnique(SortDesc(s), s);
  }

  /** In a strictly descending sequence every value occurs at most once. */
  lemma {:induction false} StrictlyDescOnce(s: seq<int>, v: int)
    requires StrictlyDesc(s)
    ensures multiset(s)[v] <= 1
  {
    if s != [] {
      assert s == [s[0]] + s[1..];
      assert s[0] !in s[1..];
      StrictlyDescOnce(s[1..], v);
    }
  }
}
