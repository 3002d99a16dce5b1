/** sort.Strings: ordering sequences of byte strings. */
module Sorting {
  import opened Text

  predicate Sorted(s: seq<Str>)
  {
    forall i, j | 0 <= i < j < |s| :: Below(s[i], s[j])
  }

  /** Sorted with no repeated element. */
  predicate StrictlySorted(s: seq<Str>)
  {
    forall i, j | 0 <= i < j < |s| :: Below(s[i], s[j]) && s[i] != s[j]
  }

  function Insert(x: Str, s: seq<Str>): (r: seq<Str>)
    requires Sorted(s)
    ensures Sorted(r) && multiset(r) == multiset(s) + multiset{x}
  {
    if |s| == 0 then [x]
    else if Below(x, s[0]) then
      assert forall j | 0 < j < |s| :: Below(x, s[j]) by {
        forall j | 0 < j < |s| ensures Below(x, s[j]) { BelowTransitive(x, s[0], s[j]); }
      }
      [x] + s
    else
      BelowTotal(x, s[0]);
      var t := Insert(x, s[1..]);
      assert s == [s[0]] + s[1..];
      assert forall k | 0 <= k < |t| :: Below(s[0], t[k]) by {
        forall k | 0 <= k < |t| ensures Below(s[0], t[k]) {
          assert t[k] in multiset(t);
          if t[k] != x {
            assert t[k] in multiset(s[1..]);
            var j :| 0 <= j < |s[1..]| && s[1..][j] == t[k];
            assert s[j + 1] == t[k];
          }
        }
      }
      [s[0]] + t
  }

  /** The sorted permutation of s (insertion sort). */
  function SortSeq(s: seq<Str>): (r: seq<Str>)
    ensures Sorted(r) && multiset(r) == multiset(s)
  {
    if |s| == 0 then []
    else
      assert s == [s[0]] + s[1..];
      Insert(s[0], SortSeq(s[1..]))
  }

  /** A sorted sequence is determined by its multiset of elements. */
  lemma {:induction false} SortedUnique(a: seq<Str>, b: seq<Str>)
    requires Sorted(a) && Sorted(b) && multiset(a) == multiset(b)
    ensures a == b
    decreases |a|
  {
    assert |a| == |multiset(a)| == |multiset(b)| == |b|;
    if |a| > 0 {
      SortedHeads(a, b);
      DropHead(a);
      DropHead(b);
      SortedUnique(a[1..], b[1..]);
      assert a == [a[0]] + a[1..] && b == [b[0]] + b[1..];
    }
  }

  /** Two sorted sequences with the same elements start with the same element. */
  lemma SortedHeads(a: seq<Str>, b: seq<Str>)
    requires Sorted(a) && Sorted(b) && multiset(a) == multiset(b) && |a| > 0 && |b| > 0
    ensures a[0] == b[0]
  {
    assert a[0] in multiset(b) && b[0] in multiset(a);
    var i :| 0 <= i < |b| && b[i] == a[0];
    var j :| 0 <= j < |a| && a[j] == b[0];
    assert Below(b[0], a[0]) by { if i == 0 { BelowReflexive(b[0]); } }
    assert Below(a[0], b[0]) by { if j == 0 { BelowReflexive(a[0]); } }
    BelowAntisymmetric(a[0], b[0]);
  }

  lemma DropHead(a: seq<Str>)
    requires |a| > 0
    ensures multiset(a[1..]) == multiset(a) - multiset{a[0]}
  {
    assert a == [a[0]] + a[1..];
    assert multiset(a) == multiset{a[0]} + multiset(a[1..]);
  }

  /** Sorting a sorted sequence changes nothing. */
  lemma SortSorted(s: seq<Str>)
    requires Sorted(s)
    ensures SortSeq(s) == s
  {
    SortedUnique(SortSeq(s), s);
  }

  /** sort.Strings, in place: insertion sort by adjacent swaps. */
  method SortStrings(a: array<Str>)
    modifies a
    ensures a[..] == SortSeq(old(a[..]))
  {
    var i := 0;
    while i < a.Length
      invariant 0 <= i <= a.Length
      invariant Sorted(a[..i])
      invariant multiset(a[..]) == multiset(old(a[..]))
    {
      Sink(a, i);
      i := i + 1;
    }
    assert a[..a.Length] == a[..];
    SortedUnique(a[..], SortSeq(old(a[..])));
  }

  /** Moves a[i] left past every larger element, so that a[..i+1] becomes sorted; the
      elements after a[i] stay where they are. */
  method Sink(a: array<Str>, i: nat)
    requires i < a.Length && Sorted(a[..i])
    modifies a
    ensures Sorted(a[..i + 1])
    ensures multiset(a[..]) == multiset(old(a[..]))
    ensures a[i + 1..] == old(a[i + 1..])
  {
    var j := i;
    while j > 0 && !Below(a[j - 1], a[j])
      invariant 0 <= j <= i
      invariant multiset(a[..]) == multiset(old(a[..]))
      invariant a[i + 1..] == old(a[i + 1..])
      invariant forall p, q | 0 <= p < q <= i && p != j && q != j :: Below(a[p], a[q])
      invariant forall q | j < q <= i :: Below(a[j], a[q])
    {
      BelowTotal(a[j - 1], a[j]);
      Swap(a, j);
      j := j - 1;
    }
    forall p, q | 0 <= p < q <= i
      ensures Below(a[p], a[q])
    {
      if q == j && p < j - 1 {
        BelowTransitive(a[p], a[j - 1], a[j]);
      }
    }
  }

  /** Exchanges a[j - 1] and a[j]. */
  method Swap(a: array<Str>, j: nat)
    requires 0 < j < a.Length
    modifies a
    ensures a[..] == old(a[..])[j - 1 := old(a[j])][j := old(a[j - 1])]
    ensures multiset(a[..]) == multiset(old(a[..]))
  {
    a[j - 1], a[j] := a[j], a[j - 1];
  }

  /** The least element of a set of strings. */
  predicate IsLeast(m: Str, ks: set<Str>)
  {
    m in ks && forall x | x in ks :: Below(m, x)
  }

  lemma {:induction false} LeastExists(ks: set<Str>)
    requires ks != {}
    ensures exists m :: IsLeast(m, ks)
    decreases |ks|
  {
    var x :| x in ks;
    if ks - {x} == {} {
      assert ks == {x};
      BelowReflexive(x);
      assert IsLeast(x, ks);
    } else {
      LeastExists(ks - {x});
      var m :| IsLeast(m, ks - {x});
      BelowTotal(m, x);
      if Below(m, x) {
        assert IsLeast(m, ks);
      } else {
        forall y | y in ks ensures Below(x, y) {
          if y == x { BelowReflexive(x); } else { BelowTransitive(x, m, y); }
        }
        assert IsLeast(x, ks);
      }
    }
  }

  lemma LeastUnique(ks: set<Str>)
    ensures forall m, n | IsLeast(m, ks) && IsLeast(n, ks) :: m == n
  {
    forall m, n | IsLeast(m, ks) && IsLeast(n, ks) ensures m == n {
      BelowAntisymmetric(m, n);
    }
  }

  /** The keys of a map in the order sort.Strings puts them. */
  function SortedKeys(ks: set<Str>): (r: seq<Str>)
    ensures StrictlySorted(r)
    ensures forall k :: k in r <==> k in ks
    decreases |ks|
  {
    if ks == {} then []
    else
      LeastExists(ks);
      LeastUnique(ks);
      var m :| IsLeast(m, ks);
      var rest := SortedKeys(ks - {m});
      assert forall k | k in rest :: Below(m, k) && m != k;
      [m] + rest
  }

  /** Sorting keeps every element, so a byte absent from all elements stays absent. */
  lemma SortSeqAvoids(s: seq<Str>, d: byte)
    requires forall i | 0 <= i < |s| :: d !in s[i]
    ensures forall i | 0 <= i < |SortSeq(s)| :: d !in SortSeq(s)[i]
  {
    var r := SortSeq(s);
    forall i | 0 <= i < |r| ensures d !in r[i] {
      assert r[i] in multiset(s);
      var j :| 0 <= j < |s| && s[j] == r[i];
    }
  }
}
