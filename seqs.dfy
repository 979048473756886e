/**
 Sequence facts shared by the query layer: duplicate-free sequences,
 first-occurrence de-duplication, sums and occurrence tallies.
 */
module Seqs {

  /** No element occurs twice in `s`. */
  predicate NoDup<T(==)>(s: seq<T>) {
    forall i, j :: 0 <= i < j < |s| ==> s[i] != s[j]
  }

  /** A duplicate-free sequence holds each of its elements exactly once. */
  lemma NoDupOnce<T>(s: seq<T>, x: T)
    requires NoDup(s) && x in s
    ensures multiset(s)[x] == 1
  {
    var k :| 0 <= k < |s| && s[k] == x;
    assert s == s[..k] + [x] + s[k + 1..];
    assert x !in s[..k] && x !in s[k + 1..];
  }

  /** The distinct elements of `s`, in the order of their first occurrence:
      `s` is scanned left to right and an element is appended only when it
      has not been seen before. */
  function Dedup<T(==,!new)>(s: seq<T>): (d: seq<T>)
    ensures NoDup(d)
    ensures forall x :: x in d <==> x in s
    ensures |d| <= |s|
  {
    if s == [] then []
    else
      var init, last := s[..|s| - 1], s[|s| - 1];
      assert s == init + [last];
      var d' := Dedup(init);
      if last in d' then d' else d' + [last]
  }

  /** Position of the first occurrence of `x` in `s`. */
  function IndexOf<T(==)>(s: seq<T>, x: T): (i: nat)
    requires x in s
    ensures i < |s| && s[i] == x && x !in s[..i]
  {
    if s[0] == x then 0
    else
      var i := 1 + IndexOf(s[1..], x);
      assert s[..i] == [s[0]] + s[1..][..i - 1];
      i
  }

  lemma {:induction false} IndexOfAppend<T>(s: seq<T>, y: T, x: T)
    requires x in s
    ensures IndexOf(s + [y], x) == IndexOf(s, x)
  {
    if s[0] != x {
      assert (s + [y])[1..] == s[1..] + [y];
      IndexOfAppend(s[1..], y, x);
    }
  }

  /** Dedup keeps first occurrences in order: an element listed earlier in
      `Dedup(s)` first occurs earlier in `s`. */
  lemma {:induction false} DedupFirstOccurrenceOrder<T(!new)>(s: seq<T>, i: int, j: int)
    requires 0 <= i < j < |Dedup(s)|
    ensures IndexOf(s, Dedup(s)[i]) < IndexOf(s, Dedup(s)[j])
  {
    var init, last := s[..|s| - 1], s[|s| - 1];
    assert s == init + [last];
    var d' := Dedup(init);
    var d := Dedup(s);
    assert d[i] in init by { assert d[i] in d'; }
    IndexOfAppend(init, last, d[i]);
    if j < |d'| {
      IndexOfAppend(init, last, d[j]);
      DedupFirstOccurrenceOrder(init, i, j);
    } else {
      // d[j] is `last`, which does not occur in `init`
      assert d[j] == last && last !in init;
      assert IndexOf(s, last) == |init|;
    }
  }

  /** The number of distinct elements of `s` is the length of `Dedup(s)`. */
  lemma {:induction false} DedupCard<T(!new)>(s: seq<T>)
    ensures |Dedup(s)| == |set x | x in s|
  {
    if s != [] {
      var init, last := s[..|s| - 1], s[|s| - 1];
      assert s == init + [last];
      DedupCard(init);
      var before, after := set x | x in init, set x | x in s;
      assert after == before + {last};
      if last in init {
        assert last in before && after == before;
        assert Dedup(s) == Dedup(init);
      } else {
        assert last !in before && |after| == |before| + 1;
        assert Dedup(s) == Dedup(init) + [last];
      }
    }
  }

  /** A duplicate-free sequence has as many distinct elements as entries. */
  lemma {:induction false} NoDupCard<T>(s: seq<T>)
    requires NoDup(s)
    ensures |set x | x in s| == |s|
  {
    if s != [] {
      var init, last := s[..|s| - 1], s[|s| - 1];
      assert s == init + [last];
      assert NoDup(init);
      NoDupCard(init);
      assert (set x | x in s) == (set x | x in init) + {last};
      assert last !in init;
    }
  }

  function Sum(xs: seq<nat>): nat {
    if xs == [] then 0 else xs[0] + Sum(xs[1..])
  }

  lemma {:induction false} SumAppend(a: seq<nat>, b: seq<nat>)
    ensures Sum(a + b) == Sum(a) + Sum(b)
  {
    if a == [] {
      assert a + b == b;
    } else {
      assert (a + b)[1..] == a[1..] + b;
      SumAppend(a[1..], b);
    }
  }

  /** For each key, the number of times it occurs in `s`. */
  function Tally<T(==)>(s: seq<T>, keys: seq<T>): seq<nat> {
    seq(|keys|, i requires 0 <= i < |keys| => multiset(s)[keys[i]])
  }

  /** One more entry `y` in `s` raises the summed tally by the number of
      times `y` is a key. */
  lemma {:induction false} TallyGrow<T>(s: seq<T>, y: T, keys: seq<T>)
    ensures Sum(Tally(s + [y], keys)) == Sum(Tally(s, keys)) + multiset(keys)[y]
  {
    if keys != [] {
      assert keys == [keys[0]] + keys[1..];
      assert Tally(s + [y], keys)[1..] == Tally(s + [y], keys[1..]);
      assert Tally(s, keys)[1..] == Tally(s, keys[1..]);
      TallyGrow(s, y, keys[1..]);
    }
  }

  /** Tallying every distinct element of `s` accounts for every entry of `s`. */
  lemma {:induction false} TallyDedupSum<T(!new)>(s: seq<T>)
    ensures Sum(Tally(s, Dedup(s))) == |s|
  {
    if s == [] {
    } else {
      var init, last := s[..|s| - 1], s[|s| - 1];
      assert s == init + [last];
      var d' := Dedup(init);
      TallyDedupSum(init);
      TallyGrow(init, last, d');
      if last in d' {
        NoDupOnce(d', last);
      } else {
        assert Tally(s, d' + [last]) == Tally(s, d') + [multiset(s)[last]];
        SumAppend(Tally(s, d'), [multiset(s)[last]]);
        assert multiset(init)[last] == 0;
      }
    }
  }
}
