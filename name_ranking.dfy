/**
 The most frequent pub names: `value_counts()` on the name column, cut to
 the first `numPubs` entries (the bar chart of popular pubs).
 */
module NameRanking {
  import opened Pubs
  import opened Seqs

  /** What `count_names` hands to the bar chart: the names, their counts,
      and the names again as a plain list (`cord`). */
  datatype Ranking = Ranking(names: seq<string>, counts: seq<nat>, cord: seq<string>)

  /** Number of rows called `x`. */
  function NameCount(t: seq<Pub>, x: string): nat {
    multiset(Names(t))[x]
  }

  ghost predicate SortedByCount(t: seq<Pub>, names: seq<string>) {
    forall i, j :: 0 <= i < j < |names| ==> NameCount(t, names[i]) >= NameCount(t, names[j])
  }

  /** Places `x` after every name counted at least as often, so that names
      of equal count keep the order in which they were inserted. */
  function InsertByCount(t: seq<Pub>, x: string, names: seq<string>): (r: seq<string>)
    requires SortedByCount(t, names)
    ensures SortedByCount(t, r)
    ensures |r| == |names| + 1
    ensures forall y :: y in r <==> y == x || y in names
    ensures multiset(r) == multiset(names) + multiset{x}
  {
    if names == [] || NameCount(t, x) > NameCount(t, names[0]) then [x] + names
    else
      var rest := InsertByCount(t, x, names[1..]);
      forall j | 0 <= j < |rest|
        ensures NameCount(t, rest[j]) <= NameCount(t, names[0])
      {
        assert rest[j] in rest;
        if rest[j] != x {
          assert rest[j] in names[1..];
          var k :| 0 <= k < |names| - 1 && names[1..][k] == rest[j];
          assert names[k + 1] == rest[j];
        }
      }
      assert names == [names[0]] + names[1..];
      [names[0]] + rest
  }

  lemma {:induction false} InsertByCountNoDup(t: seq<Pub>, x: string, names: seq<string>)
    requires SortedByCount(t, names) && NoDup(names) && x !in names
    ensures NoDup(InsertByCount(t, x, names))
  {
    if !(names == [] || NameCount(t, x) > NameCount(t, names[0])) {
      assert NoDup(names[1..]) && names[0] !in names[1..];
      InsertByCountNoDup(t, x, names[1..]);
    }
  }

  lemma {:induction false} InsertByCountSum(t: seq<Pub>, x: string, names: seq<string>)
    requires SortedByCount(t, names)
    ensures Sum(Tally(Names(t), InsertByCount(t, x, names))) == NameCount(t, x) + Sum(Tally(Names(t), names))
  {
    var r := InsertByCount(t, x, names);
    if names == [] || NameCount(t, x) > NameCount(t, names[0]) {
      assert Tally(Names(t), r)[1..] == Tally(Names(t), names);
    } else {
      InsertByCountSum(t, x, names[1..]);
      assert Tally(Names(t), r)[1..] == Tally(Names(t), r[1..]);
      assert Tally(Names(t), names)[1..] == Tally(Names(t), names[1..]);
    }
  }

  /** A stable sort of `names` by decreasing count. */
  function SortByCount(t: seq<Pub>, names: seq<string>): (r: seq<string>)
    ensures SortedByCount(t, r)
    ensures |r| == |names|
    ensures forall y :: y in r <==> y in names
    ensures multiset(r) == multiset(names)
    ensures NoDup(names) ==> NoDup(r)
    ensures Sum(Tally(Names(t), r)) == Sum(Tally(Names(t), names))
  {
    if names == [] then []
    else
      var init, last := names[..|names| - 1], names[|names| - 1];
      assert names == init + [last];
      assert NoDup(names) ==> NoDup(init) && last !in init;
      assert Tally(Names(t), names) == Tally(Names(t), init) + [NameCount(t, last)];
      SumAppend(Tally(Names(t), init), [NameCount(t, last)]);
      var sortedInit := SortByCount(t, init);
      InsertByCountSum(t, last, sortedInit);
      if NoDup(names) then
        InsertByCountNoDup(t, last, sortedInit);
        InsertByCount(t, last, sortedInit)
      else
        InsertByCount(t, last, sortedInit)
  }

  /** The distinct names with their counts, most frequent first. */
  function ValueCounts(t: seq<Pub>): (r: seq<string>)
    ensures SortedByCount(t, r)
    ensures NoDup(r)
    ensures forall x :: x in r <==> x in Names(t)
    ensures |r| == |set x | x in Names(t)|
    ensures Sum(Tally(Names(t), r)) == |t|
  {
    DedupCard(Names(t));
    TallyDedupSum(Names(t));
    SortByCount(t, Dedup(Names(t)))
  }

  function Min(a: nat, b: nat): nat {
    if a <= b then a else b
  }

  /** The first k entries of a duplicate-free ranking of the names, sorted
      by count, are themselves duplicate-free, sorted and names of the table,
      and every name left out counts no more than the last one kept. */
  lemma TopOfRanking(t: seq<Pub>, ranked: seq<string>, k: nat)
    requires SortedByCount(t, ranked) && NoDup(ranked)
    requires forall x :: x in ranked <==> x in Names(t)
    requires k <= |ranked|
    ensures NoDup(ranked[..k]) && SortedByCount(t, ranked[..k])
    ensures forall i :: 0 <= i < k ==> ranked[..k][i] in Names(t)
    ensures forall x :: x in Names(t) && x !in ranked[..k] && k > 0 ==> NameCount(t, x) <= NameCount(t, ranked[..k][k - 1])
  {
  }

  /** `count_names(data, numPubs)`: the `numPubs` most frequent names (all
      of them if there are fewer), each with its number of rows, in
      non-increasing order of count; no name left out is more frequent than
      the last one shown, and when every name is shown the counts add up to
      the number of rows. */
  function CountNames(t: seq<Pub>, numPubs: nat): (r: Ranking)
    ensures |r.names| == |r.counts| == Min(numPubs, |set x | x in Names(t)|)
    ensures NoDup(r.names) && r.cord == r.names
    ensures forall i :: 0 <= i < |r.names| ==> r.names[i] in Names(t) && r.counts[i] == NameCount(t, r.names[i])
    ensures forall i, j :: 0 <= i < j < |r.counts| ==> r.counts[i] >= r.counts[j]
    ensures forall x :: x in Names(t) && x !in r.names && r.counts != [] ==>
              NameCount(t, x) <= r.counts[|r.counts| - 1]
    ensures numPubs >= |set x | x in Names(t)| ==> Sum(r.counts) == |t|
  {
    var ranked := ValueCounts(t);
    var k := Min(numPubs, |ranked|);
    var names := ranked[..k];
    TopOfRanking(t, ranked, k);
    assert k == |ranked| ==> names == ranked;
    Ranking(names, Tally(Names(t), names), names)
  }
}
