/**
 Counting the distinct postcodes that contain a search string (the postal
 code bar chart).
 */
module PostcodeSearch {
  import opened Pubs
  import opened Seqs

  /** Python's `code in s` on strings: `code` occurs in `s` as a contiguous
      substring (case-sensitive, anywhere in `s`). */
  predicate Contains(s: string, code: string) {
    exists i :: 0 <= i <= |s| && OccursAt(s, code, i)
  }

  /** `code` is found in `s` starting at position i. */
  predicate OccursAt(s: string, code: string, i: nat) {
    i + |code| <= |s| && s[i..i + |code|] == code
  }

  /** The empty search string occurs in every string. */
  lemma ContainsEmpty(s: string)
    ensures Contains(s, "")
  {
    assert OccursAt(s, "", 0);
  }

  /** `[s for s in codes if code in s]`. */
  function Matching(codes: seq<string>, code: string): (m: seq<string>)
    ensures forall s :: s in m <==> s in codes && Contains(s, code)
    ensures NoDup(codes) ==> NoDup(m)
  {
    if codes == [] then []
    else
      var rest := Matching(codes[1..], code);
      assert NoDup(codes) ==> NoDup(codes[1..]) && codes[0] !in rest;
      (if Contains(codes[0], code) then [codes[0]] else []) + rest
  }

  /** The number of distinct postcodes in the table that contain `code`. */
  function DistinctMatches(t: seq<Pub>, code: string): nat {
    |set p | p in Postcodes(t) && Contains(p, code)|
  }

  /** `count_postcodes(code, df)`: collects the distinct postcodes in order
      of first occurrence, keeps those containing `code`, and returns how
      many there are. */
  method CountPostcodes(code: string, t: seq<Pub>) returns (count: nat)
    ensures count == DistinctMatches(t, code)
  {
    var list: seq<string> := [];
    for ind := 0 to |t|
      invariant list == Dedup(Postcodes(t)[..ind])
    {
      assert Postcodes(t)[..ind + 1][..ind] == Postcodes(t)[..ind];
      if t[ind].postcode !in list {
        list := list + [t[ind].postcode];
      }
    }
    assert Postcodes(t)[..|t|] == Postcodes(t);
    var matches := Matching(list, code);
    count := |matches|;
    NoDupCard(matches);
    assert (set p | p in matches) == (set p | p in Postcodes(t) && Contains(p, code));
  }

  /** With an empty search string every distinct postcode matches. */
  lemma EmptyCodeCountsDistinct(t: seq<Pub>)
    ensures DistinctMatches(t, "") == |set p | p in Postcodes(t)|
  {
    forall p | p in Postcodes(t)
      ensures Contains(p, "")
    {
      ContainsEmpty(p);
    }
    assert (set p | p in Postcodes(t) && Contains(p, "")) == (set p | p in Postcodes(t));
  }

  /** No more postcodes match than there are rows. */
  lemma MatchesAtMostRows(t: seq<Pub>, code: string)
    ensures DistinctMatches(t, code) <= |t|
  {
    DedupCard(Postcodes(t));
    assert |Postcodes(t)| == |t|;
    var matching := set p | p in Postcodes(t) && Contains(p, code);
    var all := set p | p in Postcodes(t);
    assert all == matching + (all - matching);
  }

  /** Adding a row whose postcode is already in the table leaves the count
      unchanged: duplicates are collapsed before matching. */
  lemma DuplicateRowIgnored(t: seq<Pub>, row: Pub, code: string)
    requires row.postcode in Postcodes(t)
    ensures DistinctMatches(t + [row], code) == DistinctMatches(t, code)
  {
    assert Postcodes(t + [row]) == Postcodes(t) + [row.postcode];
    assert (set p | p in Postcodes(t + [row]) && Contains(p, code))
        == (set p | p in Postcodes(t) && Contains(p, code));
  }
}
