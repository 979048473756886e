/**
 Small worked tables for the three chart views.
 */
module Scenarios {
  import opened Pubs
  import opened Authority
  import opened NameRanking
  import opened PostcodeSearch

  /** A table with two pubs in Camden and one in Westminster: counting per
      authority gives [2, 1], and a repeated authority gets a repeated
      count. */
  lemma CamdenWestminsterCounts(t: seq<Pub>)
    requires Authorities(t) == ["Camden", "Camden", "Westminster"]
    ensures AuthorityCounter(["Camden", "Westminster"], t) == [2, 1]
    ensures AuthorityCounter(["Camden", "Camden"], t) == [2, 2]
  {
  }

  /** Selecting Westminster in that table keeps only its one pub. */
  lemma WestminsterSelection(t: seq<Pub>)
    requires Authorities(t) == ["Camden", "Camden", "Westminster"]
    ensures AuthorityFilter(t, ["Westminster"]) == [t[2]]
  {
    var la := Authorities(t);
    assert la[0] == t[0].localAuthority == "Camden";
    assert la[1] == t[1].localAuthority == "Camden";
    assert la[2] == t[2].localAuthority == "Westminster";
    assert t[1..][1..][1..] == [];
    assert AuthorityFilter(t[2..], ["Westminster"]) == [t[2]];
    assert AuthorityFilter(t[1..], ["Westminster"]) == [t[2]];
  }

  lemma RedLionCounts(t: seq<Pub>)
    requires Names(t) == ["Red Lion", "Red Lion", "Crown"]
    ensures NameCount(t, "Red Lion") == 2 && NameCount(t, "Crown") == 1
    ensures |set x | x in Names(t)| == 2
  {
    var m := multiset(Names(t));
    assert m["Red Lion"] == 2;
    assert m["Crown"] == 1;
    assert (set x | x in Names(t)) == {"Red Lion", "Crown"};
  }

  /** A table named ["Red Lion", "Red Lion", "Crown"]: the top name is Red
      Lion, counted twice. */
  lemma RedLionTopName(t: seq<Pub>)
    requires Names(t) == ["Red Lion", "Red Lion", "Crown"]
    ensures CountNames(t, 1) == Ranking(["Red Lion"], [2], ["Red Lion"])
  {
    RedLionCounts(t);
    var r := CountNames(t, 1);
    assert |r.names| == 1 && r.names[0] in Names(t);
    assert "Red Lion" in Names(t);
  }

  /** Postcodes ["AB1 2CD", "AB1 2CD", "XY9 8ZT"] and search "AB1": the two
      equal postcodes are counted once. */
  lemma {:induction false} DuplicatePostcodesCollapse()
    ensures var t := [Pub("Crown", "Camden", "AB1 2CD"), Pub("Swan", "Camden", "AB1 2CD"),
                      Pub("Bell", "Leeds", "XY9 8ZT")];
      DistinctMatches(t, "AB1") == 1
  {
    var t := [Pub("Crown", "Camden", "AB1 2CD"), Pub("Swan", "Camden", "AB1 2CD"),
              Pub("Bell", "Leeds", "XY9 8ZT")];
    assert Postcodes(t) == ["AB1 2CD", "AB1 2CD", "XY9 8ZT"];
    assert OccursAt("AB1 2CD", "AB1", 0);
    assert !Contains("XY9 8ZT", "AB1") by {
      forall i | 0 <= i <= |"XY9 8ZT"|
        ensures !OccursAt("XY9 8ZT", "AB1", i)
      {
        if i + 3 <= 7 {
          assert "XY9 8ZT"[i..i + 3][0] == "XY9 8ZT"[i];
        }
      }
    }
    assert (set p | p in Postcodes(t) && Contains(p, "AB1")) == {"AB1 2CD"};
  }
}
