/**
 Selecting pubs by local authority and counting them per authority
 (the pie-chart view and the single-city table).
 */
module Authority {
  import opened Pubs
  import opened Seqs

  /** The rows whose local authority is one of `chosen`, in table order:
      the boolean-mask selection `df.loc[df['local_authority'].isin(chosen)]`. */
  function AuthorityFilter(t: seq<Pub>, chosen: seq<string>): (r: seq<Pub>)
    ensures |r| <= |t|
    ensures forall p :: p in r ==> p in t && p.localAuthority in chosen
    ensures chosen == [] ==> r == []
  {
    if t == [] then []
    else (if t[0].localAuthority in chosen then [t[0]] else []) + AuthorityFilter(t[1..], chosen)
  }

  /** Each row is kept exactly as often as it occurs in the table if its
      authority is chosen, and dropped otherwise; rows are not altered. */
  lemma {:induction false} AuthorityFilterSelects(t: seq<Pub>, chosen: seq<string>, p: Pub)
    ensures multiset(AuthorityFilter(t, chosen))[p] == if p.localAuthority in chosen then multiset(t)[p] else 0
  {
    if t != [] {
      assert t == [t[0]] + t[1..];
      AuthorityFilterSelects(t[1..], chosen, p);
    }
  }

  lemma {:induction false} AuthorityFilterAppend(a: seq<Pub>, b: seq<Pub>, chosen: seq<string>)
    ensures AuthorityFilter(a + b, chosen) == AuthorityFilter(a, chosen) + AuthorityFilter(b, chosen)
  {
    if a == [] {
      assert a + b == b;
    } else {
      assert (a + b)[1..] == a[1..] + b;
      AuthorityFilterAppend(a[1..], b, chosen);
    }
  }

  /** Order is preserved: a selected row t[i] lands at the position given by
      the number of rows selected before it, so selected rows keep their
      relative order. */
  lemma AuthorityFilterKeepsOrder(t: seq<Pub>, chosen: seq<string>, i: int)
    requires 0 <= i < |t| && t[i].localAuthority in chosen
    ensures |AuthorityFilter(t[..i], chosen)| < |AuthorityFilter(t, chosen)|
    ensures AuthorityFilter(t, chosen)[|AuthorityFilter(t[..i], chosen)|] == t[i]
  {
    assert t == t[..i] + t[i..];
    AuthorityFilterAppend(t[..i], t[i..], chosen);
  }

  /** Selected rows further down the table are selected after earlier ones. */
  lemma AuthorityFilterPositionsIncrease(t: seq<Pub>, chosen: seq<string>, i: int, j: int)
    requires 0 <= i < j <= |t| && t[i].localAuthority in chosen
    ensures |AuthorityFilter(t[..i], chosen)| < |AuthorityFilter(t[..j], chosen)|
  {
    assert t[..j] == t[..i] + t[i..j];
    AuthorityFilterAppend(t[..i], t[i..j], chosen);
  }

  /** The number of pubs in authority `a`: `df.loc[...isin([a])].shape[0]`. */
  function CountAuthority(t: seq<Pub>, a: string): nat {
    |AuthorityFilter(t, [a])|
  }

  /** Counting through the filter agrees with the number of rows whose
      authority is `a`. */
  lemma {:induction false} CountAuthorityIsOccurrences(t: seq<Pub>, a: string)
    ensures CountAuthority(t, a) == multiset(Authorities(t))[a]
  {
    if t != [] {
      assert Authorities(t) == [t[0].localAuthority] + Authorities(t[1..]);
      CountAuthorityIsOccurrences(t[1..], a);
    }
  }

  /** One count per requested authority, in request order (a repeated
      authority gets a repeated entry): entry i is the number of rows whose
      authority is authorities[i]. */
  function AuthorityCounter(authorities: seq<string>, t: seq<Pub>): (r: seq<nat>)
    ensures |r| == |authorities|
    ensures forall i :: 0 <= i < |r| ==> r[i] == multiset(Authorities(t))[authorities[i]]
  {
    if authorities == [] then []
    else
      CountAuthorityIsOccurrences(t, authorities[0]);
      [CountAuthority(t, authorities[0])] + AuthorityCounter(authorities[1..], t)
  }

  /** Restricting to the authority `a` after restricting to a list holding
      `a` is the same as restricting to `a` at once. */
  lemma {:induction false} AuthorityFilterTwice(t: seq<Pub>, chosen: seq<string>, a: string)
    requires a in chosen
    ensures AuthorityFilter(AuthorityFilter(t, chosen), [a]) == AuthorityFilter(t, [a])
  {
    if t != [] {
      var head := if t[0].localAuthority in chosen then [t[0]] else [];
      var kept := if t[0].localAuthority == a then [t[0]] else [];
      assert AuthorityFilter(t, chosen) == head + AuthorityFilter(t[1..], chosen);
      assert AuthorityFilter(head, [a]) == kept by {
        if head != [] {
          assert head[1..] == [];
        }
      }
      assert AuthorityFilter(t, [a]) == kept + AuthorityFilter(t[1..], [a]);
      AuthorityFilterAppend(head, AuthorityFilter(t[1..], chosen), [a]);
      AuthorityFilterTwice(t[1..], chosen, a);
    }
  }

  /** The pie chart counts on the already filtered table; this gives the
      same counts as counting on the whole table. */
  lemma CountOnFilteredTable(authorities: seq<string>, t: seq<Pub>)
    ensures AuthorityCounter(authorities, AuthorityFilter(t, authorities)) == AuthorityCounter(authorities, t)
  {
    var filtered := AuthorityFilter(t, authorities);
    forall i | 0 <= i < |authorities|
      ensures AuthorityCounter(authorities, filtered)[i] == AuthorityCounter(authorities, t)[i]
    {
      AuthorityFilterTwice(t, authorities, authorities[i]);
      CountAuthorityIsOccurrences(filtered, authorities[i]);
      CountAuthorityIsOccurrences(t, authorities[i]);
    }
  }

  /** Rows of two disjoint authority lists are counted separately. */
  lemma {:induction false} AuthorityFilterSplit(t: seq<Pub>, a: string, rest: seq<string>)
    requires a !in rest
    ensures |AuthorityFilter(t, [a] + rest)| == |AuthorityFilter(t, [a])| + |AuthorityFilter(t, rest)|
  {
    if t != [] {
      AuthorityFilterSplit(t[1..], a, rest);
    }
  }

  /** For a list without repeats, the counts add up to the number of rows
      the filter selects. */
  lemma {:induction false} CountsSumToFiltered(authorities: seq<string>, t: seq<Pub>)
    requires NoDup(authorities)
    ensures Sum(AuthorityCounter(authorities, t)) == |AuthorityFilter(t, authorities)|
  {
    if authorities != [] {
      var a, rest := authorities[0], authorities[1..];
      assert authorities == [a] + rest;
      assert NoDup(rest);
      CountsSumToFiltered(rest, t);
      AuthorityFilterSplit(t, a, rest);
    }
  }
}
