/**
 The pub table: one row per pub, as loaded from the data file. Only the
 columns the query layer computes with are kept.
 */
module Pubs {

  datatype Pub = Pub(name: string, localAuthority: string, postcode: string)

  /** The `name` column. */
  function Names(t: seq<Pub>): seq<string> {
    seq(|t|, i requires 0 <= i < |t| => t[i].name)
  }

  /** The `local_authority` column. */
  function Authorities(t: seq<Pub>): seq<string> {
    seq(|t|, i requires 0 <= i < |t| => t[i].localAuthority)
  }

  /** The `postcode` column. */
  function Postcodes(t: seq<Pub>): seq<string> {
    seq(|t|, i requires 0 <= i < |t| => t[i].postcode)
  }
}
