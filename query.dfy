/** The tail flag: `query and query['tail'] and query['tail'][0] == '1'`
    over the map that `parse_qs` returns. */
module TailQuery {
  import opened Errors

  /** What `parse_qs` returns: each key with the list of its values. */
  type Query = map<string, seq<string>>

  const TAIL_KEY: string := "tail"

  /** Python's `and` on the parsed query: an empty map is false, a missing
      `tail` key raises `KeyError`, an empty list is false, and otherwise the
      first value is compared with `'1'`. */
  function TailFlag(query: Query): (r: Result<bool>)
    ensures r == Ok(true) <==>
              |query| > 0 && TAIL_KEY in query && |query[TAIL_KEY]| > 0 && query[TAIL_KEY][0] == "1"
    ensures r.Err? <==> |query| > 0 && TAIL_KEY !in query
    ensures r.Err? ==> r.error == KeyError(TAIL_KEY)
  {
    if |query| == 0 then Ok(false)
    else if TAIL_KEY !in query then Err(KeyError(TAIL_KEY))
    else if |query[TAIL_KEY]| == 0 then Ok(false)
    else Ok(query[TAIL_KEY][0] == "1")
  }

  /** A query without parameters never asks for tailing and never fails;
      one with other parameters only fails. */
  lemma QueryWithoutTail(other: string)
    requires other != TAIL_KEY
    ensures TailFlag(map[]) == Ok(false)
    ensures TailFlag(map[other := ["1"]]) == Err(KeyError(TAIL_KEY))
  {
    var q := map[other := ["1"]];
    assert other in q;
  }

  /** Only the first value counts: `tail=1&tail=0` tails, `tail=0&tail=1` does not. */
  lemma FirstValueDecides()
    ensures TailFlag(map[TAIL_KEY := ["1", "0"]]) == Ok(true)
    ensures TailFlag(map[TAIL_KEY := ["0", "1"]]) == Ok(false)
  {
    assert TAIL_KEY in map[TAIL_KEY := ["1", "0"]];
    assert TAIL_KEY in map[TAIL_KEY := ["0", "1"]];
  }
}
