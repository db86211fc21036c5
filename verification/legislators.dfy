/**
 * `LegislatorLookupHandler.read`: a legislator's identity and one session
 * per term-of-service row stored for their bioguide id. The rows are what
 * the directory lookup returned for that id, in its order.
 */
module Legislators {
  import opened Values

  /** One stored `Legislator` row: identity columns and one term of service. */
  datatype Row = Row(
    prefix: string, first: string, last: string, suffix: string,
    position: string, party: string, state: string, congress: int)

  /** `{'position', 'party', 'state', 'congress'}`. */
  datatype Session = Session(position: string, party: string, state: string, congress: int)

  /** `{'bioguide_id', 'prefix', 'first', 'last', 'suffix', 'sessions'}`. */
  datatype Legislator = Legislator(
    bioguideId: string, prefix: string, first: string, last: string, suffix: string,
    sessions: seq<Session>)

  /** The three outcomes: `{}` for a missing id, a 404 for no rows, or the legislator. */
  datatype Lookup = NoId | NotFound | Found(legislator: Legislator)

  function SessionOf(row: Row): Session
  {
    Session(row.position, row.party, row.state, row.congress)
  }

  /**
   * `read`: an absent or empty `bioguide_id` answers `{}` whatever is
   * stored; no rows is a 404; otherwise the identity comes from the first
   * row and there is one session per row, each from its own row, in order.
   */
  method LookupLegislator(bioguideId: Option<string>, rows: seq<Row>) returns (r: Lookup)
    ensures (bioguideId == None || bioguideId == Some("")) <==> r == NoId
    ensures r == NotFound <==> bioguideId.Some? && bioguideId.value != "" && rows == []
    ensures r.Found? ==>
      && r.legislator.bioguideId == bioguideId.value
      && r.legislator.prefix == rows[0].prefix && r.legislator.first == rows[0].first
      && r.legislator.last == rows[0].last && r.legislator.suffix == rows[0].suffix
      && |r.legislator.sessions| == |rows|
      && forall k :: 0 <= k < |rows| ==> r.legislator.sessions[k] == SessionOf(rows[k])
  {
    if bioguideId == None || bioguideId.value == "" {
      return NoId;
    }
    if rows == [] {
      return NotFound;
    }
    var first := rows[0];
    var sessions: seq<Session> := [];
    for i := 0 to |rows|
      invariant |sessions| == i
      invariant forall k :: 0 <= k < i ==> sessions[k] == SessionOf(rows[k])
    {
      var row := rows[i];
      sessions := sessions + [Session(row.position, row.party, row.state, row.congress)];
    }
    r := Found(Legislator(bioguideId.value, first.prefix, first.first, first.last, first.suffix, sessions));
  }
}
