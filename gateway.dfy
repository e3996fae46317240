/** The outcomes of the four dataset queries of client/src/hooks/useTRM.ts
    (`fetchCurrentTRM`, `fetchHistoricalTRM`, `fetchTRMByDate`,
    `fetchTRMRange`) and of the `Promise.all` join in `refresh`. The HTTP
    request itself is a parameter: a reply with its `ok` flag and the decoded
    rows, or an exception thrown by `fetch` or by the JSON decoding. */
module Gateway {
  import opened Rates

  /** A value thrown in JavaScript: an `Error` with its message, or anything
      else. */
  datatype Thrown = ErrorObject(message: string) | OtherValue

  /** How an awaited promise settles. */
  datatype Settled<+T> = Resolved(value: T) | Threw(reason: Thrown)

  /** What the HTTP layer gives a query. */
  datatype Reply = Reply(ok: bool, rows: seq<RateRecord>) | Failed(reason: Thrown)

  const CurrentFailure := "Error al obtener la TRM actual"
  const HistoricalFailure := "Error al obtener el histórico"
  const ByDateFailure := "Error al obtener la TRM para la fecha"
  const RangeFailure := "Error al obtener el rango de TRM"

  /** `data[0] || null`: the first row, or null for an empty list. */
  function FirstOrNull(rows: seq<RateRecord>): (r: Option<RateRecord>)
    ensures r == None <==> rows == []
    ensures r.Some? ==> r.value == rows[0]
  {
    if rows == [] then None else Some(rows[0])
  }

  /** A query answering a list: a failed transport rethrows, a reply that is
      not `ok` throws an `Error` with the query's message. */
  function ListQuery(reply: Reply, failure: string): (s: Settled<seq<RateRecord>>)
    ensures reply.Failed? ==> s == Threw(reply.reason)
    ensures reply.Reply? && !reply.ok ==> s == Threw(ErrorObject(failure))
    ensures reply.Reply? && reply.ok ==> s == Resolved(reply.rows)
  {
    match reply
    case Failed(reason) => Threw(reason)
    case Reply(ok, rows) => if ok then Resolved(rows) else Threw(ErrorObject(failure))
  }

  /** A query answering one record or null. */
  function FirstQuery(reply: Reply, failure: string): (s: Settled<Option<RateRecord>>)
    ensures s.Threw? <==> ListQuery(reply, failure).Threw?
    ensures s.Threw? ==> s.reason == ListQuery(reply, failure).reason
    ensures s.Resolved? ==> s.value == FirstOrNull(reply.rows)
  {
    match ListQuery(reply, failure)
    case Threw(reason) => Threw(reason)
    case Resolved(rows) => Resolved(FirstOrNull(rows))
  }

  /** `fetchCurrentTRM`: the newest record, or null when the dataset
      answers no rows. */
  function FetchCurrent(reply: Reply): (s: Settled<Option<RateRecord>>)
    ensures reply.Reply? && !reply.ok ==> s == Threw(ErrorObject(CurrentFailure))
    ensures reply.Reply? && reply.ok ==> s == Resolved(FirstOrNull(reply.rows))
    ensures reply.Failed? ==> s == Threw(reply.reason)
  {
    FirstQuery(reply, CurrentFailure)
  }

  /** `fetchHistoricalTRM`: the rows as answered. */
  function FetchHistorical(reply: Reply): (s: Settled<seq<RateRecord>>)
    ensures reply.Reply? && !reply.ok ==> s == Threw(ErrorObject(HistoricalFailure))
    ensures reply.Reply? && reply.ok ==> s == Resolved(reply.rows)
    ensures reply.Failed? ==> s == Threw(reply.reason)
  {
    ListQuery(reply, HistoricalFailure)
  }

  /** `fetchTRMByDate`: the record whose validity covers the day, or null
      for a day with no published rate; null is an answer, not a failure. */
  function FetchByDate(reply: Reply): (s: Settled<Option<RateRecord>>)
    ensures reply.Reply? && !reply.ok ==> s == Threw(ErrorObject(ByDateFailure))
    ensures reply.Reply? && reply.ok ==> s == Resolved(FirstOrNull(reply.rows))
    ensures reply.Reply? && reply.ok && reply.rows == [] ==> s == Resolved(None)
    ensures reply.Failed? ==> s == Threw(reply.reason)
  {
    FirstQuery(reply, ByDateFailure)
  }

  /** `fetchTRMRange`: the rows as answered. */
  function FetchRange(reply: Reply): (s: Settled<seq<RateRecord>>)
    ensures reply.Reply? && !reply.ok ==> s == Threw(ErrorObject(RangeFailure))
    ensures reply.Reply? && reply.ok ==> s == Resolved(reply.rows)
    ensures reply.Failed? ==> s == Threw(reply.reason)
  {
    ListQuery(reply, RangeFailure)
  }

  /** The pair `refresh` awaits. */
  datatype Snapshot = Snapshot(current: Option<RateRecord>, historical: seq<RateRecord>)

  /** `Promise.all([current, historical])`: resolves with both values when
      both resolve; otherwise rejects with the reason of the rejection that
      settles first, which `currentSettlesFirst` says when both reject. */
  function JoinAll(current: Settled<Option<RateRecord>>, historical: Settled<seq<RateRecord>>,
                   currentSettlesFirst: bool): (s: Settled<Snapshot>)
    ensures s.Resolved? <==> current.Resolved? && historical.Resolved?
    ensures s.Resolved? ==> s.value == Snapshot(current.value, historical.value)
    ensures current.Threw? && historical.Resolved? ==> s == Threw(current.reason)
    ensures current.Resolved? && historical.Threw? ==> s == Threw(historical.reason)
    ensures s.Threw? ==> (current.Threw? && s.reason == current.reason) || (historical.Threw? && s.reason == historical.reason)
    ensures current.Threw? && historical.Threw? ==>
      s == Threw(if currentSettlesFirst then current.reason else historical.reason)
  {
    match (current, historical)
    case (Resolved(c), Resolved(h)) => Resolved(Snapshot(c, h))
    case (Threw(r), Resolved(_)) => Threw(r)
    case (Resolved(_), Threw(r)) => Threw(r)
    case (Threw(r1), Threw(r2)) => Threw(if currentSettlesFirst then r1 else r2)
  }

  /** A not-`ok` reply to either query of `refresh` rejects the join with
      that query's own message. */
  lemma RefreshFailureMessages(cur: Reply, hist: Reply, currentSettlesFirst: bool)
    requires cur.Reply? && !cur.ok
    requires hist.Reply? && !hist.ok
    ensures var s := JoinAll(FetchCurrent(cur), FetchHistorical(hist), currentSettlesFirst);
      s == Threw(ErrorObject(if currentSettlesFirst then CurrentFailure else HistoricalFailure))
  {
  }
}
