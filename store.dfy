/** The rate state kept by the `useTRM` hook (client/src/hooks/useTRM.ts)
    and its `refresh` transitions. */
module RateStore {
  import opened Rates
  import opened Gateway

  const UnknownError := "Error desconocido"

  /** The message `refresh` stores for a rejection: the `Error`'s own
      message, or "Error desconocido" for anything else thrown. */
  function ErrorMessage(reason: Thrown): (m: string)
    ensures reason.ErrorObject? ==> m == reason.message
    ensures reason.OtherValue? ==> m == UnknownError
  {
    match reason
    case ErrorObject(message) => message
    case OtherValue => UnknownError
  }

  /** `TRMState`: the latest record, the recent series, and the loading and
      error flags shown by the page. */
  class TrmState {
    var current: Option<RateRecord>
    var historical: seq<RateRecord>
    var loading: bool
    var error: Option<string>

    /** An error is only ever shown once loading has stopped. */
    ghost predicate NoErrorWhileLoading()
      reads this
    {
      loading ==> error == None
    }

    /** The initial state: nothing loaded yet, loading. */
    constructor ()
      ensures NoErrorWhileLoading()
      ensures current == None && historical == [] && loading && error == None
    {
      current := None;
      historical := [];
      loading := true;
      error := None;
    }

    /** The first `setState` of `refresh`: loading, error cleared, the data
      kept as it is. */
    method BeginRefresh()
      modifies this
      ensures NoErrorWhileLoading()
      ensures loading && error == None
      ensures current == old(current) && historical == old(historical)
    {
      loading := true;
      error := None;
    }

    /** The second `setState` of `refresh`, once the joined fetch settles: a
      resolution replaces the whole state; a rejection keeps the data and
      records the message. */
    method SettleRefresh(outcome: Settled<Snapshot>)
      modifies this
      ensures NoErrorWhileLoading()
      ensures !loading
      ensures outcome.Resolved? ==>
        current == outcome.value.current && historical == outcome.value.historical && error == None
      ensures outcome.Threw? ==>
        current == old(current) && historical == old(historical) && error == Some(ErrorMessage(outcome.reason))
    {
      match outcome {
        case Resolved(snapshot) =>
          current := snapshot.current;
          historical := snapshot.historical;
          loading := false;
          error := None;
        case Threw(reason) =>
          loading := false;
          error := Some(ErrorMessage(reason));
      }
    }

    /** `refresh` as a whole, with the two replies and the order in which
      rejections settle as inputs. */
    method Refresh(currentReply: Reply, historicalReply: Reply, currentSettlesFirst: bool)
      modifies this
      ensures NoErrorWhileLoading() && !loading
      ensures var outcome := JoinAll(FetchCurrent(currentReply), FetchHistorical(historicalReply), currentSettlesFirst);
        (outcome.Resolved? ==> current == outcome.value.current && historical == outcome.value.historical && error == None) &&
        (outcome.Threw? ==> current == old(current) && historical == old(historical) && error == Some(ErrorMessage(outcome.reason)))
    {
      BeginRefresh();
      var outcome := JoinAll(FetchCurrent(currentReply), FetchHistorical(historicalReply), currentSettlesFirst);
      SettleRefresh(outcome);
    }
  }

  /** A successful refresh stores exactly what the two queries returned:
      the first row of the latest-record query (or nothing for an empty
      reply) and the rows of the history query. */
  method RefreshStoresReplies(s: TrmState, cur: seq<RateRecord>, hist: seq<RateRecord>, order: bool)
    modifies s
    ensures s.current == FirstOrNull(cur) && s.historical == hist
    ensures s.error == None && !s.loading
  {
    s.Refresh(Reply(true, cur), Reply(true, hist), order);
  }

  /** A failed refresh after a successful one keeps the data of the
      successful one on display beside the error. */
  method StaleDataKept(s: TrmState, snapshot: Snapshot, reason: Thrown)
    modifies s
    ensures s.current == snapshot.current && s.historical == snapshot.historical
    ensures s.error == Some(ErrorMessage(reason)) && !s.loading
  {
    s.BeginRefresh();
    s.SettleRefresh(Resolved(snapshot));
    s.BeginRefresh();
    s.SettleRefresh(Threw(reason));
  }

  /** Nothing cancels a refresh: when two overlap and the older one settles
      last, its data replaces the newer data. */
  method OverlappingRefreshes(s: TrmState, older: Snapshot, newer: Snapshot)
    modifies s
    ensures s.current == older.current && s.historical == older.historical
  {
    s.BeginRefresh();
    s.BeginRefresh();
    s.SettleRefresh(Resolved(newer));
    s.SettleRefresh(Resolved(older));
  }
}
