/** The date lookup of the page (client/src/components/DateSelector.tsx):
    the calendar's enabled days, the lookup state and its transitions, and
    the comparison of the found rate with today's. */
module DateSelector {
  import opened Rates
  import opened Gateway
  import opened Metrics

  /** A calendar day. */
  datatype Date = Date(year: int, month: int, day: int)

  /** Calendar order. */
  predicate Before(a: Date, b: Date) {
    a.year < b.year ||
    (a.year == b.year && (a.month < b.month || (a.month == b.month && a.day < b.day)))
  }

  /** The first day of the published series. */
  const FirstDay := Date(1991, 1, 1)

  /** The calendar disables days after today and days before 1991-01-01,
      so the days that can be picked are exactly those from 1991-01-01 to
      today, both included. */
  predicate Disabled(date: Date, today: Date): (disabled: bool)
    ensures !disabled <==>
      (date == FirstDay || Before(FirstDay, date)) && (date == today || Before(date, today))
  {
    Before(today, date) || Before(date, FirstDay)
  }

  const NoDataMessage := "No se encontró TRM para esta fecha. Es posible que sea un día no hábil."
  const LookupFailureMessage := "Error al consultar la TRM. Intente nuevamente."

  /** The component's state. */
  class DateLookup {
    var selectedDate: Option<Date>
    var isOpen: bool
    var loading: bool
    var result: Option<RateRecord>
    var error: Option<string>

    constructor ()
      ensures selectedDate == None && !isOpen && !loading && result == None && error == None
    {
      selectedDate := None;
      isOpen := false;
      loading := false;
      result := None;
      error := None;
    }

    /** `handleDateSelect` up to the `await`: the date is recorded and the
      picker closed; clearing the date clears the result and stops there,
      otherwise the lookup starts with the error cleared. */
    method BeginSelect(date: Option<Date>) returns (started: bool)
      modifies this
      ensures started <==> date.Some?
      ensures selectedDate == date && !isOpen
      ensures date.None? ==> result == None && loading == old(loading) && error == old(error)
      ensures date.Some? ==> loading && error == None && result == old(result)
    {
      selectedDate := date;
      isOpen := false;
      if date.None? {
        result := None;
        return false;
      }
      loading := true;
      error := None;
      started := true;
    }

    /** `handleDateSelect` after the `await`: a record becomes the result;
      null means no rate was published for that day; an exception is a
      failed lookup. `finally` stops the loading in every case. */
    method SettleSelect(fetched: Settled<Option<RateRecord>>)
      modifies this
      ensures !loading
      ensures selectedDate == old(selectedDate) && isOpen == old(isOpen)
      ensures fetched.Resolved? && fetched.value.Some? ==> result == fetched.value && error == old(error)
      ensures fetched.Resolved? && fetched.value.None? ==> result == None && error == Some(NoDataMessage)
      ensures fetched.Threw? ==> result == None && error == Some(LookupFailureMessage)
    {
      match fetched {
        case Resolved(Some(record)) =>
          result := Some(record);
        case Resolved(None) =>
          error := Some(NoDataMessage);
          result := None;
        case Threw(_) =>
          error := Some(LookupFailureMessage);
          result := None;
      }
      loading := false;
    }

    /** `handleDateSelect` as a whole, with the reply of the by-date query
      as input. */
    method SelectDate(date: Option<Date>, reply: Reply)
      modifies this
      ensures selectedDate == date && !isOpen
      ensures date.None? ==> result == None && loading == old(loading) && error == old(error)
      ensures date.Some? ==> !loading && LookupState(result, error) == Lookup(FetchByDate(reply))
      ensures date.Some? && FetchByDate(reply) == Resolved(None) ==> result == None && error == Some(NoDataMessage)
      ensures date.Some? && FetchByDate(reply).Threw? ==> result == None && error == Some(LookupFailureMessage)
      ensures date.Some? && FetchByDate(reply).Resolved? && FetchByDate(reply).value.Some? ==>
        result == FetchByDate(reply).value && error == None
    {
      var started := BeginSelect(date);
      if started {
        SettleSelect(FetchByDate(reply));
      }
    }

    /** `handleClear`: forgets the date, the result and the error; the
      loading flag is left alone. */
    method HandleClear()
      modifies this
      ensures selectedDate == None && result == None && error == None
      ensures loading == old(loading) && isOpen == old(isOpen)
    {
      selectedDate := None;
      result := None;
      error := None;
    }
  }

  /** What the component shows below the picker: the result card and the
      error message are rendered independently, so both can be on screen. */
  datatype Shown =
    | ShowRecord(record: RateRecord)
    | ShowMessage(message: string)
    | ShowBoth(record: RateRecord, message: string)
    | ShowNothing

  function LookupState(result: Option<RateRecord>, error: Option<string>): Shown {
    match (result, error)
    case (Some(r), None) => ShowRecord(r)
    case (None, Some(m)) => ShowMessage(m)
    case (Some(r), Some(m)) => ShowBoth(r, m)
    case (None, None) => ShowNothing
  }

  /** What a settled lookup shows: the record alone when one was found, the
      no-data message for a day without a rate, the failure message when the
      query failed; never nothing, and never a record beside a message. */
  function Lookup(fetched: Settled<Option<RateRecord>>): (s: Shown)
    ensures s != ShowNothing && !s.ShowBoth?
    ensures fetched.Resolved? && fetched.value.Some? ==> s == ShowRecord(fetched.value.value)
    ensures s.ShowMessage? && s.message == NoDataMessage <==> fetched == Resolved(None)
    ensures s.ShowMessage? && s.message == LookupFailureMessage <==> fetched.Threw?
  {
    match fetched
    case Resolved(Some(record)) => ShowRecord(record)
    case Resolved(None) => ShowMessage(NoDataMessage)
    case Threw(_) => ShowMessage(LookupFailureMessage)
  }

  /** The comparison of the looked-up rate with today's: the difference,
      its percentage of today's rate (0 when today's rate is 0), and the
      direction of the difference. With no result the looked-up value is 0. */
  function Comparison(result: Option<RateRecord>, currentTrm: real): (c: Change)
    ensures result.None? ==> c.value == -currentTrm
    ensures currentTrm == 0.0 ==> c.percentage == 0.0
    ensures c == CalculateChange(if result.Some? then result.value.valor else 0.0, currentTrm)
  {
    var resultValue := if result.Some? then result.value.valor else 0.0;
    var change := resultValue - currentTrm;
    var changePercent := if currentTrm != 0.0 then change / currentTrm * 100.0 else 0.0;
    Change(change, changePercent, DirectionOf(change))
  }

  /** Nothing orders two overlapping lookups: if the first day's query
      answers null after the second one started, and the second then finds
      a record, the component holds a result and the no-data message at
      once. */
  method OverlappingLookups(c: DateLookup, first: Date, second: Date, record: RateRecord)
    modifies c
    ensures c.selectedDate == Some(second)
    ensures c.result == Some(record) && c.error == Some(NoDataMessage) && !c.loading
    ensures LookupState(c.result, c.error) == ShowBoth(record, NoDataMessage)
  {
    var started := c.BeginSelect(Some(first));
    started := c.BeginSelect(Some(second));
    c.SettleSelect(Resolved(None));
    c.SettleSelect(Resolved(Some(record)));
  }
}
