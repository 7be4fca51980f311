/**
 * The event-listing request helpers (api/events/request_parsing.py): the time
 * interval `EventInterval`, defaulted from the optional `start`/`end` arguments and
 * checked before use, and `_resolve_category`, which turns a category id or tag
 * keyword into a category.
 */
module EventRequests {
  import opened Wrappers
  import opened Calendar
  import opened Events

  /** `max_interval`: one hundred days. */
  const MaxInterval: int := 100 * SecondsPerDay

  /** The optional `start` and `end` arguments, already converted to local time. */
  datatype Request = Request(start: Option<DateTime>, end: Option<DateTime>)

  predicate ValidRequest(req: Request) {
    (req.start.Some? ==> ValidDateTime(req.start.value)) &&
    (req.end.Some? ==> ValidDateTime(req.end.value))
  }

  /** `abort(code, message=...)`. */
  datatype Abort = Abort(code: int, message: string)

  /**
   * The interval before validation: a missing start is the first of today's month,
   * or of the month before the end's month when an end is given; a missing end is
   * one month after the start's date, at midnight.
   */
  function Bounds(req: Request, today: Date): (b: (DateTime, DateTime))
    requires ValidRequest(req) && ValidDate(today)
    ensures ValidDateTime(b.0) && ValidDateTime(b.1)
    ensures req.start.Some? ==> b.0 == req.start.value
    ensures req.end.Some? ==> b.1 == req.end.value
    ensures req.end.None? ==> b.1 == Midnight(AddMonths(b.0.date, 1))
  {
    var start :=
      if req.start.Some? then req.start.value
      else if req.end.None? then Midnight(FirstOfMonth(today))
      else Midnight(FirstOfPreviousMonth(req.end.value.date));
    var end := if req.end.Some? then req.end.value else Midnight(AddMonths(start.date, 1));
    (start, end)
  }

  /** `EventInterval._parse`: the bounds, or the 400 abort of the first check that fails. */
  function ParseInterval(req: Request, today: Date): (r: Result<(DateTime, DateTime), Abort>)
    requires ValidRequest(req) && ValidDate(today)
    ensures var (start, end) := Bounds(req, today);
            (Seconds(end) < Seconds(start) ==> r == Err(Abort(400, "start cannot be before end!"))) &&
            (Seconds(start) <= Seconds(end) && Seconds(end) - Seconds(start) > MaxInterval ==>
               r == Err(Abort(400, "time interval too wide"))) &&
            (Seconds(start) <= Seconds(end) <= Seconds(start) + MaxInterval ==> r == Ok((start, end)))
  {
    var (start, end) := Bounds(req, today);
    if Seconds(end) < Seconds(start) then Err(Abort(400, "start cannot be before end!"))
    else if Seconds(end) - Seconds(start) > MaxInterval then Err(Abort(400, "time interval too wide"))
    else Ok((start, end))
  }

  /** Every interval accepted is ordered and at most one hundred days long. */
  lemma AcceptedIntervalBounded(req: Request, today: Date)
    requires ValidRequest(req) && ValidDate(today)
    ensures ParseInterval(req, today).Ok? ==>
              var (start, end) := ParseInterval(req, today).value;
              ValidDateTime(start) && ValidDateTime(end) &&
              0 <= Seconds(end) - Seconds(start) <= MaxInterval
  {
  }

  /** With neither bound the interval is today's calendar month, and it is accepted. */
  lemma {:induction false} NeitherBoundGiven(today: Date)
    requires ValidDate(today)
    ensures var first := FirstOfMonth(today);
            ParseInterval(Request(None, None), today) ==
              Ok((Midnight(first), Midnight(AddMonths(first, 1))))
  {
    var first := FirstOfMonth(today);
    MonthLength(first);
  }

  /** With only an end, the interval starts on the first of the previous month and is accepted. */
  lemma {:induction false} OnlyEndGiven(end: DateTime, today: Date)
    requires ValidDateTime(end) && ValidDate(today)
    ensures ParseInterval(Request(None, Some(end)), today) ==
              Ok((Midnight(FirstOfPreviousMonth(end.date)), end))
  {
    PreviousMonthDistance(end.date);
  }

  /** With only a start, the interval ends at midnight one month after its date and is accepted. */
  lemma {:induction false} OnlyStartGiven(start: DateTime, today: Date)
    requires ValidDateTime(start) && ValidDate(today)
    ensures ParseInterval(Request(Some(start), None), today) ==
              Ok((start, Midnight(AddMonths(start.date, 1))))
  {
    NextMonthDistance(start.date);
  }

  /** Given bounds are kept; the two validations alone decide, and exactly one hundred days passes. */
  lemma BothBoundsGiven(start: DateTime, end: DateTime, today: Date)
    requires ValidDateTime(start) && ValidDateTime(end) && ValidDate(today)
    ensures var r := ParseInterval(Request(Some(start), Some(end)), today);
            (r.Ok? <==> Seconds(start) <= Seconds(end) <= Seconds(start) + MaxInterval) &&
            (r.Ok? ==> r.value == (start, end))
  {
  }

  /** `EventInterval`: the bounds, parsed on first access and kept afterwards. */
  class EventInterval {
    var start: Option<DateTime>
    var end: Option<DateTime>

    /** Both bounds are set by the same parse. */
    predicate Valid()
      reads this
    {
      start.Some? <==> end.Some?
    }

    constructor ()
      ensures Valid() && start.None? && end.None?
    {
      start := None;
      end := None;
    }

    /** `_parse`: stores both bounds, or aborts and stores nothing. */
    method Parse(req: Request, today: Date) returns (r: Result<(), Abort>)
      requires Valid() && ValidRequest(req) && ValidDate(today)
      modifies this
      ensures Valid()
      ensures var p := ParseInterval(req, today);
              (p.Ok? ==> r.Ok? && start == Some(p.value.0) && end == Some(p.value.1)) &&
              (p.Err? ==> r == Err(p.error) && start == old(start) && end == old(end))
    {
      var p := ParseInterval(req, today);
      if p.Err? {
        return Err(p.error);
      }
      start, end := Some(p.value.0), Some(p.value.1);
      return Ok(());
    }

    /** The `start` property: parses when no start is stored yet. */
    method Start(req: Request, today: Date) returns (r: Result<DateTime, Abort>)
      requires Valid() && ValidRequest(req) && ValidDate(today)
      modifies this
      ensures Valid()
      ensures old(start).Some? ==> r == Ok(old(start).value) && start == old(start) && end == old(end)
      ensures old(start).None? && ParseInterval(req, today).Ok? ==>
                r == Ok(ParseInterval(req, today).value.0) &&
                start == Some(ParseInterval(req, today).value.0) &&
                end == Some(ParseInterval(req, today).value.1)
      ensures old(start).None? && ParseInterval(req, today).Err? ==>
                r == Err(ParseInterval(req, today).error) && start.None? && end.None?
    {
      if start.None? {
        var p := Parse(req, today);
        if p.Err? {
          return Err(p.error);
        }
      }
      return Ok(start.value);
    }

    /** The `end` property: parses when no end is stored yet. */
    method End(req: Request, today: Date) returns (r: Result<DateTime, Abort>)
      requires Valid() && ValidRequest(req) && ValidDate(today)
      modifies this
      ensures Valid()
      ensures old(end).Some? ==> r == Ok(old(end).value) && start == old(start) && end == old(end)
      ensures old(end).None? && ParseInterval(req, today).Ok? ==>
                r == Ok(ParseInterval(req, today).value.1) &&
                start == Some(ParseInterval(req, today).value.0) &&
                end == Some(ParseInterval(req, today).value.1)
      ensures old(end).None? && ParseInterval(req, today).Err? ==>
                r == Err(ParseInterval(req, today).error) && start.None? && end.None?
    {
      if end.None? {
        var p := Parse(req, today);
        if p.Err? {
          return Err(p.error);
        }
      }
      return Ok(end.value);
    }
  }

  // ---------------------------------------------------------------- categories

  /** A keyword argument's value: an `int` or a `str` route parameter. */
  datatype Arg = IntArg(i: int) | TextArg(s: string)

  const CategoryIdKey: string := "category_id"
  const CategoryTagKey: string := "category_tag"

  /** `by_id` on an argument: a string is never a registered id. */
  function CategoryOfId(reg: Registry, a: Arg): (c: Category)
    reads reg
    ensures a.IntArg? ==> c == reg.ById(a.i)
    ensures a.TextArg? ==> c == Unknown()
  {
    if a.IntArg? then reg.ById(a.i) else Unknown()
  }

  /** `by_tag` on an argument: an integer is never a registered tag. */
  function CategoryOfTag(reg: Registry, a: Arg): (c: Category)
    reads reg
    ensures a.TextArg? ==> c == reg.ByTag(a.s)
    ensures a.IntArg? ==> c == Unknown()
  {
    if a.TextArg? then reg.ByTag(a.s) else Unknown()
  }

  /**
   * `_resolve_category`: the category handed to the wrapped handler and the keyword
   * arguments left for it. A `category_id` is looked up and consumed first; otherwise
   * a `category_tag`; with neither, the category is `None`.
   */
  function ResolveCategory(reg: Registry, kwargs: map<string, Arg>): (r: (Option<Category>, map<string, Arg>))
    reads reg
    ensures CategoryIdKey in kwargs ==>
              r.0 == Some(CategoryOfId(reg, kwargs[CategoryIdKey])) && r.1 == kwargs - {CategoryIdKey}
    ensures CategoryIdKey !in kwargs && CategoryTagKey in kwargs ==>
              r.0 == Some(CategoryOfTag(reg, kwargs[CategoryTagKey])) && r.1 == kwargs - {CategoryTagKey}
    ensures CategoryIdKey !in kwargs && CategoryTagKey !in kwargs ==> r == (None, kwargs)
  {
    if CategoryIdKey in kwargs then
      (Some(CategoryOfId(reg, kwargs[CategoryIdKey])), kwargs - {CategoryIdKey})
    else if CategoryTagKey in kwargs then
      (Some(CategoryOfTag(reg, kwargs[CategoryTagKey])), kwargs - {CategoryTagKey})
    else (None, kwargs)
  }

  /**
   * An id wins over a tag: with both present the tag's value is irrelevant and the
   * tag is passed on untouched; at most one keyword is ever consumed.
   */
  lemma IdTakesPrecedence(reg: Registry, kwargs: map<string, Arg>, other: Arg)
    requires CategoryIdKey in kwargs && CategoryTagKey in kwargs
    ensures ResolveCategory(reg, kwargs).0 == ResolveCategory(reg, kwargs[CategoryTagKey := other]).0
    ensures CategoryTagKey in ResolveCategory(reg, kwargs).1
    ensures ResolveCategory(reg, kwargs).1[CategoryTagKey] == kwargs[CategoryTagKey]
  {
    assert CategoryIdKey != CategoryTagKey;
  }

  /** Every keyword other than the consumed one reaches the handler unchanged. */
  lemma OtherKeywordsKept(reg: Registry, kwargs: map<string, Arg>, k: string)
    requires k != CategoryIdKey && k != CategoryTagKey && k in kwargs
    ensures k in ResolveCategory(reg, kwargs).1 && ResolveCategory(reg, kwargs).1[k] == kwargs[k]
    ensures ResolveCategory(reg, kwargs).1.Keys <= kwargs.Keys
  {
  }
}
