/** The upcoming-events view (components/UpcomingEvents.tsx): each parsed birthday and
    anniversary is moved to the current year and put in the bucket of its distance from
    today, in days: today, tomorrow, within a week, within a month. */
module UpcomingEvents {
  import opened Wrappers
  import opened Seqs
  import opened DateMath
  import opened Records

  /** `new Date(year, month - 1, day)` for the month and day of a real date: only 29 February
      can fall outside the target year's calendar, and JavaScript then rolls it to 1 March. */
  function EventDateThisYear(year: int, d: Date): (r: Date)
    requires ValidDate(d)
    ensures ValidDate(r) && r.year == year
    ensures !(d.month == 2 && d.day == 29 && !IsLeapYear(year)) ==> r == Date(year, d.month, d.day)
    ensures d.month == 2 && d.day == 29 && !IsLeapYear(year) ==> r == Date(year, 3, 1)
  {
    if d.day <= DaysInMonth(year, d.month) then Date(year, d.month, d.day)
    else Date(year, d.month + 1, d.day - DaysInMonth(year, d.month))
  }

  /** The day distance from today to an event (UpcomingEvents.tsx:58-59): both are local
      midnights, so the millisecond difference divided by a day is a whole number. */
  function DaysDiff(today: Date, event: Date): (n: int)
    requires ValidDate(today) && ValidDate(event)
    ensures n == 0 <==> event == today
    ensures n > 0 <==> Before(today, event)
  {
    DayNumberInjective(today, event);
    DayNumberOrder(today, event);
    DayNumber(event) - DayNumber(today)
  }

  datatype BucketName = Today | Tomorrow | ThisWeek | ThisMonth

  /** The bucket of a distance (UpcomingEvents.tsx:62-65); past events and events more than
      30 days ahead go nowhere. */
  function BucketOf(diff: int): (b: Option<BucketName>)
    ensures b == Some(Today) <==> diff == 0
    ensures b == Some(Tomorrow) <==> diff == 1
    ensures b == Some(ThisWeek) <==> 2 <= diff <= 7
    ensures b == Some(ThisMonth) <==> 8 <= diff <= 30
    ensures b == None <==> diff < 0 || diff > 30
  {
    if diff == 0 then Some(Today)
    else if diff == 1 then Some(Tomorrow)
    else if diff > 1 && diff <= 7 then Some(ThisWeek)
    else if diff > 7 && diff <= 30 then Some(ThisMonth)
    else None
  }

  /** One card: the devotee, the occasion and its date in the current year. */
  datatype Event = Event(devotee: Devotee, kind: OccasionType, eventDate: Date)

  /** The four lists the view shows. */
  datatype Categories = Categories(today: seq<Event>, tomorrow: seq<Event>, thisWeek: seq<Event>, thisMonth: seq<Event>)

  function Bucket(c: Categories, b: BucketName): seq<Event> {
    match b
    case Today => c.today
    case Tomorrow => c.tomorrow
    case ThisWeek => c.thisWeek
    case ThisMonth => c.thisMonth
  }

  /** Appending bucket by bucket. */
  function Join(c: Categories, e: Categories): (r: Categories)
    ensures forall b :: Bucket(r, b) == Bucket(c, b) + Bucket(e, b)
  {
    Categories(c.today + e.today, c.tomorrow + e.tomorrow, c.thisWeek + e.thisWeek, c.thisMonth + e.thisMonth)
  }

  const Empty := Categories([], [], [], [])

  /** The event an occasion date gives, when the stored text was a date. */
  function EventFrom(d: Devotee, kind: OccasionType, date: Option<Date>, today: Date): seq<Event>
    requires date.Some? ==> ValidDate(date.value)
  {
    match date
    case None => []
    case Some(o) => [Event(d, kind, EventDateThisYear(today.year, o))]
  }

  /** A devotee's events: the birthday, then the anniversary when a marriage date is stored
      (UpcomingEvents.tsx:53-54, 68-69). Dates that do not parse give none. */
  function EventsFor(d: Devotee, today: Date): (r: seq<Event>)
    ensures |r| <= 2
    ensures |r| == 2 ==> r[0].kind == Birthday && r[1].kind == Anniversary
    ensures d.marriageDate == "" ==> forall k :: 0 <= k < |r| ==> r[k].kind == Birthday
  {
    EventFrom(d, Birthday, ParseIso(d.dateOfBirth), today)
    + (if d.marriageDate != "" then EventFrom(d, Anniversary, ParseIso(d.marriageDate), today) else [])
  }

  function EventsOf(ds: seq<Devotee>, today: Date): (r: seq<Event>)
    ensures |r| <= 2 * |ds|
  {
    if ds == [] then [] else EventsFor(ds[0], today) + EventsOf(ds[1..], today)
  }

  function InBucket(today: Date, b: BucketName): Event -> bool
    requires ValidDate(today)
  {
    (e: Event) => ValidDate(e.eventDate) && BucketOf(DaysDiff(today, e.eventDate)) == Some(b)
  }

  /** The buckets of a list of events: each event, in order, in the bucket of its distance. */
  function Categorize(events: seq<Event>, today: Date): (c: Categories)
    requires ValidDate(today)
    ensures forall b :: Bucket(c, b) == Filter(events, InBucket(today, b))
  {
    Categories(Filter(events, InBucket(today, Today)), Filter(events, InBucket(today, Tomorrow)),
               Filter(events, InBucket(today, ThisWeek)), Filter(events, InBucket(today, ThisMonth)))
  }

  /** Events put in buckets piece by piece land where they would all at once. */
  lemma CategorizeConcat(a: seq<Event>, b: seq<Event>, today: Date)
    requires ValidDate(today)
    ensures Categorize(a + b, today) == Join(Categorize(a, today), Categorize(b, today))
  {
    FilterConcat(a, b, InBucket(today, Today));
    FilterConcat(a, b, InBucket(today, Tomorrow));
    FilterConcat(a, b, InBucket(today, ThisWeek));
    FilterConcat(a, b, InBucket(today, ThisMonth));
  }

  lemma {:induction false} EventsOfConcat(a: seq<Devotee>, b: seq<Devotee>, today: Date)
    ensures EventsOf(a + b, today) == EventsOf(a, today) + EventsOf(b, today)
  {
    if a == [] {
      assert a + b == b;
    } else {
      assert (a + b)[0] == a[0] && (a + b)[1..] == a[1..] + b;
      EventsOfConcat(a[1..], b, today);
      var e := EventsFor(a[0], today);
      calc {
        EventsOf(a + b, today);
        e + EventsOf(a[1..] + b, today);
        e + (EventsOf(a[1..], today) + EventsOf(b, today));
        (e + EventsOf(a[1..], today)) + EventsOf(b, today);
      }
    }
  }

  /** What one more devotee adds to the buckets: first its birthday, then its anniversary. */
  lemma CategorizeStep(ds: seq<Devotee>, i: nat, today: Date)
    requires ValidDate(today) && i < |ds|
    ensures var before := Categorize(EventsOf(ds[..i], today), today);
            var after := Categorize(EventsOf(ds[..i + 1], today), today);
            var birth := Categorize(EventFrom(ds[i], Birthday, ParseIso(ds[i].dateOfBirth), today), today);
            && (ds[i].marriageDate == "" ==> after == Join(before, birth))
            && (ds[i].marriageDate != "" ==>
                  after == Join(Join(before, birth),
                                Categorize(EventFrom(ds[i], Anniversary, ParseIso(ds[i].marriageDate), today), today)))
  {
    var d := ds[i];
    var x := EventsOf(ds[..i], today);
    var birth := EventFrom(d, Birthday, ParseIso(d.dateOfBirth), today);
    var wedding := if d.marriageDate != "" then EventFrom(d, Anniversary, ParseIso(d.marriageDate), today) else [];
    EventsOfSnoc(ds, i, today);
    CategorizeConcat(x, birth + wedding, today);
    CategorizeConcat(birth, wedding, today);
    JoinAssoc(Categorize(x, today), Categorize(birth, today), Categorize(wedding, today));
    if d.marriageDate == "" {
      assert Categorize(wedding, today) == Empty;
    }
  }

  lemma EventsOfSnoc(ds: seq<Devotee>, i: nat, today: Date)
    requires i < |ds|
    ensures EventsOf(ds[..i + 1], today) == EventsOf(ds[..i], today) + EventsFor(ds[i], today)
  {
    assert ds[..i + 1] == ds[..i] + [ds[i]];
    EventsOfConcat(ds[..i], [ds[i]], today);
    assert EventsOf([ds[i]], today) == EventsFor(ds[i], today) + EventsOf([], today);
  }

  lemma JoinAssoc(a: Categories, b: Categories, c: Categories)
    ensures Join(a, Join(b, c)) == Join(Join(a, b), c)
  {
    assert a.today + (b.today + c.today) == (a.today + b.today) + c.today;
    assert a.tomorrow + (b.tomorrow + c.tomorrow) == (a.tomorrow + b.tomorrow) + c.tomorrow;
    assert a.thisWeek + (b.thisWeek + c.thisWeek) == (a.thisWeek + b.thisWeek) + c.thisWeek;
    assert a.thisMonth + (b.thisMonth + c.thisMonth) == (a.thisMonth + b.thisMonth) + c.thisMonth;
  }

  /** `checkAndPush(date, type)` (UpcomingEvents.tsx:56-66). A date JavaScript could not
      parse gives a `NaN` distance, which no bucket test accepts. */
  method CheckAndPush(c: Categories, d: Devotee, kind: OccasionType, date: Option<Date>, today: Date)
      returns (r: Categories)
    requires ValidDate(today)
    requires date.Some? ==> ValidDate(date.value)
    ensures r == Join(c, Categorize(EventFrom(d, kind, date, today), today))
  {
    r := c;
    if date.Some? {
      var item := Event(d, kind, EventDateThisYear(today.year, date.value));
      var daysDiff := DayNumber(item.eventDate) - DayNumber(today);
      if daysDiff == 0 {
        r := r.(today := r.today + [item]);
      } else if daysDiff == 1 {
        r := r.(tomorrow := r.tomorrow + [item]);
      } else if daysDiff > 1 && daysDiff <= 7 {
        r := r.(thisWeek := r.thisWeek + [item]);
      } else if daysDiff > 7 && daysDiff <= 30 {
        r := r.(thisMonth := r.thisMonth + [item]);
      }
    }
  }

  /** `categorizeEvents` (UpcomingEvents.tsx:41-73): the loop over the devotees. */
  method CategorizeEvents(devotees: seq<Devotee>, today: Date) returns (categories: Categories)
    requires ValidDate(today)
    ensures categories == Categorize(EventsOf(devotees, today), today)
  {
    categories := Empty;
    var i := 0;
    while i < |devotees|
      invariant 0 <= i <= |devotees|
      invariant categories == Categorize(EventsOf(devotees[..i], today), today)
    {
      var d := devotees[i];
      CategorizeStep(devotees, i, today);
      categories := CheckAndPush(categories, d, Birthday, ParseIso(d.dateOfBirth), today);
      if d.marriageDate != "" {
        categories := CheckAndPush(categories, d, Anniversary, ParseIso(d.marriageDate), today);
      }
      i := i + 1;
    }
    assert devotees[..i] == devotees;
  }

  // ---------------------------------------------------------------- properties

  /** An event is shown in a bucket exactly when it is one of the events and its distance
      selects that bucket; so no event is shown twice. */
  lemma BucketMembership(events: seq<Event>, today: Date, b: BucketName, e: Event)
    requires ValidDate(today)
    ensures e in Bucket(Categorize(events, today), b)
            <==> e in events && ValidDate(e.eventDate) && BucketOf(DaysDiff(today, e.eventDate)) == Some(b)
    ensures forall b' :: b' != b && e in Bucket(Categorize(events, today), b) ==> e !in Bucket(Categorize(events, today), b')
    ensures IsSubsequence(Bucket(Categorize(events, today), b), events)
  {
    FilterIsSubsequence(events, InBucket(today, b));
    forall b': BucketName {
      FilterMembership(events, InBucket(today, b'), e);
    }
  }

  /** An event carries the current-year date of the stored date of its occasion. */
  predicate DatedFromRecord(e: Event, today: Date) {
    && ValidDate(e.eventDate) && e.eventDate.year == today.year
    && (e.kind == Birthday ==>
          && ParseIso(e.devotee.dateOfBirth).Some?
          && e.eventDate == EventDateThisYear(today.year, ParseIso(e.devotee.dateOfBirth).value))
    && (e.kind == Anniversary ==>
          && e.devotee.marriageDate != ""
          && ParseIso(e.devotee.marriageDate).Some?
          && e.eventDate == EventDateThisYear(today.year, ParseIso(e.devotee.marriageDate).value))
  }

  /** A devotee's own events are theirs and dated from their record. */
  lemma EventsForSound(d: Devotee, today: Date)
    ensures forall k :: 0 <= k < |EventsFor(d, today)| ==>
              EventsFor(d, today)[k].devotee == d && DatedFromRecord(EventsFor(d, today)[k], today)
  {
  }

  /** Every event of the list is of a listed devotee and has the current-year date of the
      stored date of its occasion. */
  lemma {:induction false} EventsOfSound(ds: seq<Devotee>, today: Date)
    ensures forall k :: 0 <= k < |EventsOf(ds, today)| ==>
              EventsOf(ds, today)[k].devotee in ds && DatedFromRecord(EventsOf(ds, today)[k], today)
  {
    if ds != [] {
      EventsOfSound(ds[1..], today);
      EventsForSound(ds[0], today);
      var head: seq<Event> := EventsFor(ds[0], today);
      var tail: seq<Event> := EventsOf(ds[1..], today);
      assert EventsOf(ds, today) == head + tail;
      forall k | 0 <= k < |head + tail|
        ensures (head + tail)[k].devotee in ds && DatedFromRecord((head + tail)[k], today)
      {
        if k < |head| {
          assert (head + tail)[k] == head[k];
        } else {
          assert (head + tail)[k] == tail[k - |head|];
          assert tail[k - |head|].devotee in ds[1..];
        }
      }
    }
  }

  /** Every stored birthday or anniversary that parses gives its event. */
  lemma {:induction false} EventsOfComplete(ds: seq<Devotee>, today: Date, i: nat)
    requires i < |ds|
    ensures ParseIso(ds[i].dateOfBirth).Some? ==>
              Event(ds[i], Birthday, EventDateThisYear(today.year, ParseIso(ds[i].dateOfBirth).value)) in EventsOf(ds, today)
    ensures ds[i].marriageDate != "" && ParseIso(ds[i].marriageDate).Some? ==>
              Event(ds[i], Anniversary, EventDateThisYear(today.year, ParseIso(ds[i].marriageDate).value)) in EventsOf(ds, today)
  {
    if i > 0 {
      EventsOfComplete(ds[1..], today, i - 1);
    }
  }

  /** The today bucket holds exactly the events on today's date, the tomorrow bucket exactly
      those on the next calendar day, and no bucket holds a day before today. */
  lemma BucketDates(events: seq<Event>, today: Date, e: Event)
    requires ValidDate(today) && ValidDate(e.eventDate)
    ensures e in Bucket(Categorize(events, today), Today) <==> e in events && e.eventDate == today
    ensures e in Bucket(Categorize(events, today), Tomorrow) <==> e in events && e.eventDate == NextDay(today)
    ensures forall b :: e in Bucket(Categorize(events, today), b) ==> !Before(e.eventDate, today)
  {
    forall b: BucketName {
      BucketMembership(events, today, b, e);
    }
    DayNumberInjective(today, e.eventDate);
    DayNumberNextDay(today);
    DayNumberInjective(NextDay(today), e.eventDate);
    DayNumberOrder(e.eventDate, today);
  }

  /** There is no roll-over into the next year: on 31 December a birthday on 1 January is in
      no bucket, although it is tomorrow. */
  lemma NoNextYearRollover()
    ensures var today := Date(2025, 12, 31);
            var event := EventDateThisYear(today.year, Date(2000, 1, 1));
            NextDay(today) == Date(2026, 1, 1) && BucketOf(DaysDiff(today, event)) == None
  {
    var today := Date(2025, 12, 31);
    var event := EventDateThisYear(today.year, Date(2000, 1, 1));
    assert event == Date(2025, 1, 1);
    assert DaysDiff(today, event) == -364;
  }
}
