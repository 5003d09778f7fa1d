/**
 * Trip records of one city's log and the step of `load_data` that adds the
 * derived columns `month`, `day_of_week` and `start_hour` to every row.
 * Reading the CSV and parsing the `Start Time` text are not modelled: a raw
 * row arrives with its start time already split into date and time fields.
 */
module Trips {
  import opened Wrappers
  import Calendar

  datatype Timestamp = Timestamp(date: Calendar.Date, hour: int, minute: int, second: int)

  predicate ValidTimestamp(ts: Timestamp)
  {
    Calendar.ValidDate(ts.date) && 0 <= ts.hour < 24 && 0 <= ts.minute < 60 && 0 <= ts.second < 60
  }

  /** One CSV row. `gender` and `birthYear` are `None` for a NaN cell or when
      the city has no such column; a birth year is a float in the file. */
  datatype RawTrip = RawTrip(
    startTime: Timestamp,
    startStation: string,
    endStation: string,
    duration: int,
    userType: string,
    gender: Option<string>,
    birthYear: Option<real>)

  /** One row after the derived columns were added. */
  datatype Trip = Trip(
    startTime: Timestamp,
    month: string,
    dayOfWeek: string,
    startHour: nat,
    startStation: string,
    endStation: string,
    duration: int,
    userType: string,
    gender: Option<string>,
    birthYear: Option<real>)

  /** Which optional columns the city's file has. */
  datatype Schema = Schema(hasGender: bool, hasBirthYear: bool)

  /** One city's rows, in file order, under one schema. */
  datatype Dataset = Dataset(schema: Schema, rows: seq<Trip>)

  /** `pd.to_datetime` rejects the start time of row `row`. */
  datatype LoadError = ParseError(row: nat)

  /** The derived columns hold a month name, a weekday name and an hour. */
  predicate WellDerived(t: Trip)
  {
    t.month in Calendar.MonthNames && t.dayOfWeek in Calendar.WeekdayNames && t.startHour < 24
  }

  predicate WellFormed(d: Dataset)
  {
    forall t :: t in d.rows ==> WellDerived(t)
  }

  /** Drops the derived columns again. */
  function Forget(t: Trip): RawTrip
  {
    RawTrip(t.startTime, t.startStation, t.endStation, t.duration, t.userType, t.gender, t.birthYear)
  }

  /** Adds `month`, `day_of_week` and `start_hour` to one row. */
  function Derive(raw: RawTrip): (t: Trip)
    requires ValidTimestamp(raw.startTime)
    ensures WellDerived(t)
    ensures Forget(t) == raw
    ensures t.month == Calendar.MonthNames[raw.startTime.date.month - 1]
    ensures t.dayOfWeek == Calendar.WeekdayNames[Calendar.Weekday(raw.startTime.date)]
    ensures t.startHour == raw.startTime.hour
  {
    var ts := raw.startTime;
    Trip(ts, Calendar.MonthName(ts.date.month), Calendar.WeekdayName(ts.date), ts.hour,
      raw.startStation, raw.endStation, raw.duration, raw.userType, raw.gender, raw.birthYear)
  }

  /** Index of the first row whose start time is not a valid timestamp. */
  function FirstInvalid(raws: seq<RawTrip>): (r: Option<nat>)
    ensures r.None? <==> forall i :: 0 <= i < |raws| ==> ValidTimestamp(raws[i].startTime)
    ensures r.Some? ==> r.value < |raws| && !ValidTimestamp(raws[r.value].startTime)
    ensures r.Some? ==> forall i :: 0 <= i < r.value ==> ValidTimestamp(raws[i].startTime)
  {
    if raws == [] then None
    else if !ValidTimestamp(raws[0].startTime) then Some(0)
    else match FirstInvalid(raws[1..])
      case None => None
      case Some(i) => Some(i + 1)
  }

  function DeriveAll(raws: seq<RawTrip>): (rows: seq<Trip>)
    requires forall i :: 0 <= i < |raws| ==> ValidTimestamp(raws[i].startTime)
    ensures |rows| == |raws|
    ensures forall i :: 0 <= i < |raws| ==> rows[i] == Derive(raws[i])
  {
    if raws == [] then [] else [Derive(raws[0])] + DeriveAll(raws[1..])
  }

  /** Loading a city: one unparsable start time fails the whole load; otherwise
      every row, in file order, gains its derived columns. */
  function Load(schema: Schema, raws: seq<RawTrip>): (r: Result<Dataset, LoadError>)
    ensures r.Ok? <==> forall i :: 0 <= i < |raws| ==> ValidTimestamp(raws[i].startTime)
    ensures r.Err? ==> r.error.row < |raws| && !ValidTimestamp(raws[r.error.row].startTime)
    ensures r.Ok? ==> WellFormed(r.value) && r.value.schema == schema && |r.value.rows| == |raws|
    ensures r.Ok? ==> forall i :: 0 <= i < |raws| ==> Forget(r.value.rows[i]) == raws[i]
    ensures r.Ok? ==> forall i :: 0 <= i < |raws| ==>
      ValidTimestamp(raws[i].startTime) && r.value.rows[i] == Derive(raws[i])
  {
    match FirstInvalid(raws)
    case Some(i) => Err(ParseError(i))
    case None => Ok(Dataset(schema, DeriveAll(raws)))
  }

  // Column accessors, so that a column can be passed to the aggregates.
  function MonthOf(t: Trip): string { t.month }
  function DayOf(t: Trip): string { t.dayOfWeek }
  function HourOf(t: Trip): nat { t.startHour }
  function StartStationOf(t: Trip): string { t.startStation }
  function EndStationOf(t: Trip): string { t.endStation }
  function UserTypeOf(t: Trip): string { t.userType }
  function GenderOf(t: Trip): Option<string> { t.gender }
  function BirthYearOf(t: Trip): Option<real> { t.birthYear }

  /** `df[column]`: one value per row, in row order. */
  function Column<T>(rows: seq<Trip>, f: Trip -> T): (c: seq<T>)
    ensures |c| == |rows|
    ensures forall i :: 0 <= i < |rows| ==> c[i] == f(rows[i])
  {
    if rows == [] then [] else [f(rows[0])] + Column(rows[1..], f)
  }

  /** A column value comes from some row. */
  lemma ColumnMember<T>(rows: seq<Trip>, f: Trip -> T, x: T) returns (i: nat)
    requires x in Column(rows, f)
    ensures i < |rows| && f(rows[i]) == x
  {
    var c := Column(rows, f);
    i :| 0 <= i < |c| && c[i] == x;
  }

  /** `dropna()`: the present values, in order. */
  function Present<T>(s: seq<Option<T>>): (r: seq<T>)
    ensures |r| <= |s|
    ensures forall i :: 0 <= i < |r| ==> Some(r[i]) in s
    ensures forall i :: 0 <= i < |s| && s[i].Some? ==> s[i].value in r
  {
    if s == [] then []
    else (if s[0].Some? then [s[0].value] else []) + Present(s[1..])
  }

  /** Dropping missing cells from two stretches of a column drops them from
      each, keeping the present values in order. */
  lemma {:induction false} PresentAppend<T>(a: seq<Option<T>>, b: seq<Option<T>>)
    ensures Present(a + b) == Present(a) + Present(b)
  {
    if a == [] {
      assert a + b == b;
    } else {
      assert (a + b)[1..] == a[1..] + b;
      PresentAppend(a[1..], b);
    }
  }
}
