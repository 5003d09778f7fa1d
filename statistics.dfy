/**
 * The four statistic groups `time_stats`, `station_stats`,
 * `trip_duration_stats` and `user_stats`, as functions returning the values
 * the program prints. A pandas call that raises on an empty column
 * becomes `Err(EmptyColumn)`; a column the city's file does not have
 * becomes `None`.
 */
module Statistics {
  import opened Wrappers
  import opened Trips
  import opened Aggregates
  import Filter
  import Text
  import Calendar

  /** `mode()[0]` or `int(min())` over a column with no value. */
  datatype StatError = EmptyColumn

  datatype TimeReport = TimeReport(popularMonth: string, popularDay: string, popularHour: nat)

  /** `time_stats`: the most common month, day of week and start hour. */
  function TimeStats(d: Dataset): (r: Result<TimeReport, StatError>)
    ensures r.Err? <==> d.rows == []
    ensures r.Ok? ==> IsMode(Column(d.rows, MonthOf), r.value.popularMonth)
    ensures r.Ok? ==> IsMode(Column(d.rows, DayOf), r.value.popularDay)
    ensures r.Ok? ==> IsMode(Column(d.rows, HourOf), r.value.popularHour)
  {
    if d.rows == [] then Err(EmptyColumn)
    else Ok(TimeReport(Mode(Column(d.rows, MonthOf)), Mode(Column(d.rows, DayOf)), Mode(Column(d.rows, HourOf))))
  }

  /** On a loaded dataset the popular time is a real month, weekday and hour. */
  lemma TimeStatsAreCalendarValues(d: Dataset)
    requires WellFormed(d) && d.rows != []
    ensures TimeStats(d).value.popularMonth in Calendar.MonthNames
    ensures TimeStats(d).value.popularDay in Calendar.WeekdayNames
    ensures TimeStats(d).value.popularHour < 24
  {
    var r := TimeStats(d).value;
    var i := ColumnMember(d.rows, MonthOf, r.popularMonth);
    var j := ColumnMember(d.rows, DayOf, r.popularDay);
    var k := ColumnMember(d.rows, HourOf, r.popularHour);
    assert WellDerived(d.rows[i]) && WellDerived(d.rows[j]) && WellDerived(d.rows[k]);
  }

  /** After filtering by a month, that month is the most common one. */
  lemma FilteredMonthIsPopular(d: Dataset, month: string, day: string)
    requires month != "all" && Filter.Apply(d, month, day).rows != []
    ensures TimeStats(Filter.Apply(d, month, day)).value.popularMonth == Text.Title(month)
  {
    var f := Filter.Apply(d, month, day);
    var i := ColumnMember(f.rows, MonthOf, TimeStats(f).value.popularMonth);
    assert f.rows[i] in f.rows;
  }

  /** After filtering by a day, that day is the most common one. */
  lemma FilteredDayIsPopular(d: Dataset, month: string, day: string)
    requires day != "all" && Filter.Apply(d, month, day).rows != []
    ensures TimeStats(Filter.Apply(d, month, day)).value.popularDay == Text.Title(day)
  {
    var f := Filter.Apply(d, month, day);
    var i := ColumnMember(f.rows, DayOf, TimeStats(f).value.popularDay);
    assert f.rows[i] in f.rows;
  }

  /** Start hours 8, 8, 17: the popular start hour is 8. */
  lemma PopularHourExample(d: Dataset)
    requires |d.rows| == 3
    requires d.rows[0].startHour == 8 && d.rows[1].startHour == 8 && d.rows[2].startHour == 17
    ensures TimeStats(d).value.popularHour == 8
  {
    var hours := Column(d.rows, HourOf);
    assert hours == [8, 8, 17];
    assert Count(hours, 8) == 2;
    assert Count(hours, 17) == 1;
    ModeIsUnique(hours, 8);
  }

  /** The key of a trip: `start + ' <----> ' + end`. */
  function TripKey(t: Trip): string
  {
    t.startStation + " <----> " + t.endStation
  }

  datatype StationReport = StationReport(popularStart: string, popularEnd: string, popularTrip: string)

  /** `station_stats`: the most common start station, end station and trip. */
  function StationStats(d: Dataset): (r: Result<StationReport, StatError>)
    ensures r.Err? <==> d.rows == []
    ensures r.Ok? ==> IsMode(Column(d.rows, StartStationOf), r.value.popularStart)
    ensures r.Ok? ==> IsMode(Column(d.rows, EndStationOf), r.value.popularEnd)
    ensures r.Ok? ==> IsMode(Column(d.rows, TripKey), r.value.popularTrip)
  {
    if d.rows == [] then Err(EmptyColumn)
    else Ok(StationReport(
      Mode(Column(d.rows, StartStationOf)),
      Mode(Column(d.rows, EndStationOf)),
      Mode(Column(d.rows, TripKey))))
  }

  /** The popular trip is the start and end station of a trip that was made. */
  lemma PopularTripWasMade(d: Dataset)
    requires d.rows != []
    ensures exists t :: t in d.rows && StationStats(d).value.popularTrip == t.startStation + " <----> " + t.endStation
  {
    var i := ColumnMember(d.rows, TripKey, StationStats(d).value.popularTrip);
    assert d.rows[i] in d.rows;
  }

  /** `df['Trip Duration'].sum()`; 0 on an empty frame. */
  function TotalDuration(rows: seq<Trip>): (total: int)
    ensures rows == [] ==> total == 0
    ensures |rows| == 1 ==> total == rows[0].duration
  {
    if rows == [] then 0 else rows[0].duration + TotalDuration(rows[1..])
  }

  /** Mean of a pandas column is NaN on an empty frame; here `None`. */
  datatype DurationReport = DurationReport(total: int, mean: Option<real>)

  /** `trip_duration_stats`: total and mean trip duration. */
  function TripDurationStats(d: Dataset): (r: DurationReport)
    ensures r.total == TotalDuration(d.rows)
    ensures d.rows == [] ==> r.total == 0
    ensures r.mean.None? <==> d.rows == []
    ensures r.mean.Some? ==> r.mean.value * (|d.rows| as real) == r.total as real
  {
    var total := TotalDuration(d.rows);
    DurationReport(total, if d.rows == [] then None else Some(total as real / |d.rows| as real))
  }

  lemma {:induction false} TotalAppend(a: seq<Trip>, b: seq<Trip>)
    ensures TotalDuration(a + b) == TotalDuration(a) + TotalDuration(b)
  {
    if a == [] {
      assert a + b == b;
    } else {
      assert (a + b)[1..] == a[1..] + b;
      TotalAppend(a[1..], b);
    }
  }

  /** A filter splits the total: the rows it keeps and the rows it drops add
      up to the whole. */
  lemma {:induction false} TotalSplits(rows: seq<Trip>, keep: Trip -> bool, drop: Trip -> bool)
    requires forall t :: drop(t) == !keep(t)
    ensures TotalDuration(Filter.Where(rows, keep)) + TotalDuration(Filter.Where(rows, drop)) == TotalDuration(rows)
  {
    if rows != [] {
      TotalSplits(rows[1..], keep, drop);
      var head := [rows[0]];
      TotalAppend(if keep(rows[0]) then head else [], Filter.Where(rows[1..], keep));
      TotalAppend(if drop(rows[0]) then head else [], Filter.Where(rows[1..], drop));
    }
  }

  /** Every duration between `lo` and `hi` puts the total between `n * lo` and `n * hi`. */
  lemma {:induction false} TotalBounds(rows: seq<Trip>, lo: int, hi: int)
    requires forall t :: t in rows ==> lo <= t.duration <= hi
    ensures |rows| * lo <= TotalDuration(rows) <= |rows| * hi
  {
    if rows != [] {
      assert rows[0] in rows;
      TotalBounds(rows[1..], lo, hi);
      var n := |rows| - 1;
      assert |rows| * lo == n * lo + lo && |rows| * hi == n * hi + hi;
      assert TotalDuration(rows) == rows[0].duration + TotalDuration(rows[1..]);
    }
  }

  /** The mean lies between the shortest and the longest trip. */
  lemma MeanBetween(d: Dataset, lo: int, hi: int)
    requires d.rows != []
    requires forall t :: t in d.rows ==> lo <= t.duration <= hi
    ensures lo as real <= TripDurationStats(d).mean.value <= hi as real
  {
    TotalBounds(d.rows, lo, hi);
    var n := |d.rows| as real;
    var total := TotalDuration(d.rows) as real;
    assert n * lo as real <= total <= n * hi as real;
    QuotientBetween(total, n, lo as real, hi as real);
  }

  lemma QuotientBetween(t: real, n: real, lo: real, hi: real)
    requires n > 0.0 && n * lo <= t <= n * hi
    ensures lo <= t / n <= hi
  {
    var q := t / n;
    assert t == n * q;
    assert n * (q - lo) >= 0.0 && n * (hi - q) >= 0.0;
  }

  /** Durations 100 and 300: total 400, mean 200. */
  lemma DurationExample(d: Dataset)
    requires |d.rows| == 2 && d.rows[0].duration == 100 && d.rows[1].duration == 300
    ensures TripDurationStats(d) == DurationReport(400, Some(200.0))
  {
    assert d.rows[1..][1..] == [];
    assert TotalDuration(d.rows[1..]) == 300;
    assert TotalDuration(d.rows) == 400;
  }

  /** Python's `int()` of a float: truncation toward zero. */
  function Trunc(x: real): (n: int)
    ensures x >= 0.0 ==> n as real <= x < n as real + 1.0
    ensures x < 0.0 ==> n as real - 1.0 < x <= n as real
  {
    if x >= 0.0 then x.Floor else -((-x).Floor)
  }

  lemma TruncMonotone(x: real, y: real)
    requires x <= y
    ensures Trunc(x) <= Trunc(y)
  {
    if x < 0.0 && y < 0.0 {
      assert (-y).Floor <= (-x).Floor;
    }
  }

  lemma TruncBetween(years: seq<real>, lo: real, hi: real)
    requires forall i :: 0 <= i < |years| ==> lo <= years[i] <= hi
    ensures forall i :: 0 <= i < |years| ==> Trunc(lo) <= Trunc(years[i]) <= Trunc(hi)
  {
    forall i | 0 <= i < |years| ensures Trunc(lo) <= Trunc(years[i]) <= Trunc(hi) {
      TruncMonotone(lo, years[i]);
      TruncMonotone(years[i], hi);
    }
  }

  datatype BirthYearReport = BirthYearReport(earliest: int, mostRecent: int, popular: int)

  /** Earliest, most recent and most common birth year over the present
      values, each truncated to an integer. With no present value, `min()`
      is NaN and `int(NaN)` raises. */
  function BirthYearStats(years: seq<real>): (r: Result<BirthYearReport, StatError>)
    ensures r.Err? <==> years == []
    ensures r.Ok? ==> r.value.earliest <= r.value.popular <= r.value.mostRecent
    ensures r.Ok? ==> forall i :: 0 <= i < |years| ==> r.value.earliest <= Trunc(years[i]) <= r.value.mostRecent
    ensures r.Ok? ==> exists i :: 0 <= i < |years| && Trunc(years[i]) == r.value.earliest
    ensures r.Ok? ==> exists i :: 0 <= i < |years| && Trunc(years[i]) == r.value.mostRecent
    ensures r.Ok? ==> exists y :: IsMode(years, y) && Trunc(y) == r.value.popular
  {
    if years == [] then Err(EmptyColumn)
    else
      var lo, hi, m := Min(years), Max(years), Mode(years);
      TruncBetween(years, lo, hi);
      assert m in years;
      Ok(BirthYearReport(Trunc(lo), Trunc(hi), Trunc(m)))
  }

  datatype UserReport = UserReport(
    userTypes: seq<(string, nat)>,
    genders: Option<seq<(string, nat)>>,
    birthYears: Option<Result<BirthYearReport, StatError>>)

  /** `user_stats`: counts per user type, counts per gender when the city has
      a `Gender` column, birth-year figures when it has a `Birth Year` column.
      Missing cells are left out of the gender counts and birth years. */
  function UserStats(d: Dataset): (r: UserReport)
    ensures TotalCount(r.userTypes) == |d.rows|
    ensures forall i :: 0 <= i < |r.userTypes| ==>
      r.userTypes[i].1 == Count(Column(d.rows, UserTypeOf), r.userTypes[i].0) > 0
    ensures r.genders.Some? <==> d.schema.hasGender
    ensures r.genders.Some? ==> TotalCount(r.genders.value) == |Present(Column(d.rows, GenderOf))|
    ensures r.genders.Some? ==> forall i :: 0 <= i < |r.genders.value| ==>
      r.genders.value[i].1 == Count(Present(Column(d.rows, GenderOf)), r.genders.value[i].0) > 0
    ensures r.birthYears.Some? <==> d.schema.hasBirthYear
    ensures r.genders.Some? ==> forall i :: 0 <= i < |r.genders.value| ==>
      r.genders.value[i].1 == Count(Column(d.rows, GenderOf), Some(r.genders.value[i].0))
    ensures r.birthYears.Some? ==> (r.birthYears.value.Err? <==> Present(Column(d.rows, BirthYearOf)) == [])
    ensures r.userTypes == ValueCounts(Column(d.rows, UserTypeOf))
    ensures r.genders.Some? ==> r.genders.value == ValueCounts(Present(Column(d.rows, GenderOf)))
    ensures r.birthYears.Some? ==> r.birthYears.value == BirthYearStats(Present(Column(d.rows, BirthYearOf)))
  {
    var genders := Column(d.rows, GenderOf);
    forall g ensures Count(Present(genders), g) == Count(genders, Some(g)) {
      PresentCount(genders, g);
    }
    UserReport(
      ValueCounts(Column(d.rows, UserTypeOf)),
      if d.schema.hasGender then Some(ValueCounts(Present(Column(d.rows, GenderOf)))) else None,
      if d.schema.hasBirthYear then Some(BirthYearStats(Present(Column(d.rows, BirthYearOf)))) else None)
  }

  /** Dropping missing cells keeps every present value as often as it occurs. */
  lemma {:induction false} PresentCount<T>(s: seq<Option<T>>, x: T)
    ensures Count(Present(s), x) == Count(s, Some(x))
  {
    if s != [] {
      PresentCount(s[1..], x);
      var head := if s[0].Some? then [s[0].value] else [];
      CountAppend(head, Present(s[1..]), x);
    }
  }

  lemma {:induction false} CountAppend<T>(a: seq<T>, b: seq<T>, x: T)
    ensures Count(a + b, x) == Count(a, x) + Count(b, x)
  {
    if a == [] {
      assert a + b == b;
    } else {
      assert (a + b)[1..] == a[1..] + b;
      CountAppend(a[1..], b, x);
    }
  }

  /** A city without a `Gender` column reports the figure as unavailable, not as an error. */
  lemma NoGenderColumn(d: Dataset)
    requires !d.schema.hasGender
    ensures UserStats(d).genders == None
  {
  }
}
