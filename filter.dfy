/**
 * The filtering half of `load_data`: the rows of one city narrowed by a
 * month name and a weekday name, each of which may be "all". Every step
 * builds a new sequence; the input dataset is never changed.
 */
module Filter {
  import opened Trips
  import Text
  import Calendar

  /** `df[mask]`: the rows for which `keep` holds, in their original order. */
  function Where(rows: seq<Trip>, keep: Trip -> bool): (r: seq<Trip>)
    ensures |r| <= |rows|
    ensures forall t :: t in r <==> t in rows && keep(t)
  {
    if rows == [] then []
    else (if keep(rows[0]) then [rows[0]] else []) + Where(rows[1..], keep)
  }

  /** `a` is `b` with some elements deleted and the rest kept in order. */
  predicate IsSubsequence(a: seq<Trip>, b: seq<Trip>)
  {
    if a == [] then true
    else if b == [] then false
    else (a[0] == b[0] && IsSubsequence(a[1..], b[1..])) || IsSubsequence(a, b[1..])
  }

  lemma {:induction false} WhereIsSubsequence(rows: seq<Trip>, keep: Trip -> bool)
    ensures IsSubsequence(Where(rows, keep), rows)
  {
    if rows != [] {
      WhereIsSubsequence(rows[1..], keep);
      var r := Where(rows, keep);
      if keep(rows[0]) {
        assert r[1..] == Where(rows[1..], keep);
      } else {
        assert r == Where(rows[1..], keep);
      }
    }
  }

  /** Filtering a concatenation filters each part and keeps them in order. */
  lemma {:induction false} WhereAppend(a: seq<Trip>, b: seq<Trip>, keep: Trip -> bool)
    ensures Where(a + b, keep) == Where(a, keep) + Where(b, keep)
  {
    if a != [] {
      assert (a + b)[1..] == a[1..] + b;
      WhereAppend(a[1..], b, keep);
    } else {
      assert a + b == b;
    }
  }

  /** Two masks that agree on every row select the same rows. */
  lemma {:induction false} WhereSame(rows: seq<Trip>, p: Trip -> bool, q: Trip -> bool)
    requires forall t :: p(t) == q(t)
    ensures Where(rows, p) == Where(rows, q)
  {
    if rows != [] {
      WhereSame(rows[1..], p, q);
    }
  }

  /** Filtering twice is filtering once by the conjunction. */
  lemma {:induction false} WhereWhere(rows: seq<Trip>, p: Trip -> bool, q: Trip -> bool, both: Trip -> bool)
    requires forall t :: both(t) == (p(t) && q(t))
    ensures Where(Where(rows, p), q) == Where(rows, both)
  {
    if rows != [] {
      WhereWhere(rows[1..], p, q, both);
      WhereAppend(if p(rows[0]) then [rows[0]] else [], Where(rows[1..], p), q);
      assert Where([rows[0]], q) == if q(rows[0]) then [rows[0]] else [];
    }
  }

  /** A mask that holds on every row keeps them all. */
  lemma {:induction false} WhereAll(rows: seq<Trip>, keep: Trip -> bool)
    requires forall t :: keep(t)
    ensures Where(rows, keep) == rows
  {
    if rows != [] {
      WhereAll(rows[1..], keep);
    }
  }

  /** A row passes the filter: "all" places no constraint, a name must equal
      the title-cased argument. */
  predicate Matches(t: Trip, month: string, day: string)
  {
    && (month == "all" || t.month == Text.Title(month))
    && (day == "all" || t.dayOfWeek == Text.Title(day))
  }

  /** The boolean mask `df['month'] == month.title()`. */
  function MonthMask(month: string): Trip -> bool
  {
    (t: Trip) => t.month == Text.Title(month)
  }

  /** The boolean mask `df['day_of_week'] == day.title()`. */
  function DayMask(day: string): Trip -> bool
  {
    (t: Trip) => t.dayOfWeek == Text.Title(day)
  }

  /** Both constraints as one mask. */
  function Mask(month: string, day: string): Trip -> bool
  {
    (t: Trip) => Matches(t, month, day)
  }

  /** `load_data` after the derived columns exist: keep the rows of the
      month, then of those the rows of the weekday. */
  function Apply(d: Dataset, month: string, day: string): (r: Dataset)
    ensures r.schema == d.schema
    ensures |r.rows| <= |d.rows|
    ensures forall t :: t in r.rows <==> t in d.rows && Matches(t, month, day)
    ensures WellFormed(d) ==> WellFormed(r)
  {
    var byMonth := if month != "all" then Where(d.rows, MonthMask(month)) else d.rows;
    var byDay := if day != "all" then Where(byMonth, DayMask(day)) else byMonth;
    Dataset(d.schema, byDay)
  }

  /** No constraint in either position returns the dataset unchanged. */
  lemma AllAllIsIdentity(d: Dataset)
    ensures Apply(d, "all", "all") == d
  {
  }

  /** The two successive masks of `load_data` are one conjunctive mask. */
  lemma ApplyIsConjunction(d: Dataset, month: string, day: string)
    ensures Apply(d, month, day).rows == Where(d.rows, Mask(month, day))
  {
    var both, byMonth, byDay := Mask(month, day), MonthMask(month), DayMask(day);
    if month == "all" && day == "all" {
      WhereAll(d.rows, both);
    } else if month == "all" {
      WhereSame(d.rows, byDay, both);
    } else if day == "all" {
      WhereSame(d.rows, byMonth, both);
    } else {
      WhereWhere(d.rows, byMonth, byDay, both);
    }
  }

  /** Re-applying the same filter changes nothing. */
  lemma ApplyIdempotent(d: Dataset, month: string, day: string)
    ensures Apply(Apply(d, month, day), month, day) == Apply(d, month, day)
  {
    var both := Mask(month, day);
    var once := Apply(d, month, day);
    ApplyIsConjunction(d, month, day);
    ApplyIsConjunction(once, month, day);
    WhereWhere(d.rows, both, both, both);
  }

  /** The surviving rows keep their relative order. */
  lemma ApplyKeepsOrder(d: Dataset, month: string, day: string)
    ensures IsSubsequence(Apply(d, month, day).rows, d.rows)
  {
    ApplyIsConjunction(d, month, day);
    WhereIsSubsequence(d.rows, Mask(month, day));
  }

  /** Filtering two consecutive stretches of a log filters each of them. */
  lemma ApplyAppend(schema: Schema, a: seq<Trip>, b: seq<Trip>, month: string, day: string)
    ensures Apply(Dataset(schema, a + b), month, day).rows
         == Apply(Dataset(schema, a), month, day).rows + Apply(Dataset(schema, b), month, day).rows
  {
    var both := Mask(month, day);
    ApplyIsConjunction(Dataset(schema, a + b), month, day);
    ApplyIsConjunction(Dataset(schema, a), month, day);
    ApplyIsConjunction(Dataset(schema, b), month, day);
    WhereAppend(a, b, both);
  }

  /** A mask that fails on every row keeps none. */
  lemma {:induction false} WhereNone(rows: seq<Trip>, keep: Trip -> bool)
    requires forall t :: t in rows ==> !keep(t)
    ensures Where(rows, keep) == []
  {
    if rows != [] {
      assert rows[0] in rows;
      WhereNone(rows[1..], keep);
    }
  }

  /** A day argument that does not title-case to a weekday name matches no row. */
  lemma UnknownDaySelectsNothing(d: Dataset, month: string, day: string)
    requires WellFormed(d)
    requires day != "all" && Text.Title(day) !in Calendar.WeekdayNames
    ensures Apply(d, month, day).rows == []
  {
    ApplyIsConjunction(d, month, day);
    WhereNone(d.rows, Mask(month, day));
  }

  /** A month argument that does not title-case to a month name matches no row. */
  lemma UnknownMonthSelectsNothing(d: Dataset, month: string, day: string)
    requires WellFormed(d)
    requires month != "all" && Text.Title(month) !in Calendar.MonthNames
    ensures Apply(d, month, day).rows == []
  {
    ApplyIsConjunction(d, month, day);
    WhereNone(d.rows, Mask(month, day));
  }

  /** The menu spells the fourth day "wednessday"; its title case is no
      weekday name, so choosing it empties every dataset. */
  lemma WednessdaySelectsNothing(d: Dataset, month: string)
    requires WellFormed(d)
    ensures Apply(d, month, "wednessday").rows == []
  {
    assert Text.Title("wednessday") == "Wednessday";
    UnknownDaySelectsNothing(d, month, "wednessday");
  }

  /** Spelled correctly, the day keeps exactly the Wednesday rows. */
  lemma WednesdaySelectsWednesdays(d: Dataset, month: string, t: Trip)
    ensures t in Apply(d, month, "wednesday").rows
        <==> t in d.rows && t.dayOfWeek == "Wednesday" && (month == "all" || t.month == Text.Title(month))
  {
    assert Text.Title("wednesday") == "Wednesday";
  }
}
