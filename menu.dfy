/**
 * The menus that collect a city, a month and a day: `get_user_input` turns
 * one typed line into a choice, and `get_filter` reads lines until a choice
 * is one of the options. The lines the user types are supplied as a
 * sequence; running out of lines ends the prompt without a choice.
 */
module Menu {
  import opened Wrappers
  import Text
  import Calendar

  const CITIES: seq<string> := ["chicago", "new york city", "washington"]
  const MONTHS: seq<string> := ["january", "february", "march", "april", "may", "june"]
  /** As the program spells it: the third day is "wednessday". */
  const DAYS: seq<string> := ["monday", "tuesday", "wednessday", "thursday", "friday", "saturday", "sunday"]
  /** The day list as evidently intended. */
  const CORRECTED_DAYS: seq<string> := ["monday", "tuesday", "wednesday", "thursday", "friday", "saturday", "sunday"]

  /** What `get_user_input` returns: an option or a lower-cased string, or,
      for a number out of range, that number minus one. */
  datatype Choice = Name(name: string) | Number(n: int)

  /** `options[i]` with Python's negative indexing; `None` is an `IndexError`. */
  function PyIndex(options: seq<string>, i: int): (r: Option<string>)
    ensures r.Some? <==> -|options| <= i < |options|
    ensures 0 <= i < |options| ==> r == Some(options[i])
    ensures -|options| <= i < 0 ==> r == Some(options[|options| + i])
  {
    if 0 <= i < |options| then Some(options[i])
    else if -|options| <= i < 0 then Some(options[|options| + i])
    else None
  }

  /** `get_user_input` on the typed line `line`. */
  function GetUserInput(options: seq<string>, line: string): (c: Choice)
    ensures c.Number? ==> c.n < -|options| || c.n >= |options|
    ensures c.Name? && c.name !in options ==> Text.ParseInt(Text.Strip(line)).None?
  {
    var token := Text.Strip(line);
    match Text.ParseInt(token)
    case Some(n) =>
      (match PyIndex(options, n - 1)
       case Some(o) => Name(o)
       case None => Number(n - 1))
    case None => Name(Text.Lower(token))
  }

  /** `choosen_filter in options`; a number never equals an option string. */
  predicate Accepted(options: seq<string>, c: Choice)
    ensures c.Number? ==> !Accepted(options, c)
  {
    c.Name? && c.name in options
  }

  /** Typing the menu number `k` selects the `k`-th option. */
  lemma SelectByNumber(options: seq<string>, k: int)
    requires 1 <= k <= |options|
    ensures GetUserInput(options, Text.Decimal(k)) == Name(options[k - 1])
  {
    Text.StripDecimal(k);
    Text.ParseDecimal(k);
  }

  /** "0" selects the last option: index -1 in Python. */
  lemma ZeroSelectsLast(options: seq<string>)
    requires |options| > 0
    ensures GetUserInput(options, "0") == Name(options[|options| - 1])
  {
    assert Text.Decimal(0) == "0";
    Text.StripDecimal(0);
    Text.ParseDecimal(0);
  }

  /** A negative number `-k` counts from the end: `options[-k - 1]`. */
  lemma NegativeSelectsFromEnd(options: seq<string>, k: int)
    requires 1 <= k < |options|
    ensures GetUserInput(options, Text.Decimal(-k)) == Name(options[|options| - 1 - k])
  {
    Text.StripDecimal(-k);
    Text.ParseDecimal(-k);
  }

  /** A number out of range comes back as that number minus one, which no
      option equals, so the menu asks again. */
  lemma OutOfRangeIsRejected(options: seq<string>, n: int)
    requires n - 1 < -|options| || n - 1 >= |options|
    ensures GetUserInput(options, Text.Decimal(n)) == Number(n - 1)
    ensures !Accepted(options, GetUserInput(options, Text.Decimal(n)))
  {
    Text.StripDecimal(n);
    Text.ParseDecimal(n);
  }

  /** A line that is not a number resolves to its stripped, lower-cased
      text, and is accepted exactly when that text is an option. */
  lemma NameAccepted(options: seq<string>, line: string)
    requires Text.ParseInt(Text.Strip(line)).None?
    ensures GetUserInput(options, line) == Name(Text.Lower(Text.Strip(line)))
    ensures Accepted(options, GetUserInput(options, line)) <==> Text.Lower(Text.Strip(line)) in options
  {
  }

  /** Typing an option's name, in any case and with any surrounding
      whitespace, selects that option. */
  lemma SelectByName(options: seq<string>, pre: string, typed: string, post: string, k: nat)
    requires k < |options|
    requires Text.AllSpaces(pre) && Text.AllSpaces(post)
    requires typed != [] && !Text.IsSpace(typed[0]) && !Text.IsSpace(typed[|typed| - 1])
    requires Text.ParseInt(typed).None? && Text.Lower(typed) == options[k]
    ensures GetUserInput(options, pre + typed + post) == Name(options[k])
    ensures Accepted(options, GetUserInput(options, pre + typed + post))
  {
    Text.StripPadded(pre, typed, post);
  }

  /** On the city menu, " Washington " selects "washington". */
  lemma WashingtonByName()
    ensures GetUserInput(CITIES, " Washington ") == Name("washington")
  {
    var typed := "Washington";
    assert Text.Lower(typed) == "washington";
    assert !Text.IsDigit(typed[0]);
    assert " " + typed + " " == " Washington ";
    SelectByName(CITIES, " ", typed, " ", 2);
  }

  /** The answer does not depend on the case it was typed in. */
  lemma IgnoresCase(options: seq<string>, line: string)
    ensures GetUserInput(options, Text.Lower(line)) == GetUserInput(options, line)
  {
    Text.StripLower(line);
    Text.ParseLower(Text.Strip(line));
    Text.LowerIdempotent(Text.Strip(line));
  }

  /** With "all" inserted in front, "1" selects "all" and every other option
      moves one number up. */
  lemma AllShiftsNumbers(options: seq<string>, k: int)
    requires 1 <= k <= |options|
    ensures GetUserInput(["all"] + options, Text.Decimal(1)) == Name("all")
    ensures GetUserInput(["all"] + options, Text.Decimal(k + 1)) == GetUserInput(options, Text.Decimal(k))
  {
    SelectByNumber(["all"] + options, 1);
    SelectByNumber(["all"] + options, k + 1);
    SelectByNumber(options, k);
  }

  /** The loop of `get_filter`: read lines until one yields an option.
      Returns the option and the number of lines read. */
  method ReadUntilValid(options: seq<string>, lines: seq<string>) returns (choice: Option<string>, used: nat)
    ensures used <= |lines|
    ensures choice.Some? ==> 1 <= used && choice.value in options
    ensures choice.Some? ==> GetUserInput(options, lines[used - 1]) == Name(choice.value)
    ensures choice.Some? ==> forall j :: 0 <= j < used - 1 ==> !Accepted(options, GetUserInput(options, lines[j]))
    ensures choice.None? ==> used == |lines|
    ensures choice.None? ==> forall j :: 0 <= j < |lines| ==> !Accepted(options, GetUserInput(options, lines[j]))
    ensures (choice, used) == FirstAccepted(options, lines)
  {
    if lines == [] {
      return None, 0;
    }
    var c := GetUserInput(options, lines[0]);
    used := 1;
    while !Accepted(options, c) && used < |lines|
      invariant 1 <= used <= |lines|
      invariant c == GetUserInput(options, lines[used - 1])
      invariant forall j :: 0 <= j < used - 1 ==> !Accepted(options, GetUserInput(options, lines[j]))
      decreases |lines| - used
    {
      RejectedOneMore(options, lines, used - 1);
      c := GetUserInput(options, lines[used]);
      used := used + 1;
    }
    if Accepted(options, c) {
      choice := Some(c.name);
    } else {
      choice := None;
    }
    FirstAcceptedUnique(options, lines, choice, used);
  }

  /** The reference definition of the prompt loop: the first typed line that
      resolves to an option, and how many lines were read up to it; with no
      such line, no choice after reading every line. */
  function FirstAccepted(options: seq<string>, lines: seq<string>): (r: (Option<string>, nat))
    ensures r.1 <= |lines|
    decreases |lines|
  {
    if lines == [] then (None, 0)
    else
      var c := GetUserInput(options, lines[0]);
      if Accepted(options, c) then (Some(c.name), 1)
      else
        var rest := FirstAccepted(options, lines[1..]);
        (rest.0, rest.1 + 1)
  }

  /** The lines left over once a choice has been made. */
  function AfterChoice(options: seq<string>, lines: seq<string>): (rest: seq<string>)
    ensures |rest| <= |lines|
  {
    lines[FirstAccepted(options, lines).1..]
  }

  /** "First accepted line, every earlier one rejected" has one answer, and
      it is the reference definition's. */
  lemma {:induction false} FirstAcceptedUnique(options: seq<string>, lines: seq<string>, choice: Option<string>, used: nat)
    requires used <= |lines|
    requires choice.Some? ==> 1 <= used && GetUserInput(options, lines[used - 1]) == Name(choice.value) && choice.value in options
    requires choice.Some? ==> forall j :: 0 <= j < used - 1 ==> !Accepted(options, GetUserInput(options, lines[j]))
    requires choice.None? ==> used == |lines|
    requires choice.None? ==> forall j :: 0 <= j < |lines| ==> !Accepted(options, GetUserInput(options, lines[j]))
    ensures FirstAccepted(options, lines) == (choice, used)
    decreases |lines|
  {
    if lines != [] {
      var c := GetUserInput(options, lines[0]);
      if !Accepted(options, c) {
        var tail := lines[1..];
        forall j | 0 <= j < used - 1 - 1 ensures !Accepted(options, GetUserInput(options, tail[j])) {
          assert tail[j] == lines[j + 1];
        }
        if choice.Some? {
          assert tail[used - 1 - 1] == lines[used - 1];
        } else {
          forall j | 0 <= j < |tail| ensures !Accepted(options, GetUserInput(options, tail[j])) {
            assert tail[j] == lines[j + 1];
          }
        }
        FirstAcceptedUnique(options, tail, choice, used - 1);
      }
    }
  }

  lemma RejectedOneMore(options: seq<string>, lines: seq<string>, n: nat)
    requires n < |lines|
    requires forall j :: 0 <= j < n ==> !Accepted(options, GetUserInput(options, lines[j]))
    requires !Accepted(options, GetUserInput(options, lines[n]))
    ensures forall j :: 0 <= j <= n ==> !Accepted(options, GetUserInput(options, lines[j]))
  {
  }

  /** A Python list of option names, which `get_filter` extends in place. */
  class OptionList {
    var items: seq<string>

    constructor (items: seq<string>)
      ensures this.items == items
    {
      this.items := items;
    }

    /** `options.insert(0, 'all')` */
    method InsertAll()
      modifies this
      ensures items == ["all"] + old(items)
    {
      items := ["all"] + items;
    }
  }

  /** `get_filter`: optionally put "all" in front of the caller's list, then
      read lines until a choice is on the list. */
  method GetFilter(options: OptionList, allOption: bool, lines: seq<string>) returns (choice: Option<string>, used: nat)
    modifies options
    ensures options.items == if allOption then ["all"] + old(options.items) else old(options.items)
    ensures used <= |lines|
    ensures choice.Some? ==> 1 <= used && choice.value in options.items
    ensures choice.Some? ==> GetUserInput(options.items, lines[used - 1]) == Name(choice.value)
    ensures choice.Some? ==> forall j :: 0 <= j < used - 1 ==> !Accepted(options.items, GetUserInput(options.items, lines[j]))
    ensures choice.None? ==> used == |lines|
    ensures choice.None? ==> forall j :: 0 <= j < |lines| ==> !Accepted(options.items, GetUserInput(options.items, lines[j]))
    ensures (choice, used) == FirstAccepted(options.items, lines)
  {
    if allOption {
      options.InsertAll();
    }
    choice, used := ReadUntilValid(options.items, lines);
  }

  /** `get_filters`: a city, then a month, then a day, each chosen from a
      fresh copy of its list (so the constant lists never gain "all"), all
      read from one stream of typed lines. Once the lines run out, the
      remaining choices stay unmade. */
  method GetFilters(lines: seq<string>) returns (city: Option<string>, month: Option<string>, day: Option<string>)
    ensures city.Some? ==> city.value in CITIES
    ensures month.Some? ==> city.Some? && month.value in ["all"] + MONTHS
    ensures day.Some? ==> month.Some? && day.value in ["all"] + DAYS
    ensures day.Some? ==> Text.Title(day.value) != "Wednesday"
    ensures city == FirstAccepted(CITIES, lines).0
    ensures month == if city.None? then None
      else FirstAccepted(["all"] + MONTHS, AfterChoice(CITIES, lines)).0
    ensures day == if month.None? then None
      else FirstAccepted(["all"] + DAYS, AfterChoice(["all"] + MONTHS, AfterChoice(CITIES, lines))).0
  {
    month, day := None, None;
    var cities := new OptionList(CITIES);
    var used;
    city, used := GetFilter(cities, false, lines);
    if city.None? {
      return;
    }
    var rest := lines[used..];
    var months := new OptionList(MONTHS);
    month, used := GetFilter(months, true, rest);
    if month.None? {
      return;
    }
    rest := rest[used..];
    var days := new OptionList(DAYS);
    day, used := GetFilter(days, true, rest);
    if day.Some? {
      NoDayOptionIsWednesday(day.value);
    }
  }

  /** On the day menu, "4" selects the misspelt "wednessday". */
  lemma FourSelectsWednessday()
    ensures GetUserInput(["all"] + DAYS, "4") == Name("wednessday")
  {
    assert Text.Decimal(4) == "4";
    SelectByNumber(["all"] + DAYS, 4);
  }

  /** None of the day menu's options title-cases to "Wednesday": the listed
      "wednessday" has one letter too many. */
  lemma NoDayOptionIsWednesday(o: string)
    requires o in ["all"] + DAYS
    ensures Text.Title(o) != "Wednesday"
  {
    assert |o| != |"Wednesday"|;
  }

  /** No accepted answer on the day menu names Wednesday, whether it was
      typed as a number or as a name. */
  lemma NoAnswerSelectsWednesday(line: string)
    requires Accepted(["all"] + DAYS, GetUserInput(["all"] + DAYS, line))
    ensures Text.Title(GetUserInput(["all"] + DAYS, line).name) != "Wednesday"
  {
    NoDayOptionIsWednesday(GetUserInput(["all"] + DAYS, line).name);
  }

  /** The corrected list names every weekday, in order. */
  lemma CorrectedDaysAreWeekdays()
    ensures forall i :: 0 <= i < 7 ==> Text.Title(CORRECTED_DAYS[i]) == Calendar.WeekdayNames[i]
  {
    forall i | 0 <= i < 7 ensures Text.Title(CORRECTED_DAYS[i]) == Calendar.WeekdayNames[i] {
      CorrectedDayIsWeekday(i);
    }
  }

  lemma CorrectedDayIsWeekday(i: nat)
    requires i < 7
    ensures Text.Title(CORRECTED_DAYS[i]) == Calendar.WeekdayNames[i]
  {
    var day := CORRECTED_DAYS[i];
    Text.TitleOfLowerWord(day);
  }
}
