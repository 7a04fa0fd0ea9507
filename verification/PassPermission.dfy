/** Pass permissions: the text that one handler prints and another reads back (HttpServer/protocol.cpp), and the decision
    that the store takes from it (RegisteredFacesDB::CheckPassageOfTime). */
module PassPermission {
  import opened Wrappers

  // ---------- Text ----------

  /** QString::split: the parts between separators, at least one. */
  function Split(s: string, sep: char): (parts: seq<string>)
    ensures |parts| >= 1
  {
    if s == "" then [""]
    else
      var rest := Split(s[1..], sep);
      if s[0] == sep then [""] + rest else [[s[0]] + rest[0]] + rest[1..]
  }

  /** One part more than separators. */
  lemma {:induction false} SplitCount(s: string, sep: char)
    ensures |Split(s, sep)| == 1 + multiset(s)[sep]
  {
    if s != "" {
      SplitCount(s[1..], sep);
      assert s == [s[0]] + s[1..];
    }
  }

  lemma {:induction false} SplitConcat(a: string, b: string, sep: char)
    ensures Split(a + [sep] + b, sep) == Split(a, sep) + Split(b, sep)
  {
    if a == "" {
      assert (a + [sep] + b)[1..] == b;
    } else {
      assert (a + [sep] + b)[1..] == a[1..] + [sep] + b;
      SplitConcat(a[1..], b, sep);
    }
  }

  /** A part holds no separator. */
  lemma {:induction false} PartsAreWhole(s: string, sep: char)
    ensures forall p | p in Split(s, sep) :: sep !in p
  {
    if s != "" {
      PartsAreWhole(s[1..], sep);
    }
  }

  lemma {:induction false} SplitWhole(s: string, sep: char)
    requires sep !in s
    ensures Split(s, sep) == [s]
  {
    if s != "" {
      SplitWhole(s[1..], sep);
      assert [s[0]] + s[1..] == s;
    }
  }

  /** Where the k-th part stands: between separators or the ends of the text. */
  lemma {:induction false} PartStands(s: string, sep: char, k: nat) returns (a: string, b: string)
    requires k < |Split(s, sep)|
    ensures s == a + Split(s, sep)[k] + b && Bordered(a, b, sep) && (k == 0 <==> a == "")
  {
    if s == "" {
      a, b := "", "";
    } else if s[0] == sep && k == 0 {
      a, b := "", s;
    } else if s[0] == sep {
      a, b := PartStands(s[1..], sep, k - 1);
      a := [s[0]] + a;
      assert s == [s[0]] + s[1..];
    } else {
      a, b := PartStands(s[1..], sep, k);
      assert s == [s[0]] + s[1..];
      if k > 0 {
        a := [s[0]] + a;
      }
    }
  }

  predicate Bordered(a: string, b: string, sep: char) {
    (a == "" || a[|a| - 1] == sep) && (b == "" || b[0] == sep)
  }

  lemma StandingIsPart(a: string, token: string, b: string, sep: char)
    requires sep !in token && Bordered(a, b, sep)
    ensures token in Split(a + token + b, sep)
  {
    SplitWhole(token, sep);
    if b != "" {
      assert token + b == token + [sep] + b[1..];
      SplitConcat(token, b[1..], sep);
    } else {
      assert token + b == token;
    }
    assert token == Split(token + b, sep)[0];
    if a != "" {
      assert a + token + b == a[..|a| - 1] + [sep] + (token + b);
      SplitConcat(a[..|a| - 1], token + b, sep);
    } else {
      assert a + token + b == token + b;
    }
  }

  /** The parts of a text are the stretches without separators that stand between separators or its ends. */
  lemma PartIff(s: string, token: string, sep: char)
    ensures
      token in Split(s, sep) <==>
      sep !in token && exists a, b :: s == a + token + b && Bordered(a, b, sep)
  {
    if token in Split(s, sep) {
      PartsAreWhole(s, sep);
      var k :| 0 <= k < |Split(s, sep)| && Split(s, sep)[k] == token;
      var a, b := PartStands(s, sep, k);
      assert s == a + token + b;
    } else if sep !in token {
      forall a, b | Bordered(a, b, sep) ensures s != a + token + b {
        StandingIsPart(a, token, b, sep);
      }
    }
  }

  /** Text without separators goes to the last part. */
  lemma {:induction false} SplitAppend(a: string, b: string, sep: char)
    requires sep !in b
    ensures var parts := Split(a, sep); Split(a + b, sep) == parts[..|parts| - 1] + [parts[|parts| - 1] + b]
  {
    if a == "" {
      assert a + b == b;
      SplitWhole(b, sep);
    } else {
      assert (a + b)[1..] == a[1..] + b;
      SplitAppend(a[1..], b, sep);
      var parts, rest := Split(a, sep), Split(a[1..], sep);
      if a[0] == sep {
        assert parts[..|parts| - 1] == [""] + rest[..|rest| - 1];
      } else if |rest| > 1 {
        assert parts[..|parts| - 1] == [[a[0]] + rest[0]] + rest[1..][..|rest| - 2];
        assert rest[..|rest| - 1][1..] == rest[1..][..|rest| - 2];
      } else {
        Associate([a[0]], rest[0], b);
      }
    }
  }

  /** QString::replace(";", ",") */
  function Commas(s: string): (t: string)
    ensures |t| == |s| && ';' !in t
    ensures ';' !in s ==> t == s
  {
    if s == "" then "" else [if s[0] == ';' then ',' else s[0]] + Commas(s[1..])
  }

  lemma {:induction false} CommasConcat(a: string, b: string)
    ensures Commas(a + b) == Commas(a) + Commas(b)
  {
    if a == "" {
      assert a + b == b;
    } else {
      assert (a + b)[1..] == a[1..] + b;
      CommasConcat(a[1..], b);
    }
  }

  /** QString::number(i) for a day of the week. */
  function DayName(i: nat): string
    requires 1 <= i <= 7
  {
    if i == 1 then "1" else if i == 2 then "2" else if i == 3 then "3" else if i == 4 then "4"
    else if i == 5 then "5" else if i == 6 then "6" else "7"
  }

  // ---------- Writing a weekly permission ----------

  /** The request names day i. */
  predicate Names(data: string, i: nat)
    requires 1 <= i <= 7
  {
    DayName(i) in Split(data, ',')
  }

  /** A request names a day when the day's digit, Monday being 1, stands in it alone between commas. */
  lemma NamesIff(data: string, i: nat)
    requires 1 <= i <= 7
    ensures
      Names(data, i) <==>
      exists a, b :: data == a + ['0' + i as char] + b && Bordered(a, b, ',')
  {
    assert DayName(i) == ['0' + i as char];
    PartIff(data, DayName(i), ',');
  }

  function Flag(on: bool): string {
    if on then "1" else "0"
  }

  /** The flags of the first k days, each after a comma. */
  function FlagText(data: string, k: nat): string
    requires k <= 7
  {
    if k == 0 then "" else FlagText(data, k - 1) + ("," + Flag(Names(data, k)))
  }

  function FlagList(data: string, k: nat): (flags: seq<string>)
    requires k <= 7
    ensures |flags| == k
    ensures forall i | 1 <= i <= k :: flags[i - 1] == Flag(Names(data, i))
  {
    if k == 0 then [] else FlagList(data, k - 1) + [Flag(Names(data, k))]
  }

  /** What on_people_set_pass_permision stores for a "week_cycle". */
  function WeeklyText(timeRange: string, data: string): string {
    Commas(timeRange) + FlagText(data, 7)
  }

  /** What it stores for any kind of permission. */
  function StoredText(authType: string, timeRange: string, data: string): string {
    if authType == "time_range" then timeRange else if authType == "week_cycle" then WeeklyText(timeRange, data) else ""
  }

  /** The inner loop: the flag of one day. */
  method AppendFlag(text: string, sections: seq<string>, i: nat) returns (timeOfAccess: string)
    requires 1 <= i <= 7
    ensures timeOfAccess == text + ("," + Flag(DayName(i) in sections))
  {
    timeOfAccess := text + ",";
    var isSet := false;
    var j := 0;
    while j < |sections| && !isSet
      invariant 0 <= j <= |sections|
      invariant isSet == (DayName(i) in sections[..j])
      invariant timeOfAccess == if isSet then text + "," + "1" else text + ","
    {
      if sections[j] == DayName(i) {
        timeOfAccess := timeOfAccess + "1";
        isSet := true;
      }
      j := j + 1;
    }
    if !isSet {
      timeOfAccess := timeOfAccess + "0";
    }
  }

  method BuildPermission(authType: string, timeRange: string, data: string) returns (timeOfAccess: string)
    ensures timeOfAccess == StoredText(authType, timeRange, data)
  {
    timeOfAccess := "";
    if authType == "time_range" {
      timeOfAccess := timeRange;
    } else if authType == "week_cycle" {
      timeOfAccess := Commas(timeRange);
      var sections := Split(data, ',');
      assert timeOfAccess + "" == timeOfAccess;
      for i := 1 to 8
        invariant timeOfAccess == Commas(timeRange) + FlagText(data, i - 1)
      {
        Associate(Commas(timeRange), FlagText(data, i - 1), "," + Flag(Names(data, i)));
        timeOfAccess := AppendFlag(timeOfAccess, sections, i);
      }
    }
  }

  lemma Associate(a: string, b: string, c: string)
    ensures a + b + c == a + (b + c)
  {
  }

  // ---------- Reading a permission ----------

  datatype Reading = Reading(authType: string, timeRange: string, data: string)

  /** The days up to k whose section is "1", each followed by a comma. */
  function DayText(sections: seq<string>, k: nat): string
    requires k <= 7 && |sections| >= 9
  {
    if k == 0 then ""
    else if sections[1 + k] == "1" then DayText(sections, k - 1) + (DayName(k) + ",") else DayText(sections, k - 1)
  }

  /** What on_people_get_pass_permision answers for a stored text; None when it indexes a section that is not there. */
  function Read(timeOfAccess: string): Option<Reading> {
    if ';' in timeOfAccess then
      var sections := Split(timeOfAccess, ';');
      if |sections| < 2 then None else Some(Reading("time_range", sections[0] + ";" + sections[1], ""))
    else
      var sections := Split(timeOfAccess, ',');
      if |sections| < 9 then None
      else Some(Reading("week_cycle", sections[0] + ";" + sections[1], DayText(sections, 7)))
  }

  /** The loop over the seven flags. */
  method ReadDays(sections: seq<string>) returns (weekCycle: string)
    requires |sections| >= 9
    ensures weekCycle == DayText(sections, 7)
  {
    weekCycle := "";
    for i := 0 to 7
      invariant weekCycle == DayText(sections, i)
    {
      if sections[2 + i] == "1" {
        weekCycle := weekCycle + (DayName(i + 1) + ",");
      }
    }
  }

  method ReadPermission(timeOfAccess: string) returns (r: Option<Reading>)
    ensures r == Read(timeOfAccess)
    ensures r == None <==> ';' !in timeOfAccess && multiset(timeOfAccess)[','] < 8
  {
    SplitCount(timeOfAccess, ';');
    SplitCount(timeOfAccess, ',');
    if ';' in timeOfAccess {
      var sections := Split(timeOfAccess, ';');
      if |sections| < 2 {
        return None;
      }
      return Some(Reading("time_range", sections[0] + ";" + sections[1], ""));
    }
    var sections := Split(timeOfAccess, ',');
    if |sections| < 9 {
      return None;
    }
    var weekCycle := ReadDays(sections);
    return Some(Reading("week_cycle", sections[0] + ";" + sections[1], weekCycle));
  }

  // ---------- The round trip ----------

  /** The days up to k that a request names, ascending, each followed by a comma. */
  function NamedDays(data: string, k: nat): string
    requires k <= 7
  {
    if k == 0 then ""
    else if Names(data, k) then NamedDays(data, k - 1) + (DayName(k) + ",") else NamedDays(data, k - 1)
  }

  /** The sections of a text with k flags behind it. */
  lemma {:induction false} FlagsAreSections(p: string, data: string, k: nat)
    requires k <= 7
    ensures Split(p + FlagText(data, k), ',') == Split(p, ',') + FlagList(data, k)
  {
    if k == 0 {
      assert p + "" == p;
    } else {
      FlagsAreSections(p, data, k - 1);
      NextFlag(p, FlagText(data, k - 1), FlagList(data, k - 1), Names(data, k));
    }
  }

  lemma NextFlag(p: string, text: string, flags: seq<string>, on: bool)
    requires Split(p + text, ',') == Split(p, ',') + flags
    ensures Split(p + (text + ("," + Flag(on))), ',') == Split(p, ',') + (flags + [Flag(on)])
  {
    Associate(p, text, "," + Flag(on));
    OneMoreFlag(p + text, on);
  }

  lemma OneMoreFlag(text: string, on: bool)
    ensures Split(text + ("," + Flag(on)), ',') == Split(text, ',') + [Flag(on)]
  {
    Associate(text, ",", Flag(on));
    SplitConcat(text, Flag(on), ',');
    SplitWhole(Flag(on), ',');
  }

  lemma {:induction false} NoSemicolon(data: string, k: nat)
    requires k <= 7
    ensures ';' !in FlagText(data, k)
  {
    if k > 0 {
      NoSemicolon(data, k - 1);
    }
  }

  /** The sections of a weekly text: those of the time range, then seven flags. */
  lemma WeeklySections(timeRange: string, data: string)
    ensures ';' !in WeeklyText(timeRange, data)
    ensures Split(WeeklyText(timeRange, data), ',') == Split(Commas(timeRange), ',') + FlagList(data, 7)
  {
    FlagsAreSections(Commas(timeRange), data, 7);
    NoSemicolon(data, 7);
  }

  lemma {:induction false} DaysOfFlags(sections: seq<string>, data: string, k: nat)
    requires k <= 7 && |sections| == 9 && sections[2..] == FlagList(data, 7)
    ensures DayText(sections, k) == NamedDays(data, k)
  {
    if k > 0 {
      DaysOfFlags(sections, data, k - 1);
      assert sections[1 + k] == sections[2..][k - 1] == Flag(Names(data, k));
    }
  }

  /** A time range with one separator. */
  predicate OneSeparator(timeRange: string) {
    |Split(Commas(timeRange), ',')| == 2
  }

  /** Reading a weekly permission back gives the time range (up to the form of its separators) and exactly the named
      days in ascending order, whatever the order, the repetitions and the unknown tokens of the request, if and only if
      the time range has exactly one separator. */
  lemma WeeklyRoundTrip(timeRange: string, data: string)
    ensures
      var r := Read(WeeklyText(timeRange, data));
      (&& r.Some? && r.value.authType == "week_cycle"
       && Commas(r.value.timeRange) == Commas(timeRange)
       && r.value.data == NamedDays(data, 7))
      <==> OneSeparator(timeRange)
  {
    WeeklySections(timeRange, data);
    var times := Split(Commas(timeRange), ',');
    var sections := Split(WeeklyText(timeRange, data), ',');
    if |times| >= 2 {
      TwoTimes(times[0], times[1], Commas(timeRange));
      assert sections[0] == times[0] && sections[1] == times[1];
    }
    if |times| == 2 {
      assert sections[2..] == FlagList(data, 7);
      DaysOfFlags(sections, data, 7);
      JoinTwo(Commas(timeRange), ',');
    }
  }

  /** A date range is read back as it was set if and only if it has exactly one semicolon. */
  lemma DateRangeRoundTrip(timeRange: string, data: string)
    ensures
      Read(StoredText("time_range", timeRange, data)) == Some(Reading("time_range", timeRange, ""))
      <==> multiset(timeRange)[';'] == 1
  {
    SplitCount(timeRange, ';');
    if multiset(timeRange)[';'] == 1 {
      JoinTwo(timeRange, ';');
    } else if ';' in timeRange {
      var sections := Split(timeRange, ';');
      SplitConcat(sections[0], sections[1], ';');
      PartsAreWhole(timeRange, ';');
      assert sections[0] in sections && sections[1] in sections;
      SplitWhole(sections[0], ';');
      SplitWhole(sections[1], ';');
      assert sections[0] + [';'] + sections[1] == sections[0] + ";" + sections[1];
    }
  }

  /** The named days are the names of a request again. */
  lemma {:induction false} NamesOfNamedDays(data: string, k: nat, i: nat)
    requires k <= 7 && 1 <= i <= 7
    ensures ListsDay(NamedDays(data, k), i, i <= k && Names(data, i))
  {
    if k == 0 {
      assert Split("", ',') == [""];
    } else {
      NamesOfNamedDays(data, k - 1, i);
      if Names(data, k) {
        OneMoreDay(NamedDays(data, k - 1), k, i, i <= k - 1 && Names(data, i));
      }
    }
  }

  /** A list of days that ends with a comma, or is empty, and names day i or does not. */
  predicate ListsDay(days: string, i: nat, named: bool)
    requires 1 <= i <= 7
  {
    var parts := Split(days, ',');
    parts[|parts| - 1] == "" && (DayName(i) in parts <==> named)
  }

  /** A part with its separator behind a text that ends with a separator or is empty. */
  lemma SplitAppendField(a: string, b: string, sep: char)
    requires sep !in b && var parts := Split(a, sep); parts[|parts| - 1] == ""
    ensures var parts, more := Split(a, sep), Split(a + (b + [sep]), sep);
      more[|more| - 1] == "" && forall p :: p in more <==> p in parts || p == b
  {
    var parts := Split(a, sep);
    SplitAppend(a, b, sep);
    SplitConcat(a + b, "", sep);
    assert a + b + [sep] + "" == a + (b + [sep]);
    var more := Split(a + (b + [sep]), sep);
    assert "" + b == b;
    assert more == parts[..|parts| - 1] + [b] + [""];
    assert parts == parts[..|parts| - 1] + [""];
  }

  lemma OneMoreDay(days: string, k: nat, i: nat, named: bool)
    requires 1 <= k <= 7 && 1 <= i <= 7 && ListsDay(days, i, named)
    ensures ListsDay(days + (DayName(k) + ","), i, named || i == k)
  {
    SplitAppendField(days, DayName(k), ',');
    DayNamesDiffer(i, k);
  }

  lemma DayNamesDiffer(i: nat, k: nat)
    requires 1 <= i <= 7 && 1 <= k <= 7
    ensures DayName(i) == DayName(k) <==> i == k
    ensures DayName(i) != ""
  {
  }

  lemma {:induction false} SameFlags(a: string, b: string, k: nat)
    requires k <= 7 && forall i | 1 <= i <= 7 :: Names(a, i) == Names(b, i)
    ensures FlagText(a, k) == FlagText(b, k)
  {
    if k > 0 {
      SameFlags(a, b, k - 1);
    }
  }

  /** Writing what was read back stores the identical text, if and only if the time range has exactly one separator. */
  lemma ReadBackIsStable(timeRange: string, data: string)
    ensures
      var r := Read(WeeklyText(timeRange, data));
      (r.Some? && StoredText(r.value.authType, r.value.timeRange, r.value.data) == WeeklyText(timeRange, data))
      <==> OneSeparator(timeRange)
  {
    WeeklySections(timeRange, data);
    WeeklyRoundTrip(timeRange, data);
    var r := Read(WeeklyText(timeRange, data));
    if OneSeparator(timeRange) {
      var days := r.value.data;
      forall i | 1 <= i <= 7 ensures Names(days, i) == Names(data, i) {
        NamesOfNamedDays(data, 7, i);
        assert ListsDay(days, i, Names(data, i));
      }
      SameFlags(days, data, 7);
    } else if r.Some? {
      var sections := Split(WeeklyText(timeRange, data), ',');
      var times := Split(Commas(timeRange), ',');
      TwoTimes(times[0], times[1], Commas(timeRange));
      WeeklySections(r.value.timeRange, r.value.data);
      assert |Split(Commas(r.value.timeRange), ',')| == 2;
    }
  }

  /** The same in terms of the two times. */
  lemma WeeklyReading(timeRange: string, data: string)
    requires OneSeparator(timeRange)
    ensures
      var times := Split(Commas(timeRange), ',');
      Read(WeeklyText(timeRange, data)) == Some(Reading("week_cycle", times[0] + ";" + times[1], NamedDays(data, 7)))
  {
    WeeklySections(timeRange, data);
    var sections := Split(WeeklyText(timeRange, data), ',');
    assert sections[2..] == FlagList(data, 7);
    DaysOfFlags(sections, data, 7);
  }

  /** The first two times of a text, joined by a semicolon as the reader does it. */
  lemma TwoTimes(a: string, b: string, text: string)
    requires |Split(text, ',')| >= 2 && a == Split(text, ',')[0] && b == Split(text, ',')[1] && ';' !in text
    ensures Commas(a + ";" + b) == a + "," + b
    ensures |Split(a + "," + b, ',')| == 2
  {
    PartsAreWhole(text, ',');
    assert a in Split(text, ',') && b in Split(text, ',');
    PartsFromText(text, ',', ';');
    CommasConcat(a + ";", b);
    CommasConcat(a, ";");
    assert Commas(";") == ",";
    SplitConcat(a, b, ',');
    SplitWhole(a, ',');
    SplitWhole(b, ',');
    assert a + [','] + b == a + "," + b;
  }

  /** The parts hold only characters of the text. */
  lemma {:induction false} PartsFromText(s: string, sep: char, c: char)
    requires c !in s
    ensures forall p | p in Split(s, sep) :: c !in p
  {
    if s != "" {
      PartsFromText(s[1..], sep, c);
    }
  }

  /** A text of two parts is the two parts with the separator between them. */
  lemma {:induction false} JoinTwo(s: string, sep: char)
    requires |Split(s, sep)| == 2
    ensures s == Split(s, sep)[0] + [sep] + Split(s, sep)[1]
  {
    if s[0] == sep {
      JoinOne(s[1..], sep);
    } else {
      JoinTwo(s[1..], sep);
    }
  }

  lemma {:induction false} JoinOne(s: string, sep: char)
    requires |Split(s, sep)| == 1
    ensures s == Split(s, sep)[0]
  {
    if s != "" {
      JoinOne(s[1..], sep);
    }
  }
}
