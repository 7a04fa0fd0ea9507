/** Who may pass: the decision that RegisteredFacesDB::CheckPassageOfTime takes from a person's own permission text
    and the device's PassageTime table, and what it makes of the permissions that the set handler stores. */
module PassDecision {
  import opened Wrappers
  import opened PersonStore
  import StoreAgreement
  import opened PassPermission

  /** One moment: milliseconds since midnight, and the day of the week with Monday 1. */
  datatype Clock = Clock(ms: nat, day: nat)
  {
    predicate Valid() {
      1 <= day <= 7
    }
  }

  /** A row of PassageTime; the days start with Monday. */
  datatype Window = Window(start: string, end: string, days: Week)

  type Week = d: seq<bool> | |d| == 7 witness [false, false, false, false, false, false, false]

  // ---------- Times ----------

  function Digit(c: char): int {
    if '0' <= c <= '9' then (c - '0') as int else -1
  }

  /** QTime::fromString(s, "hh:mm") in milliseconds; an invalid time compares as -1. */
  function ParseTime(s: string): (ms: int)
    ensures -1 <= ms < 86400000
  {
    if |s| != 5 || s[2] != ':' then -1
    else
      var (h, l, m, n) := (Digit(s[0]), Digit(s[1]), Digit(s[3]), Digit(s[4]));
      if h < 0 || l < 0 || m < 0 || n < 0 || 10 * h + l > 23 || m > 5 then -1
      else ((10 * h + l) * 60 + 10 * m + n) * 60000
  }

  /** QTime::toString("hh:mm"): the empty text for an invalid time. */
  function TimeText(s: string): (text: string)
    ensures text == "" <==> ParseTime(s) < 0
  {
    if ParseTime(s) < 0 then "" else s
  }

  function DigitText(d: nat): char
    requires d < 10
  {
    '0' + d as char
  }

  /** A time of day as "hh:mm". */
  function ClockText(hour: nat, minute: nat): string
    requires hour < 24 && minute < 60
  {
    [DigitText(hour / 10), DigitText(hour % 10), ':', DigitText(minute / 10), DigitText(minute % 10)]
  }

  /** The valid texts are exactly those of the times of day, and each is read as its time. */
  lemma TimesOfDay(hour: nat, minute: nat)
    requires hour < 24 && minute < 60
    ensures ParseTime(ClockText(hour, minute)) == (60 * hour + minute) * 60000
  {
  }

  lemma ValidTimes(s: string)
    ensures ParseTime(s) >= 0 <==> exists hour, minute :: 0 <= hour < 24 && 0 <= minute < 60 && s == ClockText(hour, minute)
  {
    if ParseTime(s) >= 0 {
      var hour, minute := 10 * Digit(s[0]) + Digit(s[1]), 10 * Digit(s[3]) + Digit(s[4]);
      assert s == ClockText(hour, minute);
    } else {
      forall hour, minute | 0 <= hour < 24 && 0 <= minute < 60 ensures s != ClockText(hour, minute) {
        TimesOfDay(hour, minute);
      }
    }
  }

  /** So 08:30 is 30600 seconds after midnight. */
  lemma HalfPastEight()
    ensures ClockText(8, 30) == "08:30" && ParseTime("08:30") == 30600000
  {
    TimesOfDay(8, 30);
  }

  /** cur <= end && cur >= start */
  predicate Open(start: string, end: string, now: Clock) {
    ParseTime(start) <= now.ms <= ParseTime(end)
  }

  /** The text is a time of day. */
  ghost predicate IsTime(s: string) {
    exists hour: nat, minute: nat :: hour < 24 && minute < 60 && s == ClockText(hour, minute)
  }

  /** The text is a time of day that has come. */
  ghost predicate NotBefore(s: string, now: Clock) {
    exists hour: nat, minute: nat ::
      hour < 24 && minute < 60 && s == ClockText(hour, minute) && (60 * hour + minute) * 60000 <= now.ms
  }

  /** The text is a time of day that is not over. */
  ghost predicate NotAfter(s: string, now: Clock) {
    exists hour: nat, minute: nat ::
      hour < 24 && minute < 60 && s == ClockText(hour, minute) && now.ms <= (60 * hour + minute) * 60000
  }

  /** Within the window: its end is a time and not over, and its start has come or is no time. */
  ghost predicate InWindow(start: string, end: string, now: Clock) {
    NotAfter(end, now) && (NotBefore(start, now) || !IsTime(start))
  }

  lemma TimeIff(s: string, now: Clock)
    ensures IsTime(s) <==> ParseTime(s) >= 0
    ensures NotBefore(s, now) <==> 0 <= ParseTime(s) <= now.ms
    ensures NotAfter(s, now) <==> now.ms <= ParseTime(s)
  {
    ValidTimes(s);
    forall hour: nat, minute: nat | hour < 24 && minute < 60
      ensures ParseTime(ClockText(hour, minute)) == (60 * hour + minute) * 60000
    {
      TimesOfDay(hour, minute);
    }
  }

  /** The comparison of the code is being within the window; an end that is no time never opens. */
  lemma OpenIff(start: string, end: string, now: Clock)
    ensures Open(start, end, now) <==> InWindow(start, end, now)
  {
    TimeIff(start, now);
    TimeIff(end, now);
  }

  /** For two times of day: from the first to the second, both included. */
  lemma WindowOfTimes(h1: nat, m1: nat, h2: nat, m2: nat, now: Clock)
    requires h1 < 24 && m1 < 60 && h2 < 24 && m2 < 60
    ensures
      InWindow(ClockText(h1, m1), ClockText(h2, m2), now)
      <==> (60 * h1 + m1) * 60000 <= now.ms <= (60 * h2 + m2) * 60000
  {
    TimesOfDay(h1, m1);
    TimesOfDay(h2, m2);
    TimeIff(ClockText(h1, m1), now);
    TimeIff(ClockText(h2, m2), now);
  }

  // ---------- The person's own permission ----------

  /** The decision of one permission text, or None when it decides nothing. The dates of a date range are compared by
      inRange. */
  function OwnDecision(text: string, now: Clock, inRange: (string, string) -> bool): Option<bool>
    requires now.Valid()
  {
    var sections := Split(text, ',');
    if |sections| <= 1 then None
    else if |sections| == 9 then Some(Open(sections[0], sections[1], now) && sections[1 + now.day] == "1")
    else
      var dates := Split(text, ';');
      if |dates| == 2 then Some(inRange(dates[0], dates[1])) else None
  }

  /** The loop over the list: the first entry with this uuid that decides. */
  function ListDecision(persons: seq<Person>, uuid: string, now: Clock, inRange: (string, string) -> bool, from: nat := 0):
    Option<bool>
    requires now.Valid() && from <= |persons|
    decreases |persons| - from
  {
    if from == |persons| then None
    else
      var own := if persons[from].cols.uuid == uuid then OwnDecision(persons[from].cols.timeOfAccess, now, inRange) else None;
      if own.Some? then own else ListDecision(persons, uuid, now, inRange, from + 1)
  }

  // ---------- The device table ----------

  /** The loop over the device table: the first open window decides; without one, passing is allowed when there is no last
      window or its start or end prints as an empty text. */
  function DeviceDecision(windows: seq<Window>, now: Clock, from: nat := 0): bool
    requires now.Valid() && from <= |windows|
    decreases |windows| - from
  {
    if from == |windows| then
      windows == [] || ParseTime(windows[|windows| - 1].start) < 0 || ParseTime(windows[|windows| - 1].end) < 0
    else if Open(windows[from].start, windows[from].end, now) then windows[from].days[now.day - 1]
    else DeviceDecision(windows, now, from + 1)
  }

  /** CheckPassageOfTime. */
  function Allowed(
      persons: seq<Person>, uuid: string, windows: seq<Window>, now: Clock, inRange: (string, string) -> bool): bool
    requires now.Valid()
  {
    var own := if |uuid| > 3 then ListDecision(persons, uuid, now, inRange) else None;
    if own.Some? then own.value else DeviceDecision(windows, now)
  }

  // ---------- What the decision means ----------

  /** The first entry decides when its text decides. */
  lemma {:induction false} FirstEntryDecides(
      persons: seq<Person>, uuid: string, now: Clock, inRange: (string, string) -> bool, from: nat, k: nat)
    requires now.Valid() && from <= k < |persons| && persons[k].cols.uuid == uuid
    requires forall i | from <= i < k :: persons[i].cols.uuid != uuid
    ensures
      var own := OwnDecision(persons[k].cols.timeOfAccess, now, inRange);
      own.Some? ==> ListDecision(persons, uuid, now, inRange, from) == own
    decreases k - from
  {
    if from < k {
      FirstEntryDecides(persons, uuid, now, inRange, from + 1, k);
    }
  }

  lemma {:induction false} NoEntryDecides(
      persons: seq<Person>, uuid: string, now: Clock, inRange: (string, string) -> bool, from: nat)
    requires now.Valid() && from <= |persons|
    requires forall i | from <= i < |persons| && persons[i].cols.uuid == uuid ::
      OwnDecision(persons[i].cols.timeOfAccess, now, inRange).None?
    ensures ListDecision(persons, uuid, now, inRange, from).None?
    decreases |persons| - from
  {
    if from < |persons| {
      NoEntryDecides(persons, uuid, now, inRange, from + 1);
    }
  }

  /** In a valid store the uuid of a person is at one index, in the list and in the table. */
  lemma OneEntry(s: Store, k: nat)
    requires Valid(s) && k < |s.persons|
    ensures forall i | 0 <= i < |s.persons| :: s.persons[i].cols.uuid == s.persons[k].cols.uuid <==> i == k
    ensures forall i | 0 <= i < |s.table| :: s.table[i].cols.uuid == s.persons[k].cols.uuid <==> i == k
  {
    forall i | 0 <= i < |s.persons| ensures s.persons[i].cols.uuid == s.table[i].cols.uuid {
      StoreAgreement.SameUuids(s, i);
    }
  }

  /** In a valid store the one entry of a person decides, else the device table. */
  lemma OwnEntryDecides(s: Store, k: nat, windows: seq<Window>, now: Clock, inRange: (string, string) -> bool)
    requires Valid(s) && now.Valid() && k < |s.persons| && |s.persons[k].cols.uuid| > 3
    ensures
      var own := OwnDecision(s.persons[k].cols.timeOfAccess, now, inRange);
      Allowed(s.persons, s.persons[k].cols.uuid, windows, now, inRange)
      == if own.Some? then own.value else DeviceDecision(windows, now)
  {
    var uuid := s.persons[k].cols.uuid;
    OneEntry(s, k);
    if OwnDecision(s.persons[k].cols.timeOfAccess, now, inRange).Some? {
      FirstEntryDecides(s.persons, uuid, now, inRange, 0, k);
    } else {
      NoEntryDecides(s.persons, uuid, now, inRange, 0);
    }
  }

  /** A window decides when it is the first one the moment is in. */
  ghost predicate FirstOpen(windows: seq<Window>, now: Clock, i: int) {
    && 0 <= i < |windows| && InWindow(windows[i].start, windows[i].end, now)
    && forall j | 0 <= j < i :: !InWindow(windows[j].start, windows[j].end, now)
  }

  ghost predicate NoneOpen(windows: seq<Window>, now: Clock) {
    forall i | 0 <= i < |windows| :: !InWindow(windows[i].start, windows[i].end, now)
  }

  /** The device table allows by the first window that the moment is in, and when it is in none only if the table is empty
      or a time of its last window is none. */
  lemma DeviceDecides(windows: seq<Window>, now: Clock)
    requires now.Valid()
    ensures DeviceDecision(windows, now) <==>
      || (exists i :: FirstOpen(windows, now, i) && windows[i].days[now.day - 1])
      || (&& NoneOpen(windows, now)
          && (windows == [] || !IsTime(windows[|windows| - 1].start) || !IsTime(windows[|windows| - 1].end)))
  {
    DeviceDecidesFrom(windows, now, 0);
    if windows != [] {
      TimeIff(windows[|windows| - 1].start, now);
      TimeIff(windows[|windows| - 1].end, now);
    }
  }

  lemma {:induction false} DeviceDecidesFrom(windows: seq<Window>, now: Clock, from: nat)
    requires now.Valid() && from <= |windows|
    requires forall j | 0 <= j < from :: !InWindow(windows[j].start, windows[j].end, now)
    ensures forall i :: FirstOpen(windows, now, i) ==> DeviceDecision(windows, now, from) == windows[i].days[now.day - 1]
    ensures NoneOpen(windows, now) ==> DeviceDecision(windows, now, from) == DeviceDecision(windows, now, |windows|)
    ensures (exists i :: FirstOpen(windows, now, i)) || NoneOpen(windows, now)
    decreases |windows| - from
  {
    if from < |windows| {
      OpenIff(windows[from].start, windows[from].end, now);
      if Open(windows[from].start, windows[from].end, now) {
        assert FirstOpen(windows, now, from);
      } else {
        DeviceDecidesFrom(windows, now, from + 1);
      }
    }
  }

  /** A device table of one window: its days from its start to its end, both included, when these are times of day. */
  lemma OneWindowDecides(h1: nat, m1: nat, h2: nat, m2: nat, days: Week, now: Clock)
    requires h1 < 24 && m1 < 60 && h2 < 24 && m2 < 60 && now.Valid()
    ensures
      DeviceDecision([Window(ClockText(h1, m1), ClockText(h2, m2), days)], now)
      <==> (60 * h1 + m1) * 60000 <= now.ms <= (60 * h2 + m2) * 60000 && days[now.day - 1]
  {
    WindowOfTimes(h1, m1, h2, m2, now);
    OpenIff(ClockText(h1, m1), ClockText(h2, m2), now);
    TimesOfDay(h1, m1);
    TimesOfDay(h2, m2);
  }

  /** A uuid of at most three characters, or of nobody in the list, leaves the decision to the device table. */
  lemma StrangersMeetTheDeviceTable(
      persons: seq<Person>, uuid: string, windows: seq<Window>, now: Clock, inRange: (string, string) -> bool)
    requires now.Valid()
    requires |uuid| <= 3 || forall i | 0 <= i < |persons| :: persons[i].cols.uuid != uuid
    ensures Allowed(persons, uuid, windows, now, inRange) == DeviceDecision(windows, now)
  {
    if |uuid| > 3 {
      NoEntryDecides(persons, uuid, now, inRange, 0);
    }
  }

  // ---------- Weekly permissions ----------

  /** What any text of nine sections decides: two times and seven flags, Monday first. */
  lemma SectionsDecide(text: string, now: Clock, inRange: (string, string) -> bool)
    requires now.Valid()
    ensures
      var sections := Split(text, ',');
      |sections| == 9 ==>
        OwnDecision(text, now, inRange) == Some(InWindow(sections[0], sections[1], now) && sections[1 + now.day] == "1")
  {
    var sections := Split(text, ',');
    if |sections| == 9 {
      OpenIff(sections[0], sections[1], now);
    }
  }

  /** What a weekly text decides: with one separator in the time range, exactly the named days within the window; without,
      nothing. */
  lemma WeeklyDecision(timeRange: string, data: string, now: Clock, inRange: (string, string) -> bool)
    requires now.Valid()
    ensures
      var times := Split(Commas(timeRange), ',');
      OwnDecision(WeeklyText(timeRange, data), now, inRange)
      == if |times| == 2 then Some(InWindow(times[0], times[1], now) && Names(data, now.day)) else None
  {
    WeeklySections(timeRange, data);
    SectionsDecide(WeeklyText(timeRange, data), now, inRange);
    var text := WeeklyText(timeRange, data);
    var times, sections := Split(Commas(timeRange), ','), Split(text, ',');
    if |times| == 2 {
      assert sections[1 + now.day] == FlagList(data, 7)[now.day - 1] == Flag(Names(data, now.day));
    } else {
      SplitWhole(text, ';');
    }
  }

  /** The dates of a range are looked at only when the text has a comma, but not eight, and exactly one semicolon. */
  predicate DatesMatter(text: string) {
    |Split(text, ',')| > 1 && |Split(text, ',')| != 9 && |Split(text, ';')| == 2
  }

  lemma DatesMatterIff(text: string, now: Clock)
    requires now.Valid()
    ensures (exists f: (string, string) -> bool, g: (string, string) -> bool ::
               OwnDecision(text, now, f) != OwnDecision(text, now, g)) <==> DatesMatter(text)
  {
    var always := (a: string, b: string) => true;
    var never := (a: string, b: string) => false;
    if DatesMatter(text) {
      assert OwnDecision(text, now, always) != OwnDecision(text, now, never);
    }
  }

  /** Then exactly the range from the first date to the second decides. */
  lemma DatesDecide(text: string, now: Clock, inRange: (string, string) -> bool)
    requires now.Valid() && DatesMatter(text)
    ensures
      exists from, to ::
        text == from + ";" + to && ';' !in from && ';' !in to && OwnDecision(text, now, inRange) == Some(inRange(from, to))
  {
    var dates := Split(text, ';');
    JoinTwo(text, ';');
    PartsAreWhole(text, ';');
    assert dates[0] in dates && dates[1] in dates && text == dates[0] + ";" + dates[1];
  }

  /** A "time_range" permission in its documented form, two dates without a comma, never decides anything: the device
      table does, inside and outside the range. */
  lemma DateRangeIsNotEnforced(
      s: Store, k: nat, windows: seq<Window>, now: Clock, inRange: (string, string) -> bool)
    requires Valid(s) && now.Valid() && k < |s.persons| && |s.persons[k].cols.uuid| > 3
    requires ',' !in s.persons[k].cols.timeOfAccess
    ensures Allowed(s.persons, s.persons[k].cols.uuid, windows, now, inRange) == DeviceDecision(windows, now)
  {
    SplitWhole(s.persons[k].cols.timeOfAccess, ',');
    OwnEntryDecides(s, k, windows, now, inRange);
  }

  // ---------- Setting a permission through the store ----------

  /** The update that on_people_set_pass_permision asks for. */
  function PermissionRequest(uuid: string, authType: string, timeRange: string, data: string): UpdateRequest {
    UpdateRequest(uuid, "", "", "", "", "", StoredText(authType, timeRange, data), NoPicture, [], "", "", "", "", None, 0)
  }

  function SetPermission(
      s: Store, uuid: string, authType: string, timeRange: string, data: string, now: string, ok: bool): Store
  {
    UpdateStep(s, PermissionRequest(uuid, authType, timeRange, data), now, ok)
  }

  /** Setting a permission changes the entry of that person only. Besides the permission text it empties the face feature
      and resets the access level; an empty text leaves the permission as it was. */
  lemma SetPermissionEffect(
      s: Store, k: nat, authType: string, timeRange: string, data: string, now: string)
    requires Valid(s) && k < |s.persons| && s.persons[k].cols.uuid != ""
    ensures
      var uuid, text := s.persons[k].cols.uuid, StoredText(authType, timeRange, data);
      var t := SetPermission(s, uuid, authType, timeRange, data, now, true);
      && t.persons == s.persons[k := s.persons[k].(cols := s.persons[k].cols.(
           timeOfAccess := if text == "" then s.persons[k].cols.timeOfAccess else text,
           feature := [], accessLevel := 0, createtime := now))]
      && |t.table| == |s.table| && t.table[k].cols.feature == [] && t.table[k].cols.accessLevel == 0
      && t.table[k].cols.timeOfAccess == t.persons[k].cols.timeOfAccess
      && (forall i | 0 <= i < |s.table| && i != k :: t.table[i] == s.table[i])
  {
    var uuid := s.persons[k].cols.uuid;
    OneEntry(s, k);
    assert FindUuid(s.persons, uuid) == k;
  }

  /** A weekly permission that was set for a person lets that person pass exactly on the named days within the window,
      whatever the device table says; and reading it back gives the window and the named days. */
  lemma WeeklyPermissionHolds(
      s: Store, k: nat, timeRange: string, data: string, when': string, windows: seq<Window>, now: Clock,
      inRange: (string, string) -> bool)
    requires Valid(s) && now.Valid() && k < |s.persons| && |s.persons[k].cols.uuid| > 3 && OneSeparator(timeRange)
    ensures
      var uuid, times := s.persons[k].cols.uuid, Split(Commas(timeRange), ',');
      var t := SetPermission(s, uuid, "week_cycle", timeRange, data, when', true);
      && (Allowed(t.persons, uuid, windows, now, inRange) <==> InWindow(times[0], times[1], now) && Names(data, now.day))
      && Read(t.persons[k].cols.timeOfAccess) == Some(Reading("week_cycle", times[0] + ";" + times[1], NamedDays(data, 7)))
  {
    var uuid := s.persons[k].cols.uuid;
    WeeklyIsStored(s, k, timeRange, data, when');
    var t := SetPermission(s, uuid, "week_cycle", timeRange, data, when', true);
    WeeklyDecision(timeRange, data, now, inRange);
    WeeklyReading(timeRange, data);
    FirstEntryDecides(t.persons, uuid, now, inRange, 0, k);
  }

  /** For a window of two times of day: it lasts from the first to the second, both included. */
  lemma WeeklyHoursHold(
      s: Store, k: nat, h1: nat, m1: nat, h2: nat, m2: nat, data: string, when': string, windows: seq<Window>, now: Clock,
      inRange: (string, string) -> bool)
    requires Valid(s) && now.Valid() && k < |s.persons| && |s.persons[k].cols.uuid| > 3
    requires h1 < 24 && m1 < 60 && h2 < 24 && m2 < 60
    ensures
      var uuid, timeRange := s.persons[k].cols.uuid, ClockText(h1, m1) + ";" + ClockText(h2, m2);
      var t := SetPermission(s, uuid, "week_cycle", timeRange, data, when', true);
      && (Allowed(t.persons, uuid, windows, now, inRange) <==>
            (60 * h1 + m1) * 60000 <= now.ms <= (60 * h2 + m2) * 60000 && Names(data, now.day))
      && |t.persons| == |s.persons|
      && Read(t.persons[k].cols.timeOfAccess) == Some(Reading("week_cycle", timeRange, NamedDays(data, 7)))
  {
    var timeRange := ClockText(h1, m1) + ";" + ClockText(h2, m2);
    RangeOfTimes(h1, m1, h2, m2);
    WeeklyPermissionHolds(s, k, timeRange, data, when', windows, now, inRange);
    WindowOfTimes(h1, m1, h2, m2, now);
    WeeklyIsStored(s, k, timeRange, data, when');
  }

  lemma RangeOfTimes(h1: nat, m1: nat, h2: nat, m2: nat)
    requires h1 < 24 && m1 < 60 && h2 < 24 && m2 < 60
    ensures Split(Commas(ClockText(h1, m1) + ";" + ClockText(h2, m2)), ',') == [ClockText(h1, m1), ClockText(h2, m2)]
  {
    var a, b := ClockText(h1, m1), ClockText(h2, m2);
    CommasConcat(a + ";", b);
    CommasConcat(a, ";");
    assert Commas(";") == ",";
    SplitConcat(a, b, ',');
    SplitWhole(a, ',');
    SplitWhole(b, ',');
    assert a + [','] + b == a + "," + b;
  }

  /** After setting a weekly permission the person's entry, still the first with its uuid, holds the weekly text. */
  lemma WeeklyIsStored(s: Store, k: nat, timeRange: string, data: string, when': string)
    requires Valid(s) && k < |s.persons| && s.persons[k].cols.uuid != ""
    ensures
      var uuid := s.persons[k].cols.uuid;
      var persons := SetPermission(s, uuid, "week_cycle", timeRange, data, when', true).persons;
      && |persons| == |s.persons| && persons[k].cols.uuid == uuid
      && persons[k].cols.timeOfAccess == WeeklyText(timeRange, data)
      && forall i | 0 <= i < k :: persons[i].cols.uuid != uuid
  {
    SetPermissionEffect(s, k, "week_cycle", timeRange, data, when');
    WeeklyTextIsNotEmpty(timeRange, data);
    OneEntry(s, k);
  }

  lemma WeeklyTextIsNotEmpty(timeRange: string, data: string)
    ensures WeeklyText(timeRange, data) != ""
  {
    assert FlagText(data, 7) == FlagText(data, 6) + ("," + Flag(Names(data, 7)));
  }
}
