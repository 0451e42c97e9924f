/** What the planning client derives from its state when it asks for a
    plan and when it exports one: the syllabus of the request and its
    empty-input guard, the overloaded-day notifications for a returned
    schedule, and the calendar events an export submits. */
module PlanClient {
  import opened Wrappers
  import opened PlanFormat
  import opened PlannerState
  import Sequences
  import Text

  // ------------------------------------------------------------ syllabus

  /** A row the request includes: `sub.name && sub.chapters`, a non-empty
      name and a non-blank chapters field (even "0" is a non-empty string). */
  predicate Listed(s: Subject) {
    s.name != "" && s.chapters.Count?
  }

  /** The position of the syllabus entry named `name`, or `|syl|`: the key
      lookup of the client's syllabus object; the generator's lookup over
      merged subjects is `Scheduler.SubjectPos`, on its own record type. */
  function EntryIndex(syl: seq<SyllabusEntry>, name: string): (i: nat)
    ensures i <= |syl|
    ensures i < |syl| ==> syl[i].name == name
    ensures forall j :: 0 <= j < i ==> syl[j].name != name
  {
    if syl == [] then 0
    else if syl[0].name == name then 0
    else 1 + EntryIndex(syl[1..], name)
  }

  /** The names of a syllabus, in order: the key order of the client's
      syllabus object (`PlanGenerator.SubjectNames` is its counterpart for
      the generator's merged subjects). */
  function EntryNames(syl: seq<SyllabusEntry>): (r: seq<string>)
    ensures |r| == |syl| && forall i :: 0 <= i < |syl| ==> r[i] == syl[i].name
  {
    seq(|syl|, i requires 0 <= i < |syl| => syl[i].name)
  }

  /** No name occurs twice. */
  predicate UniqueEntries(syl: seq<SyllabusEntry>) {
    forall i, j :: 0 <= i < j < |syl| ==> syl[i].name != syl[j].name
  }

  /** `syllabus[name] = { chapters }` on a JavaScript object: an existing
      key keeps its position and gets the new value, a new key goes last. */
  function Put(syl: seq<SyllabusEntry>, name: string, chapters: int): seq<SyllabusEntry> {
    var i := EntryIndex(syl, name);
    if i < |syl| then syl[i := SyllabusEntry(name, chapters)] else syl + [SyllabusEntry(name, chapters)]
  }

  /** The syllabus `getPlan` builds from the rows, in row order. */
  function Syllabus(subjects: seq<Subject>): seq<SyllabusEntry> {
    if subjects == [] then []
    else
      var syl := Syllabus(subjects[..|subjects| - 1]);
      var s := subjects[|subjects| - 1];
      if Listed(s) then Put(syl, s.name, s.chapters.n) else syl
  }

  /** The names of the listed rows, in row order, duplicates included. */
  function ListedNames(subjects: seq<Subject>): seq<string> {
    if subjects == [] then []
    else
      var s := subjects[|subjects| - 1];
      ListedNames(subjects[..|subjects| - 1]) + (if Listed(s) then [s.name] else [])
  }

  /** The chapter count of the LAST listed row named `name` (0 if none). */
  function LastChapters(subjects: seq<Subject>, name: string): int {
    if subjects == [] then 0
    else
      var s := subjects[|subjects| - 1];
      if Listed(s) && s.name == name then s.chapters.n else LastChapters(subjects[..|subjects| - 1], name)
  }

  /** Putting a key keeps the keys unique and in first-insertion order,
      and gives the key its new value while the others keep theirs. */
  lemma {:induction false} PutFacts(syl: seq<SyllabusEntry>, name: string, chapters: int)
    requires UniqueEntries(syl)
    ensures UniqueEntries(Put(syl, name, chapters))
    ensures var r := Put(syl, name, chapters);
      EntryNames(r) == (if name in EntryNames(syl) then EntryNames(syl) else EntryNames(syl) + [name])
    ensures forall e :: e in Put(syl, name, chapters) ==>
      (e.name == name && e.chapters == chapters) || (e.name != name && e in syl)
    ensures forall e :: e in syl && e.name != name ==> e in Put(syl, name, chapters)
    ensures SyllabusEntry(name, chapters) in Put(syl, name, chapters)
  {
    var i := EntryIndex(syl, name);
    var r := Put(syl, name, chapters);
    if i < |syl| {
      assert name in EntryNames(syl);
      assert EntryNames(r) == EntryNames(syl);
      forall e | e in syl && e.name != name ensures e in r {
        var k :| 0 <= k < |syl| && syl[k] == e;
        assert r[k] == e;
      }
    } else {
      assert name !in EntryNames(syl);
      assert EntryNames(r) == EntryNames(syl) + [name];
    }
  }

  /** The syllabus holds exactly one entry per distinct listed name, in the
      order the names first appear; each entry carries the chapter count of
      the last listed row with that name (the later row wins). */
  lemma {:induction false} SyllabusFacts(subjects: seq<Subject>)
    ensures UniqueEntries(Syllabus(subjects))
    ensures EntryNames(Syllabus(subjects)) == Sequences.Dedup(ListedNames(subjects))
    ensures forall e :: e in Syllabus(subjects) ==> e.chapters == LastChapters(subjects, e.name)
  {
    if subjects != [] {
      var front := subjects[..|subjects| - 1];
      var s := subjects[|subjects| - 1];
      SyllabusFacts(front);
      var syl := Syllabus(front);
      if Listed(s) {
        PutFacts(syl, s.name, s.chapters.n);
        assert ListedNames(subjects) == ListedNames(front) + [s.name];
        assert (s.name in EntryNames(syl)) == (s.name in Sequences.Dedup(ListedNames(front)));
      } else {
        assert ListedNames(subjects) == ListedNames(front);
      }
    }
  }

  /** A name is a key of the syllabus exactly when some row with that name
      is listed. */
  lemma {:induction false} SyllabusKeys(subjects: seq<Subject>, name: string)
    ensures name in EntryNames(Syllabus(subjects)) <==> name in ListedNames(subjects)
  {
    SyllabusFacts(subjects);
  }

  /** `ListedNames` lists a name exactly when a listed row carries it. */
  lemma {:induction false} ListedNamesMembers(subjects: seq<Subject>)
    ensures forall n :: n in ListedNames(subjects) <==> exists s :: s in subjects && Listed(s) && s.name == n
  {
    if subjects != [] {
      var front := subjects[..|subjects| - 1];
      ListedNamesMembers(front);
      assert subjects == front + [subjects[|subjects| - 1]];
    }
  }

  /** The empty-input guard: the syllabus is empty exactly when no row has
      both a name and a chapter count. */
  lemma {:induction false} SyllabusEmpty(subjects: seq<Subject>)
    ensures Syllabus(subjects) == [] <==> forall s :: s in subjects ==> !Listed(s)
  {
    SyllabusFacts(subjects);
    ListedNamesMembers(subjects);
    if Syllabus(subjects) != [] {
      var n := Syllabus(subjects)[0].name;
      assert n in EntryNames(Syllabus(subjects));
    } else {
      assert EntryNames(Syllabus(subjects)) == [];
      forall s | s in subjects ensures Listed(s) ==> s.name in Sequences.Dedup(ListedNames(subjects)) { }
    }
  }

  /** Fills the syllabus row by row, as `getPlan`'s loop does. */
  method BuildSyllabus(subjects: seq<Subject>) returns (syl: seq<SyllabusEntry>)
    ensures syl == Syllabus(subjects)
  {
    syl := [];
    var i := 0;
    while i < |subjects|
      invariant 0 <= i <= |subjects|
      invariant syl == Syllabus(subjects[..i])
    {
      var s := subjects[i];
      assert subjects[..i + 1][..i] == subjects[..i];
      if s.name != "" && s.chapters.Count? {
        syl := Put(syl, s.name, s.chapters.n);
      }
      i := i + 1;
    }
    assert subjects[..i] == subjects;
  }

  /** The request body sent to the plan service. */
  datatype PlanRequest = PlanRequest(
    syllabus: seq<SyllabusEntry>,
    progress: map<string, int>,
    deadlines: map<string, string>,
    difficulties: map<string, seq<real>>,
    dailyHours: real)

  // ------------------------------------------------------------ the plan

  /** One date of a returned schedule and its items, in response order. */
  datatype DayEntry = DayEntry(date: string, items: seq<Item>)

  /** A plan as returned by the service: the ranked tasks and the daily schedule. */
  datatype Plan = Plan(tasks: seq<Task>, schedule: seq<DayEntry>)

  /** A desktop notification the client emits. */
  datatype Notice = OverloadedDay(date: string, hours: real) | ChapterCompleted(subject: string)

  /** The overloaded-day notifications for `schedule`, in schedule order:
      one per date whose hours add up to more than `dailyHours`, and none
      at all unless notification permission is granted. */
  function OverloadNotices(schedule: seq<DayEntry>, dailyHours: real, granted: bool): (r: seq<Notice>)
    ensures |r| <= |schedule|
    ensures !granted ==> r == []
    ensures forall n :: n in r ==> n.OverloadedDay?
  {
    if schedule == [] then []
    else
      var e := schedule[|schedule| - 1];
      var total := HoursOf(e.items);
      OverloadNotices(schedule[..|schedule| - 1], dailyHours, granted)
        + (if total > dailyHours && granted then [OverloadedDay(e.date, total)] else [])
  }

  /** A notification is emitted for a date exactly when the date is in the
      schedule with more hours than `dailyHours` and permission is granted;
      each notification reports that date's total. */
  lemma {:induction false} OverloadExact(schedule: seq<DayEntry>, dailyHours: real, granted: bool)
    ensures forall n :: n in OverloadNotices(schedule, dailyHours, granted) ==>
      && granted && n.OverloadedDay? && n.hours > dailyHours
      && exists i :: 0 <= i < |schedule| && schedule[i].date == n.date && HoursOf(schedule[i].items) == n.hours
    ensures forall i :: 0 <= i < |schedule| && granted && HoursOf(schedule[i].items) > dailyHours ==>
      OverloadedDay(schedule[i].date, HoursOf(schedule[i].items)) in OverloadNotices(schedule, dailyHours, granted)
  {
    if schedule != [] {
      var front := schedule[..|schedule| - 1];
      OverloadExact(front, dailyHours, granted);
      forall i | 0 <= i < |front| ensures schedule[i] == front[i] { }
    }
  }

  /** Walks the schedule once, summing each date's hours and emitting a
      notification for every date over capacity. */
  method NotifyOverloads(schedule: seq<DayEntry>, dailyHours: real, granted: bool) returns (notices: seq<Notice>)
    ensures notices == OverloadNotices(schedule, dailyHours, granted)
  {
    notices := [];
    var i := 0;
    while i < |schedule|
      invariant 0 <= i <= |schedule|
      invariant notices == OverloadNotices(schedule[..i], dailyHours, granted)
    {
      var e := schedule[i];
      var total := 0.0;
      var j := 0;
      while j < |e.items|
        invariant 0 <= j <= |e.items|
        invariant total == HoursOf(e.items[..j])
      {
        assert e.items[..j + 1][..j] == e.items[..j];
        total := total + e.items[j].hours;
        j := j + 1;
      }
      assert e.items[..j] == e.items;
      assert schedule[..i + 1][..i] == schedule[..i];
      if total > dailyHours && granted {
        notices := notices + [OverloadedDay(e.date, total)];
      }
      i := i + 1;
    }
    assert schedule[..i] == schedule;
  }

  /** No two entries of the schedule share a date (a JSON object's keys). */
  predicate UniqueDates(schedule: seq<DayEntry>) {
    forall i, j :: 0 <= i < j < |schedule| ==> schedule[i].date != schedule[j].date
  }

  /** Every notification's date is the date of one of the entries. */
  lemma {:induction false} OverloadDates(schedule: seq<DayEntry>, dailyHours: real, granted: bool)
    ensures forall n :: n in OverloadNotices(schedule, dailyHours, granted) ==>
      n.OverloadedDay? && n.date in DatesOf(schedule)
  {
    if schedule != [] {
      OverloadDates(schedule[..|schedule| - 1], dailyHours, granted);
      assert DatesOf(schedule) == DatesOf(schedule[..|schedule| - 1]) + {schedule[|schedule| - 1].date};
    }
  }

  /** The dates of a schedule. */
  function DatesOf(schedule: seq<DayEntry>): set<string> {
    set e | e in schedule :: e.date
  }

  /** No two overload notifications name the same date. */
  predicate DistinctDates(r: seq<Notice>) {
    forall i, j :: 0 <= i < j < |r| && r[i].OverloadedDay? && r[j].OverloadedDay? ==> r[i].date != r[j].date
  }

  /** At most one notification fires per date. */
  lemma {:induction false} OverloadOncePerDate(schedule: seq<DayEntry>, dailyHours: real, granted: bool)
    requires UniqueDates(schedule)
    ensures DistinctDates(OverloadNotices(schedule, dailyHours, granted))
  {
    if schedule != [] {
      var front := schedule[..|schedule| - 1];
      var last := schedule[|schedule| - 1];
      OverloadOncePerDate(front, dailyHours, granted);
      OverloadDates(front, dailyHours, granted);
      assert last.date !in DatesOf(front);
      var r := OverloadNotices(schedule, dailyHours, granted);
      var rf := OverloadNotices(front, dailyHours, granted);
      var total := HoursOf(last.items);
      assert r == rf + (if total > dailyHours && granted then [OverloadedDay(last.date, total)] else []);
      forall i, j | 0 <= i < j < |r| && r[i].OverloadedDay? && r[j].OverloadedDay? ensures r[i].date != r[j].date {
        assert r[i] == rf[i] && r[i] in rf;
        if j >= |rf| {
          assert r[j] == OverloadedDay(last.date, total);
          assert r[i].date in DatesOf(front);
        } else {
          assert r[j] == rf[j];
        }
      }
    }
  }

  /** Two overload examples with a capacity of 4:
      a day of 3 h + 2 h is flagged, a day of 2 h + 1 h is not. */
  lemma {:induction false} OverloadExamples(a: Item, b: Item, c: Item, d: Item)
    requires a.hours == 3.0 && b.hours == 2.0 && c.hours == 2.0 && d.hours == 1.0
    ensures OverloadNotices([DayEntry("2024-01-01", [a, b])], 4.0, true) == [OverloadedDay("2024-01-01", 5.0)]
    ensures OverloadNotices([DayEntry("2024-01-02", [c, d])], 4.0, true) == []
  {
    assert [a, b][..1] == [a] && [c, d][..1] == [c];
    assert [a][..0] == [] && [c][..0] == [];
    assert HoursOf([a]) == 3.0 && HoursOf([c]) == 2.0;
    assert HoursOf([a, b]) == 5.0;
    assert HoursOf([c, d]) == 3.0;
  }

  // ------------------------------------------------------ calendar export

  /** The `date`/`timeZone` pair of an all-day calendar event. */
  datatype EventDate = EventDate(date: string, timeZone: string)

  /** The body of one calendar insert request. */
  datatype CalendarEvent = CalendarEvent(summary: string, start: EventDate, end: EventDate)

  const TimeZone: string := "Asia/Kolkata"

  /** The event for one scheduled item: "<subject> - Chapter <chapter>",
      starting and ending on the item's date. */
  function EventFor(date: string, item: Item): CalendarEvent {
    CalendarEvent(item.subject + " - Chapter " + Text.IntToString(item.chapter),
                  EventDate(date, TimeZone), EventDate(date, TimeZone))
  }

  /** The events of one date, in item order. */
  function DayEvents(e: DayEntry): (r: seq<CalendarEvent>)
    ensures |r| == |e.items|
  {
    seq(|e.items|, j requires 0 <= j < |e.items| => EventFor(e.date, e.items[j]))
  }

  /** The number of items over all dates. */
  function ItemCount(schedule: seq<DayEntry>): nat {
    if schedule == [] then 0 else ItemCount(schedule[..|schedule| - 1]) + |schedule[|schedule| - 1].items|
  }

  /** The events an export submits: date order, then item order. */
  function Events(schedule: seq<DayEntry>): (r: seq<CalendarEvent>)
    ensures |r| == ItemCount(schedule)
  {
    if schedule == [] then [] else Events(schedule[..|schedule| - 1]) + DayEvents(schedule[|schedule| - 1])
  }

  /** Item `j` of date `i` becomes event number `ItemCount(schedule[..i]) + j`:
      all events of earlier dates come first, and within a date the items
      keep their order. */
  lemma {:induction false} EventPosition(schedule: seq<DayEntry>, i: nat, j: nat)
    requires i < |schedule| && j < |schedule[i].items|
    ensures ItemCount(schedule[..i]) + j < |Events(schedule)|
    ensures Events(schedule)[ItemCount(schedule[..i]) + j] == EventFor(schedule[i].date, schedule[i].items[j])
  {
    EventSlot(schedule, i, j, ItemCount(schedule[..i]) + j);
    DayEventAt(schedule[i], j);
  }

  /** The event of item `j` of a date. */
  lemma {:induction false} DayEventAt(e: DayEntry, j: nat)
    requires j < |e.items|
    ensures DayEvents(e)[j] == EventFor(e.date, e.items[j])
  {
  }

  /** Event number `k = ItemCount(schedule[..i]) + j` is the `j`-th event of date `i`. */
  lemma {:induction false} EventSlot(schedule: seq<DayEntry>, i: nat, j: nat, k: nat)
    requires i < |schedule| && j < |schedule[i].items| && k == ItemCount(schedule[..i]) + j
    ensures k < |Events(schedule)| && Events(schedule)[k] == DayEvents(schedule[i])[j]
  {
    var front := schedule[..|schedule| - 1];
    var earlier := Events(front);
    var last := DayEvents(schedule[|schedule| - 1]);
    assert Events(schedule) == earlier + last;
    if i == |schedule| - 1 {
      assert schedule[..i] == front;
      Sequences.ConcatRight(earlier, last, k);
    } else {
      assert front[..i] == schedule[..i];
      assert front[i] == schedule[i];
      EventSlot(front, i, j, k);
      Sequences.ConcatLeft(earlier, last, k);
    }
  }

  /** The items of a prefix are no more than those of the whole schedule. */
  lemma {:induction false} CountPrefix(schedule: seq<DayEntry>, k: nat)
    requires k <= |schedule|
    ensures ItemCount(schedule[..k]) <= ItemCount(schedule)
    ensures k > 0 ==> ItemCount(schedule[..k]) == ItemCount(schedule[..k - 1]) + |schedule[k - 1].items|
  {
    if k > 0 {
      assert schedule[..k][..k - 1] == schedule[..k - 1];
    }
    if k < |schedule| {
      CountPrefix(schedule[..|schedule| - 1], k);
      assert schedule[..|schedule| - 1][..k] == schedule[..k];
      if k > 0 {
        assert schedule[..|schedule| - 1][..k - 1] == schedule[..k - 1];
      }
    } else {
      assert schedule[..k] == schedule;
    }
  }

  /** The positions below `n` whose submission the calendar service
      rejected, in submission order. */
  function Rejected(accepted: nat -> bool, n: nat): (r: seq<nat>)
    ensures |r| <= n
  {
    if n == 0 then [] else Rejected(accepted, n - 1) + (if accepted(n - 1) then [] else [n - 1])
  }

  /** Strictly increasing positions. */
  predicate Increasing(r: seq<nat>) {
    forall i, j :: 0 <= i < j < |r| ==> r[i] < r[j]
  }

  /** A position is recorded exactly when its insert was rejected, and the
      record is in increasing order: a rejection does not stop the export. */
  lemma {:induction false} RejectedExact(accepted: nat -> bool, n: nat)
    ensures forall k: nat :: k in Rejected(accepted, n) <==> k < n && !accepted(k)
    ensures Increasing(Rejected(accepted, n))
  {
    if n > 0 {
      RejectedExact(accepted, n - 1);
      var front := Rejected(accepted, n - 1);
      var r := Rejected(accepted, n);
      assert r == front + (if accepted(n - 1) then [] else [n - 1]);
      forall i | 0 <= i < |front| ensures front[i] < n - 1 {
        assert front[i] in front;
      }
      forall i, j | 0 <= i < j < |r| ensures r[i] < r[j] {
        if j >= |front| {
          assert r[i] == front[i];
        } else {
          assert r[i] == front[i] && r[j] == front[j];
        }
      }
    }
  }

  /** One more submission records its position exactly when it is rejected. */
  lemma {:induction false} RejectedStep(accepted: nat -> bool, n: nat)
    ensures Rejected(accepted, n + 1) == Rejected(accepted, n) + (if accepted(n) then [] else [n])
  {
  }

  /** One insert: the event is submitted, and its position recorded when
      the service rejects it. */
  method Submit(ev: CalendarEvent, accepted: nat -> bool, before: seq<CalendarEvent>, failedBefore: seq<nat>)
    returns (submitted: seq<CalendarEvent>, failed: seq<nat>)
    requires failedBefore == Rejected(accepted, |before|)
    ensures submitted == before + [ev]
    ensures failed == Rejected(accepted, |submitted|)
  {
    var n := |before|;
    RejectedStep(accepted, n);
    failed := failedBefore;
    if !accepted(n) {
      failed := failed + [n];
    }
    submitted := before + [ev];
  }

  /** The inner export loop over one date's items: the event of each item
      is submitted, and its position recorded when the service rejects it. */
  method ExportDay(e: DayEntry, accepted: nat -> bool, before: seq<CalendarEvent>, failedBefore: seq<nat>)
    returns (submitted: seq<CalendarEvent>, failed: seq<nat>)
    requires failedBefore == Rejected(accepted, |before|)
    ensures submitted == before + DayEvents(e)
    ensures failed == Rejected(accepted, |submitted|)
  {
    submitted, failed := SubmitAll(DayEvents(e), accepted, before, failedBefore);
  }

  /** Submits `events` one by one after `before`, recording every
      rejected position; a rejection does not stop the loop. */
  method SubmitAll(events: seq<CalendarEvent>, accepted: nat -> bool, before: seq<CalendarEvent>, failedBefore: seq<nat>)
    returns (submitted: seq<CalendarEvent>, failed: seq<nat>)
    requires failedBefore == Rejected(accepted, |before|)
    ensures submitted == before + events
    ensures failed == Rejected(accepted, |submitted|)
  {
    submitted := before;
    failed := failedBefore;
    var j := 0;
    while j < |events|
      invariant 0 <= j <= |events|
      invariant submitted == before + events[..j]
      invariant failed == Rejected(accepted, |submitted|)
    {
      submitted, failed := Submit(events[j], accepted, submitted, failed);
      assert events[..j + 1] == events[..j] + [events[j]];
      j := j + 1;
    }
    assert events[..j] == events;
  }

  /** The export loop: one insert per item, in date order and then item
      order; a rejected insert is recorded and the loop goes on. */
  method ExportEvents(schedule: seq<DayEntry>, accepted: nat -> bool)
    returns (submitted: seq<CalendarEvent>, failed: seq<nat>)
    ensures submitted == Events(schedule)
    ensures failed == Rejected(accepted, |submitted|)
  {
    submitted := [];
    failed := [];
    var i := 0;
    while i < |schedule|
      invariant 0 <= i <= |schedule|
      invariant submitted == Events(schedule[..i])
      invariant failed == Rejected(accepted, |submitted|)
    {
      submitted, failed := ExportDay(schedule[i], accepted, submitted, failed);
      assert schedule[..i + 1][..i] == schedule[..i];
      i := i + 1;
    }
    assert schedule[..i] == schedule;
  }

  const SignInAlert: string := "🔐 Please sign in and generate a plan first!"
  const ExportedAlert: string := "📅 Events pushed to Google Calendar!"
}
