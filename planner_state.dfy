/** The planning state of the study-planner client and the pure operations
    that build its next value: the progress, deadline and difficulty edits,
    the chapter-completed transition, and saving and restoring the state. */
module PlannerState {
  import opened Wrappers
  import Text

  /** The chapters field of a subject row, the text of a number input:
      blank, or a whole number. */
  datatype ChapterCount = Blank | Count(n: int)

  /** A subject row. Its name is its only identity. */
  datatype Subject = Subject(name: string, chapters: ChapterCount)

  /** A change to one field of a subject row. */
  datatype SubjectEdit = Rename(name: string) | SetChapters(chapters: ChapterCount)

  /** The five fields that are persisted together. */
  datatype PlanningState = PlanningState(
    subjects: seq<Subject>,
    progress: map<string, int>,
    deadlines: map<string, string>,
    difficulties: map<string, seq<real>>,
    dailyHours: real)

  /** The row `addSubject` appends and the defaults start with. */
  const EmptySubject: Subject := Subject("", Blank)

  const DefaultDailyHours: real := 4.0

  /** The state `clearAll` installs and a missing storage slot restores. */
  const Default: PlanningState := PlanningState([EmptySubject], map[], map[], map[], DefaultDailyHours)

  /** The subject row with `edit` applied to its field. */
  function Edited(s: Subject, edit: SubjectEdit): Subject {
    match edit
    case Rename(name) => s.(name := name)
    case SetChapters(c) => s.(chapters := c)
  }

  /** The set of names of `subjects`. */
  function Names(subjects: seq<Subject>): set<string> {
    set s | s in subjects :: s.name
  }

  /** Every key of the three ledgers names a current subject. The client
      relies on it but only the chapter-completed transition maintains it. */
  predicate KeysKnown(st: PlanningState) {
    && st.progress.Keys <= Names(st.subjects)
    && st.deadlines.Keys <= Names(st.subjects)
    && st.difficulties.Keys <= Names(st.subjects)
  }

  /** `m2` agrees with `m1` on every key other than `k`. */
  ghost predicate SameExcept<V>(m1: map<string, V>, m2: map<string, V>, k: string) {
    forall x :: x != k ==> (x in m1 <==> x in m2) && (x in m1 ==> m1[x] == m2[x])
  }

  // ---------------------------------------------------------------- edits

  /** `updateProgress`: records `value` as the completed count of `subject`. */
  function UpdateProgress(st: PlanningState, subject: string, value: int): (r: PlanningState)
    ensures subject in r.progress && r.progress[subject] == value
    ensures SameExcept(st.progress, r.progress, subject)
    ensures r.(progress := st.progress) == st
  {
    st.(progress := st.progress[subject := value])
  }

  /** `updateDeadline`: records `date` as the deadline of `subject`. */
  function UpdateDeadline(st: PlanningState, subject: string, date: string): (r: PlanningState)
    ensures subject in r.deadlines && r.deadlines[subject] == date
    ensures SameExcept(st.deadlines, r.deadlines, subject)
    ensures r.(deadlines := st.deadlines) == st
  {
    st.(deadlines := st.deadlines[subject := date])
  }

  /** `parseFloat(token) || 1`: NaN (no number) and zero both become 1. */
  function WeightOf(parsed: Option<real>): (w: real)
    ensures w != 0.0
    ensures parsed.Some? && parsed.value != 0.0 ==> w == parsed.value
    ensures parsed.None? || parsed.value == 0.0 ==> w == 1.0
  {
    if parsed.Some? && parsed.value != 0.0 then parsed.value else 1.0
  }

  /** The weight list typed into the difficulties field: the text split at
      commas, each token trimmed and parsed by `parse` (a stand-in for
      `parseFloat`, None meaning NaN). */
  function ParseWeights(text: string, parse: string -> Option<real>): (r: seq<real>)
    ensures |r| == Text.Occurrences(text, ',') + 1
    ensures forall i :: 0 <= i < |r| ==> r[i] != 0.0
    ensures forall i :: 0 <= i < |r| ==>
      var p := parse(Text.JsTrim(Text.Split(text, ',')[i]));
      if p.Some? && p.value != 0.0 then r[i] == p.value else r[i] == 1.0
  {
    var tokens := Text.Split(text, ',');
    var r := seq(|tokens|, i requires 0 <= i < |tokens| => WeightOf(parse(Text.JsTrim(tokens[i]))));
    assert forall i :: 0 <= i < |r| ==> r[i] == WeightOf(parse(Text.JsTrim(tokens[i])));
    r
  }

  /** An example: with a parser that reads "1"
      and "2.5" and rejects "x" and the empty token, "1, x, 2.5," gives
      [1, 1, 2.5, 1]. */
  lemma {:induction false} ParseWeightsExample(parse: string -> Option<real>)
    requires parse("1") == Some(1.0) && parse("2.5") == Some(2.5)
    requires parse("x") == None && parse("") == None
    ensures ParseWeights("1, x, 2.5,", parse) == [1.0, 1.0, 2.5, 1.0]
  {
    var tokens := ["1", " x", " 2.5", ""];
    ExampleTokens();
    ExampleTrims();
    var r := ParseWeights("1, x, 2.5,", parse);
    assert |r| == |tokens| == 4;
    assert r[0] == WeightOf(parse("1")) == 1.0;
    assert r[1] == WeightOf(parse("x")) == 1.0;
    assert r[2] == WeightOf(parse("2.5")) == 2.5;
    assert r[3] == WeightOf(parse("")) == 1.0;
    FourWeights(r, 1.0, 1.0, 2.5, 1.0);
  }

  lemma {:induction false} FourWeights(r: seq<real>, a: real, b: real, c: real, d: real)
    requires |r| == 4 && r[0] == a && r[1] == b && r[2] == c && r[3] == d
    ensures r == [a, b, c, d]
  {
  }

  lemma {:induction false} ExampleTokens()
    ensures Text.Split("1, x, 2.5,", ',') == ["1", " x", " 2.5", ""]
  {
    var tokens := ["1", " x", " 2.5", ""];
    assert Text.Join(tokens[3..], ',') == "";
    assert Text.Join(tokens[2..], ',') == " 2.5,";
    assert Text.Join(tokens[1..], ',') == " x, 2.5,";
    assert Text.Join(tokens, ',') == "1, x, 2.5,";
    Text.SplitJoin(tokens, ',');
  }

  lemma {:induction false} ExampleTrims()
    ensures Text.JsTrim("1") == "1" && Text.JsTrim(" x") == "x"
    ensures Text.JsTrim(" 2.5") == "2.5" && Text.JsTrim("") == ""
  {
    assert !Text.IsJsSpace('1') && !Text.IsJsSpace('x');
    assert !Text.IsJsSpace('2') && !Text.IsJsSpace('5');
    Text.TrimClean("1", Text.IsJsSpace);
    Text.TrimLead(' ', "x", Text.IsJsSpace);
    assert [' '] + "x" == " x";
    Text.TrimLead(' ', "2.5", Text.IsJsSpace);
    assert [' '] + "2.5" == " 2.5";
  }

  /** `updateDifficulties`: replaces the weight list of `subject` by the
      parsed text. */
  function UpdateDifficulties(st: PlanningState, subject: string, text: string,
                              parse: string -> Option<real>): (r: PlanningState)
    ensures subject in r.difficulties && r.difficulties[subject] == ParseWeights(text, parse)
    ensures |r.difficulties[subject]| == Text.Occurrences(text, ',') + 1
    ensures SameExcept(st.difficulties, r.difficulties, subject)
    ensures r.(difficulties := st.difficulties) == st
  {
    st.(difficulties := st.difficulties[subject := ParseWeights(text, parse)])
  }

  // ------------------------------------------------- chapter completed

  /** `progress[subject] || 0`. */
  function CurrentProgress(st: PlanningState, subject: string): int {
    Get(st.progress, subject, 0)
  }

  /** `Array.prototype.findIndex` by name: the position of the first row
      named `name`, or `|subjects|` when there is none. */
  function FindIndex(subjects: seq<Subject>, name: string): (i: nat)
    ensures i <= |subjects|
    ensures i < |subjects| ==> subjects[i].name == name
    ensures forall j :: 0 <= j < i ==> subjects[j].name != name
    ensures i == |subjects| <==> name !in Names(subjects)
  {
    if subjects == [] then 0
    else if subjects[0].name == name then 0
    else
      var i := FindIndex(subjects[1..], name);
      assert Names(subjects) == {subjects[0].name} + Names(subjects[1..]);
      1 + i
  }

  /** `subjects.find(s => s.name === name)?.chapters || 0`: the chapter
      count of the first row named `name`; a blank field ("" is falsy) and
      a missing row both give 0, while "0" is truthy and compares as 0. */
  function ChapterTotal(subjects: seq<Subject>, name: string): int {
    var i := FindIndex(subjects, name);
    if i < |subjects| && subjects[i].chapters.Count? then subjects[i].chapters.n else 0
  }

  /** The number of rows named `name`. */
  function CountNamed(subjects: seq<Subject>, name: string): nat {
    if subjects == [] then 0
    else (if subjects[0].name == name then 1 else 0) + CountNamed(subjects[1..], name)
  }

  /** `subjects.filter(s => s.name !== name)`. */
  function WithoutSubject(subjects: seq<Subject>, name: string): (r: seq<Subject>)
    ensures forall t :: t in r <==> t in subjects && t.name != name
    ensures |r| + CountNamed(subjects, name) == |subjects|
  {
    if subjects == [] then []
    else if subjects[0].name == name then WithoutSubject(subjects[1..], name)
    else [subjects[0]] + WithoutSubject(subjects[1..], name)
  }

  /** Filtering out a name no row carries leaves the rows as they are. */
  lemma {:induction false} WithoutAbsent(subjects: seq<Subject>, name: string)
    requires name !in Names(subjects)
    ensures WithoutSubject(subjects, name) == subjects
  {
    if subjects != [] {
      assert subjects[0] in subjects;
      assert Names(subjects[1..]) <= Names(subjects);
      WithoutAbsent(subjects[1..], name);
    }
  }

  /** Filtering keeps the relative order of the remaining rows: the
      filtered rows of a concatenation are the filtered rows of each part. */
  lemma {:induction false} WithoutConcat(a: seq<Subject>, b: seq<Subject>, name: string)
    ensures WithoutSubject(a + b, name) == WithoutSubject(a, name) + WithoutSubject(b, name)
  {
    if a == [] {
      assert a + b == b;
    } else {
      var tail := a[1..] + b;
      assert (a + b)[1..] == tail;
      WithoutConcat(a[1..], b, name);
      var x, y := WithoutSubject(a[1..], name), WithoutSubject(b, name);
      if a[0].name != name {
        calc {
          WithoutSubject(a + b, name);
          [a[0]] + WithoutSubject(tail, name);
          [a[0]] + (x + y);
          ([a[0]] + x) + y;
        }
      }
    }
  }

  /** The terminal test of `markChapterDone`: `current + 1 >= total`. */
  predicate Completes(st: PlanningState, subject: string) {
    CurrentProgress(st, subject) + 1 >= ChapterTotal(st.subjects, subject)
  }

  /** `markChapterDone`. When the chapter just finished is the last one,
      every row named `subject` is removed and the subject's progress,
      deadline and difficulties are deleted; otherwise only its progress
      goes up by one, to a value still below the chapter total. */
  function MarkChapterDone(st: PlanningState, subject: string): (r: PlanningState)
    ensures Completes(st, subject) ==>
      && r.subjects == WithoutSubject(st.subjects, subject)
      && subject !in Names(r.subjects)
      && subject !in r.progress && subject !in r.deadlines && subject !in r.difficulties
      && SameExcept(st.progress, r.progress, subject)
      && SameExcept(st.deadlines, r.deadlines, subject)
      && SameExcept(st.difficulties, r.difficulties, subject)
      && r.dailyHours == st.dailyHours
    ensures !Completes(st, subject) ==>
      && subject in r.progress
      && r.progress[subject] == CurrentProgress(st, subject) + 1
      && r.progress[subject] < ChapterTotal(st.subjects, subject)
      && SameExcept(st.progress, r.progress, subject)
      && r.(progress := st.progress) == st
  {
    if Completes(st, subject) then
      PlanningState(
        WithoutSubject(st.subjects, subject),
        st.progress - {subject},
        st.deadlines - {subject},
        st.difficulties - {subject},
        st.dailyHours)
    else
      st.(progress := st.progress[subject := CurrentProgress(st, subject) + 1])
  }

  /** The state after `k` consecutive calls of `markChapterDone(subject)`. */
  function MarkTimes(st: PlanningState, subject: string, k: nat): PlanningState {
    if k == 0 then st else MarkChapterDone(MarkTimes(st, subject, k - 1), subject)
  }

  /** With no progress recorded and a chapter total `T`, the first `T - 1`
      calls count 1, 2, ..., leaving the rows alone ... */
  lemma {:induction false} MarkTimesCounts(st: PlanningState, subject: string, k: nat)
    requires CurrentProgress(st, subject) == 0
    requires k < ChapterTotal(st.subjects, subject)
    ensures CurrentProgress(MarkTimes(st, subject, k), subject) == k
    ensures MarkTimes(st, subject, k).subjects == st.subjects
  {
    if k > 0 {
      MarkTimesCounts(st, subject, k - 1);
      var before := MarkTimes(st, subject, k - 1);
      MarkCounts(before, subject, ChapterTotal(st.subjects, subject));
    }
  }

  /** Below the chapter total, one more call counts one more chapter and
      leaves the rows alone. */
  lemma {:induction false} MarkCounts(before: PlanningState, subject: string, total: int)
    requires total == ChapterTotal(before.subjects, subject)
    requires CurrentProgress(before, subject) + 1 < total
    ensures CurrentProgress(MarkChapterDone(before, subject), subject) == CurrentProgress(before, subject) + 1
    ensures MarkChapterDone(before, subject).subjects == before.subjects
  {
  }

  /** ... and call number `T` (or the first call, when `T <= 1`) removes
      the subject from every part of the state. */
  lemma {:induction false} MarkTimesRemoves(st: PlanningState, subject: string)
    requires CurrentProgress(st, subject) == 0
    ensures var t := ChapterTotal(st.subjects, subject);
      var after := MarkTimes(st, subject, if t <= 1 then 1 else t);
      && subject !in Names(after.subjects)
      && subject !in after.progress && subject !in after.deadlines && subject !in after.difficulties
  {
    var t := ChapterTotal(st.subjects, subject);
    if t > 1 {
      MarkTimesCounts(st, subject, t - 1);
    }
  }

  /** The example T = 3: progress goes 0, 1, 2, then the subject is gone. */
  lemma {:induction false} MarkThreeChapters(st: PlanningState, subject: string)
    requires st.subjects != [] && st.subjects[0] == Subject(subject, Count(3))
    requires subject !in st.progress
    ensures CurrentProgress(MarkTimes(st, subject, 1), subject) == 1
    ensures CurrentProgress(MarkTimes(st, subject, 2), subject) == 2
    ensures subject !in Names(MarkTimes(st, subject, 3).subjects)
  {
    assert ChapterTotal(st.subjects, subject) == 3;
    MarkTimesCounts(st, subject, 1);
    MarkTimesCounts(st, subject, 2);
    MarkTimesRemoves(st, subject);
  }

  /** When every ledger key names a subject, marking a name no row carries
      changes nothing: its total is 0 and its progress is absent, so the
      terminal branch runs and has nothing to delete. */
  lemma {:induction false} MarkUnknownSubject(st: PlanningState, subject: string)
    requires KeysKnown(st)
    requires subject !in Names(st.subjects)
    ensures MarkChapterDone(st, subject) == st
  {
    WithoutAbsent(st.subjects, subject);
    assert st.progress - {subject} == st.progress;
    assert st.deadlines - {subject} == st.deadlines;
    assert st.difficulties - {subject} == st.difficulties;
  }

  /** The chapter-completed transition keeps every ledger key attached to a
      subject (the cascading delete of the terminal branch). */
  lemma {:induction false} MarkKeepsKeysKnown(st: PlanningState, subject: string)
    requires KeysKnown(st)
    ensures KeysKnown(MarkChapterDone(st, subject))
  {
    if Completes(st, subject) {
      RemoveKeepsKeys(st, subject);
    } else {
      var i := FindIndex(st.subjects, subject);
      assert i < |st.subjects| && st.subjects[i] in st.subjects;
      assert subject in Names(st.subjects);
      var r := MarkChapterDone(st, subject);
      assert r.subjects == st.subjects && r.progress.Keys == st.progress.Keys + {subject};
    }
  }

  /** The cascading delete keeps every remaining ledger key attached to a
      remaining row. */
  lemma {:induction false} RemoveKeepsKeys(st: PlanningState, subject: string)
    requires KeysKnown(st)
    ensures KeysKnown(PlanningState(WithoutSubject(st.subjects, subject), st.progress - {subject},
                                    st.deadlines - {subject}, st.difficulties - {subject}, st.dailyHours))
  {
    var rows := WithoutSubject(st.subjects, subject);
    forall k | k in Names(st.subjects) && k != subject ensures k in Names(rows) {
      var t :| t in st.subjects && t.name == k;
      assert t in rows;
    }
  }

  // ------------------------------------------------------- persistence

  /** The record kept in the storage slot. A field is None when it is
      missing from the stored record. */
  datatype Stored = Stored(
    subjects: Option<seq<Subject>>,
    progress: Option<map<string, int>>,
    deadlines: Option<map<string, string>>,
    difficulties: Option<map<string, seq<real>>>,
    dailyHours: Option<real>)

  /** The save effect: the record holding exactly the five state fields. */
  function Save(st: PlanningState): (d: Stored)
    ensures d.subjects.Some? && d.progress.Some? && d.deadlines.Some?
    ensures d.difficulties.Some? && d.dailyHours.Some?
  {
    Stored(Some(st.subjects), Some(st.progress), Some(st.deadlines),
           Some(st.difficulties), Some(st.dailyHours))
  }

  /** The load effect. An empty slot gives the defaults; a stored record
      gives its fields, each missing one replaced by its default, and a
      stored `dailyHours` of 0 replaced by 4 (`data.dailyHours || 4`). */
  function Restore(slot: Option<Stored>): (st: PlanningState)
    ensures st.dailyHours != 0.0
    ensures slot.None? ==> st == Default
    ensures slot.Some? && slot.value.subjects.Some? ==> st.subjects == slot.value.subjects.value
    ensures slot.Some? && slot.value.subjects.None? ==> st.subjects == [EmptySubject]
    ensures slot.Some? ==> st.progress == slot.value.progress.GetOr(map[])
    ensures slot.Some? ==> st.deadlines == slot.value.deadlines.GetOr(map[])
    ensures slot.Some? ==> st.difficulties == slot.value.difficulties.GetOr(map[])
    ensures slot.Some? && slot.value.dailyHours.Some? && slot.value.dailyHours.value != 0.0 ==>
      st.dailyHours == slot.value.dailyHours.value
    ensures slot.Some? && (slot.value.dailyHours.None? || slot.value.dailyHours.value == 0.0) ==>
      st.dailyHours == DefaultDailyHours
  {
    match slot
    case None => Default
    case Some(d) =>
      PlanningState(
        d.subjects.GetOr([EmptySubject]),
        d.progress.GetOr(map[]),
        d.deadlines.GetOr(map[]),
        d.difficulties.GetOr(map[]),
        if d.dailyHours.Some? && d.dailyHours.value != 0.0 then d.dailyHours.value else DefaultDailyHours)
  }

  /** Saving and then loading gives the state back, except that a daily
      capacity of 0 comes back as 4. */
  lemma {:induction false} SaveRestore(st: PlanningState)
    ensures st.dailyHours != 0.0 ==> Restore(Some(Save(st))) == st
    ensures st.dailyHours == 0.0 ==> Restore(Some(Save(st))) == st.(dailyHours := DefaultDailyHours)
  {
  }

  /** A restored state survives any number of further save/load cycles. */
  lemma {:induction false} RestoreStable(slot: Option<Stored>)
    ensures Restore(Some(Save(Restore(slot)))) == Restore(slot)
  {
    SaveRestore(Restore(slot));
  }

  /** A stored record missing every field restores the same defaults as an
      empty slot. */
  lemma {:induction false} RestoreAllMissing()
    ensures Restore(Some(Stored(None, None, None, None, None))) == Restore(None)
  {
  }
}
