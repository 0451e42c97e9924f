/** The plan generator's request handling: syllabus entries whose names
    agree after stripping are merged into one subject, one task is built
    per subject with chapters left, the tasks are ranked by priority, and
    the merged subjects go to the day packer. */
module PlanGenerator {
  import opened Wrappers
  import opened PlanFormat
  import opened Scheduler
  import Text
  import Sequences

  /** A plan request as the generator reads it. A deadline is a day offset
      from today; `None` stands for a falsy value (`""` or `null`). */
  datatype PlanInput = PlanInput(
    syllabus: seq<SyllabusEntry>,
    progress: map<string, int>,
    deadlines: map<string, Option<int>>,
    difficulties: map<string, seq<real>>,
    dailyHours: real)

  /** The generated plan: ranked tasks and the schedule by day offset. */
  datatype GeneratedPlan = GeneratedPlan(tasks: seq<Task>, schedule: seq<seq<Item>>)

  /** A missing or falsy deadline is today + 30 days. */
  const DefaultDeadline: int := 30

  // ------------------------------------------------ priority

  /** `calculate_priority`: ten points per remaining chapter once the
      deadline is today or past, otherwise remaining chapters per day left. */
  function Priority(remaining: int, daysLeft: int): (p: real)
    ensures daysLeft > 0 ==> p * (daysLeft as real) == remaining as real
    ensures daysLeft <= 0 ==> p == 10.0 * (remaining as real)
    ensures remaining > 0 ==> p > 0.0
  {
    if daysLeft <= 0 then (remaining * 10) as real else (remaining as real) / (daysLeft as real)
  }

  /** With the same work left, a subject at or past its deadline outranks
      every subject whose deadline is still ahead. */
  lemma {:induction false} PriorityOverdueFirst(remaining: int, overdue: int, ahead: int)
    requires remaining > 0 && overdue <= 0 < ahead
    ensures Priority(remaining, overdue) > Priority(remaining, ahead)
  {
    DivAtMost(remaining as real, ahead as real);
  }

  lemma {:induction false} DivAtMost(m: real, a: real)
    requires m > 0.0 && a >= 1.0
    ensures m / a <= m
  {
  }

  lemma {:induction false} DivMonotone(r1: real, r2: real, d1: real, d2: real)
    requires 0.0 <= r1 <= r2 && 0.0 < d2 <= d1
    ensures r1 / d1 <= r2 / d2
  {
  }

  /** Before the deadline, more chapters left or fewer days left never
      lowers the priority. */
  lemma {:induction false} PriorityMonotone(r1: int, r2: int, d1: int, d2: int)
    requires 0 <= r1 <= r2 && 0 < d2 <= d1
    ensures Priority(r1, d1) <= Priority(r2, d2)
  {
    DivMonotone(r1 as real, r2 as real, d1 as real, d2 as real);
  }

  // ------------------------------------------------ merging

  /** The deadline looked up for a stripped name (`deadlines.get(name) or ...`). */
  function DeadlineFor(inp: PlanInput, name: string): int {
    if name in inp.deadlines && inp.deadlines[name].Some? then inp.deadlines[name].value else DefaultDeadline
  }

  /** One pass of the merge loop. A new name is added with its chapters, its
      progress, its deadline and its difficulty list (or `[1] * chapters`).
      A name already present gets the chapters and progress added; its
      difficulty list is extended in place by `diffs`, which, when the name
      has a difficulty list in the request, is that very list object, so
      the list is extended by itself and doubles. */
  function MergeStep(inp: PlanInput, acc: seq<SubjectData>, e: SyllabusEntry): seq<SubjectData> {
    var name := Text.PyStrip(e.name);
    var i := SubjectPos(acc, name);
    if i == |acc| then
      acc + [SubjectData(name, e.chapters, Get(inp.progress, name, 0), DeadlineFor(inp, name),
                         Get(inp.difficulties, name, Ones(e.chapters)))]
    else acc[i := Absorb(inp, acc[i], name, e)]
  }

  /** A present subject absorbing one more entry of its name. */
  function Absorb(inp: PlanInput, s: SubjectData, name: string, e: SyllabusEntry): SubjectData {
    var grown := if name in inp.difficulties then s.difficulty + s.difficulty else s.difficulty + Ones(e.chapters);
    s.(chapters := s.chapters + e.chapters, completed := s.completed + Get(inp.progress, name, 0), difficulty := grown)
  }

  /** `subjects_data` after the merge loop over `syl`. */
  function Merge(inp: PlanInput, syl: seq<SyllabusEntry>): seq<SubjectData> {
    if syl == [] then [] else MergeStep(inp, Merge(inp, syl[..|syl| - 1]), syl[|syl| - 1])
  }

  /** The stripped syllabus names, in order. */
  function StrippedNames(syl: seq<SyllabusEntry>): (r: seq<string>)
    ensures |r| == |syl| && forall i :: 0 <= i < |syl| ==> r[i] == Text.PyStrip(syl[i].name)
  {
    seq(|syl|, i requires 0 <= i < |syl| => Text.PyStrip(syl[i].name))
  }

  /** The names of the merged subjects, in order. */
  function SubjectNames(data: seq<SubjectData>): (r: seq<string>)
    ensures |r| == |data| && forall i :: 0 <= i < |data| ==> r[i] == data[i].name
  {
    seq(|data|, i requires 0 <= i < |data| => data[i].name)
  }

  /** How many syllabus entries strip to `name`. */
  function Occurrences(syl: seq<SyllabusEntry>, name: string): nat {
    if syl == [] then 0
    else Occurrences(syl[..|syl| - 1], name) + (if Text.PyStrip(syl[|syl| - 1].name) == name then 1 else 0)
  }

  /** The chapter counts of the entries that strip to `name`, summed. */
  function ChaptersOf(syl: seq<SyllabusEntry>, name: string): int {
    if syl == [] then 0
    else ChaptersOf(syl[..|syl| - 1], name) + (if Text.PyStrip(syl[|syl| - 1].name) == name then syl[|syl| - 1].chapters else 0)
  }

  /** The lengths of the `[1] * chapters` lists of those entries, summed. */
  function OnesOf(syl: seq<SyllabusEntry>, name: string): nat {
    if syl == [] then 0
    else
      var c := syl[|syl| - 1].chapters;
      OnesOf(syl[..|syl| - 1], name) + (if Text.PyStrip(syl[|syl| - 1].name) == name && c > 0 then c else 0)
  }

  function Pow2(k: nat): nat {
    if k == 0 then 1 else 2 * Pow2(k - 1)
  }

  /** `k` copies of `d`, one after the other. */
  function Copies(d: seq<real>, k: nat): seq<real> {
    if k == 0 then [] else Copies(d, k - 1) + d
  }

  lemma {:induction false} CopiesAdd(d: seq<real>, a: nat, b: nat)
    ensures Copies(d, a) + Copies(d, b) == Copies(d, a + b)
  {
    if b > 0 {
      CopiesAdd(d, a, b - 1);
    }
  }

  lemma {:induction false} OnesAdd(a: nat, b: int)
    ensures Ones(a) + Ones(b) == Ones(a + (if b > 0 then b else 0))
  {
  }

  /** What the merge makes of `name`, computed from the whole syllabus:
      the chapters and the progress summed over its entries, its own
      deadline, and either `2^(k-1)` copies of its difficulty list (for `k`
      entries) or as many 1s as the entries' chapters add up to. */
  function Expected(inp: PlanInput, syl: seq<SyllabusEntry>, name: string): SubjectData {
    Summary(inp, name, Occurrences(syl, name), ChaptersOf(syl, name), OnesOf(syl, name))
  }

  /** The subject for `name` after `k` entries with `chapters` chapters in
      all, whose `[1] * chapters` lists hold `ones` items together. */
  function Summary(inp: PlanInput, name: string, k: nat, chapters: int, ones: nat): SubjectData {
    SubjectData(
      name,
      chapters,
      k * Get(inp.progress, name, 0),
      DeadlineFor(inp, name),
      if name in inp.difficulties then Copies(inp.difficulties[name], if k == 0 then 0 else Pow2(k - 1)) else Ones(ones))
  }

  /** Adding one entry to the syllabus adds to the sums of its own name only. */
  lemma {:induction false} StepSums(front: seq<SyllabusEntry>, e: SyllabusEntry, name: string)
    ensures var syl := front + [e]; var hit := Text.PyStrip(e.name) == name;
      && Occurrences(syl, name) == Occurrences(front, name) + (if hit then 1 else 0)
      && ChaptersOf(syl, name) == ChaptersOf(front, name) + (if hit then e.chapters else 0)
      && OnesOf(syl, name) == OnesOf(front, name) + (if hit && e.chapters > 0 then e.chapters else 0)
  {
    assert (front + [e])[..|front|] == front;
  }

  /** The merged subjects are the distinct stripped names in order of first
      appearance, so no name is there twice. */
  lemma {:induction false} MergeNames(inp: PlanInput, syl: seq<SyllabusEntry>)
    ensures SubjectNames(Merge(inp, syl)) == Sequences.Dedup(StrippedNames(syl))
    ensures UniqueNames(Merge(inp, syl))
  {
    if syl != [] {
      var n := |syl|;
      var front := syl[..n - 1];
      var e := syl[n - 1];
      MergeNames(inp, front);
      var acc := Merge(inp, front);
      assert Merge(inp, syl) == MergeStep(inp, acc, e);
      var names := StrippedNames(syl);
      assert names[..n - 1] == StrippedNames(front);
      var d := Sequences.Dedup(StrippedNames(front));
      var last := Text.PyStrip(e.name);
      assert names[n - 1] == last;
      assert Sequences.Dedup(names) == if last in d then d else d + [last];
      StepNames(inp, acc, e);
    }
  }

  /** One merge pass adds the entry's stripped name at the end when it is
      new and keeps the names otherwise. */
  lemma {:induction false} StepNames(inp: PlanInput, acc: seq<SubjectData>, e: SyllabusEntry)
    requires UniqueNames(acc)
    ensures var name := Text.PyStrip(e.name); var d := SubjectNames(acc);
      SubjectNames(MergeStep(inp, acc, e)) == if name in d then d else d + [name]
    ensures UniqueNames(MergeStep(inp, acc, e))
  {
    var name := Text.PyStrip(e.name);
    var r := MergeStep(inp, acc, e);
    var i := SubjectPos(acc, name);
    if i == |acc| {
      var added := SubjectData(name, e.chapters, Get(inp.progress, name, 0),
                               DeadlineFor(inp, name), Get(inp.difficulties, name, Ones(e.chapters)));
      assert r == acc + [added];
      SubjectNamesAppend(acc, added);
      assert name !in SubjectNames(acc);
      forall a, b | 0 <= a < b < |r| ensures r[a].name != r[b].name {
        assert r[a] == acc[a];
        if b < |acc| {
          assert r[b] == acc[b];
        }
      }
    } else {
      assert SubjectNames(acc)[i] == name;
      assert forall j :: 0 <= j < |r| ==> r[j].name == acc[j].name;
      assert SubjectNames(r) == SubjectNames(acc);
    }
  }

  lemma {:induction false} SubjectNamesAppend(data: seq<SubjectData>, x: SubjectData)
    ensures SubjectNames(data + [x]) == SubjectNames(data) + [x.name]
  {
    assert forall j :: 0 <= j < |data| ==> (data + [x])[j] == data[j];
  }

  /** Every subject is what `Expected` says of its name. */
  predicate AsExpected(inp: PlanInput, syl: seq<SyllabusEntry>, data: seq<SubjectData>) {
    forall i :: 0 <= i < |data| ==> data[i] == Expected(inp, syl, data[i].name)
  }

  /** A merged name's entry after one more syllabus entry with that name. */
  lemma {:induction false} MergeGrow(inp: PlanInput, name: string, k: nat, chapters: int, ones: nat, e: SyllabusEntry,
                                     k1: nat, chapters1: int, ones1: nat)
    requires k > 0 && k1 == k + 1 && chapters1 == chapters + e.chapters
    requires ones1 == ones + (if e.chapters > 0 then e.chapters else 0)
    ensures Absorb(inp, Summary(inp, name, k, chapters, ones), name, e) == Summary(inp, name, k1, chapters1, ones1)
  {
    var p := Get(inp.progress, name, 0);
    MulStep(k, p);
    var s := Summary(inp, name, k, chapters, ones);
    var ex := Summary(inp, name, k1, chapters1, ones1);
    var g := Absorb(inp, s, name, e);
    assert g.completed == ex.completed;
    if name in inp.difficulties {
      var d := inp.difficulties[name];
      var m := Pow2(k - 1);
      assert Pow2(k) == m + m;
      CopiesAdd(d, m, m);
      assert g.difficulty == ex.difficulty;
    } else {
      OnesAdd(ones, e.chapters);
      assert g.difficulty == ex.difficulty;
    }
  }

  lemma {:induction false} MulStep(k: nat, p: int)
    ensures (k + 1) * p == k * p + p
  {
  }

  /** Each merged subject has the summed chapters, the progress counted once
      per entry, its deadline, and the difficulty list `Expected` gives. */
  lemma {:induction false} MergeReference(inp: PlanInput, syl: seq<SyllabusEntry>)
    ensures AsExpected(inp, syl, Merge(inp, syl))
  {
    var m := Merge(inp, syl);
    MergeNames(inp, syl);
    forall j | 0 <= j < |m| ensures m[j] == Expected(inp, syl, m[j].name) {
      MergeAt(inp, syl, m[j].name);
      FirstMatch(m, m[j].name, j);
    }
  }

  /** What the merge has made of one name after the syllabus `syl`: a
      subject exactly when the name occurs, and that subject is `Expected`. */
  predicate NameFacts(inp: PlanInput, syl: seq<SyllabusEntry>, m: seq<SubjectData>, name: string) {
    var i := SubjectPos(m, name);
    && (i < |m| ==> Occurrences(syl, name) > 0 && m[i] == Expected(inp, syl, name))
    && (i == |m| ==> Occurrences(syl, name) == 0 && ChaptersOf(syl, name) == 0 && OnesOf(syl, name) == 0)
  }

  /** The merged subject of one name, if there is one, is what `Expected`
      gives; there is one exactly when the name occurs in the syllabus. */
  lemma {:induction false} MergeAt(inp: PlanInput, syl: seq<SyllabusEntry>, name: string)
    ensures NameFacts(inp, syl, Merge(inp, syl), name)
  {
    if syl != [] {
      var n := |syl|;
      var front := syl[..n - 1];
      assert syl == front + [syl[n - 1]];
      MergeAt(inp, front, name);
      StepFacts(inp, front, Merge(inp, front), syl[n - 1], name);
    }
  }

  /** One merge pass keeps `NameFacts` for every name. */
  lemma {:induction false} StepFacts(inp: PlanInput, front: seq<SyllabusEntry>, acc: seq<SubjectData>, e: SyllabusEntry, name: string)
    requires NameFacts(inp, front, acc, name)
    ensures NameFacts(inp, front + [e], MergeStep(inp, acc, e), name)
  {
    if SubjectPos(acc, Text.PyStrip(e.name)) == |acc| {
      StepFactsNew(inp, front, acc, e, name);
    } else {
      StepFactsKnown(inp, front, acc, e, name);
    }
  }

  lemma {:induction false} StepFactsNew(inp: PlanInput, front: seq<SyllabusEntry>, acc: seq<SubjectData>, e: SyllabusEntry, name: string)
    requires NameFacts(inp, front, acc, name)
    requires SubjectPos(acc, Text.PyStrip(e.name)) == |acc|
    ensures NameFacts(inp, front + [e], MergeStep(inp, acc, e), name)
  {
    StepSums(front, e, name);
    var x := Text.PyStrip(e.name);
    var i0 := SubjectPos(acc, name);
    var added := SubjectData(x, e.chapters, Get(inp.progress, x, 0), DeadlineFor(inp, x),
                             Get(inp.difficulties, x, Ones(e.chapters)));
    assert MergeStep(inp, acc, e) == acc + [added];
    PosAppend(acc, added, name);
    if x == name {
      MergeFirst(inp, front, e, name);
    } else if i0 < |acc| {
      assert (acc + [added])[i0] == acc[i0];
    }
  }

  lemma {:induction false} StepFactsKnown(inp: PlanInput, front: seq<SyllabusEntry>, acc: seq<SubjectData>, e: SyllabusEntry, name: string)
    requires NameFacts(inp, front, acc, name)
    requires SubjectPos(acc, Text.PyStrip(e.name)) < |acc|
    ensures NameFacts(inp, front + [e], MergeStep(inp, acc, e), name)
  {
    var x := Text.PyStrip(e.name);
    var j := SubjectPos(acc, x);
    assert MergeStep(inp, acc, e) == acc[j := Absorb(inp, acc[j], x, e)];
    if x == name {
      KnownSame(inp, front, acc, e, name);
    } else {
      KnownOther(inp, front, acc, e, name);
    }
  }

  /** An entry of a name already merged grows that subject to the summary
      of one more entry. */
  lemma {:induction false} KnownSame(inp: PlanInput, front: seq<SyllabusEntry>, acc: seq<SubjectData>, e: SyllabusEntry, name: string)
    requires NameFacts(inp, front, acc, name)
    requires name == Text.PyStrip(e.name) && SubjectPos(acc, name) < |acc|
    ensures var j := SubjectPos(acc, name);
      NameFacts(inp, front + [e], acc[j := Absorb(inp, acc[j], name, e)], name)
  {
    var j := SubjectPos(acc, name);
    var g := Absorb(inp, acc[j], name, e);
    PosUpdate(acc, j, g, name);
    StepSums(front, e, name);
    var k, c, o := Occurrences(front, name), ChaptersOf(front, name), OnesOf(front, name);
    var s0 := Summary(inp, name, k, c, o);
    assert acc[j] == s0;
    assert g == Absorb(inp, s0, name, e);
    var syl := front + [e];
    var k1, c1, o1 := Occurrences(syl, name), ChaptersOf(syl, name), OnesOf(syl, name);
    MergeGrow(inp, name, k, c, o, e, k1, c1, o1);
    assert acc[j := g][j] == g;
  }

  /** An entry of another name already merged leaves this name as it was. */
  lemma {:induction false} KnownOther(inp: PlanInput, front: seq<SyllabusEntry>, acc: seq<SubjectData>, e: SyllabusEntry, name: string)
    requires NameFacts(inp, front, acc, name)
    requires name != Text.PyStrip(e.name) && SubjectPos(acc, Text.PyStrip(e.name)) < |acc|
    ensures var x := Text.PyStrip(e.name); var j := SubjectPos(acc, x);
      NameFacts(inp, front + [e], acc[j := Absorb(inp, acc[j], x, e)], name)
  {
    var x := Text.PyStrip(e.name);
    var j := SubjectPos(acc, x);
    var g := Absorb(inp, acc[j], x, e);
    PosUpdate(acc, j, g, name);
    StepSums(front, e, name);
    var i0 := SubjectPos(acc, name);
    assert Expected(inp, front + [e], name) == Expected(inp, front, name);
    if i0 < |acc| {
      assert i0 != j;
      assert acc[j := g][i0] == acc[i0];
    }
  }

  /** The first subject named `n` is at `p` when `p` is the first index
      holding `n`; with unique names, any index holding `n` is the first. */
  lemma {:induction false} FirstMatch(d: seq<SubjectData>, n: string, p: nat)
    requires p < |d| && d[p].name == n
    requires UniqueNames(d) || forall j :: 0 <= j < p ==> d[j].name != n
    ensures SubjectPos(d, n) == p
  {
  }

  /** No subject named `n` means the first one is past the end. */
  lemma {:induction false} NoMatch(d: seq<SubjectData>, n: string)
    requires forall j :: 0 <= j < |d| ==> d[j].name != n
    ensures SubjectPos(d, n) == |d|
  {
  }

  lemma {:induction false} PosAppend(acc: seq<SubjectData>, y: SubjectData, n: string)
    ensures var i := SubjectPos(acc, n);
      SubjectPos(acc + [y], n) == if i < |acc| then i else if y.name == n then |acc| else |acc| + 1
  {
    var d := acc + [y];
    var i := SubjectPos(acc, n);
    assert forall j :: 0 <= j < |acc| ==> d[j] == acc[j];
    if i < |acc| {
      FirstMatch(d, n, i);
    } else if y.name == n {
      FirstMatch(d, n, |acc|);
    } else {
      NoMatch(d, n);
    }
  }

  lemma {:induction false} PosUpdate(acc: seq<SubjectData>, j: nat, y: SubjectData, n: string)
    requires j < |acc| && y.name == acc[j].name
    ensures SubjectPos(acc[j := y], n) == SubjectPos(acc, n)
  {
    var d := acc[j := y];
    var i := SubjectPos(acc, n);
    assert forall k :: 0 <= k < |acc| ==> d[k].name == acc[k].name;
    if i < |acc| {
      FirstMatch(d, n, i);
    } else {
      NoMatch(d, n);
    }
  }

  /** The first entry of a name makes the subject `Expected` describes. */
  lemma {:induction false} MergeFirst(inp: PlanInput, front: seq<SyllabusEntry>, e: SyllabusEntry, name: string)
    requires name == Text.PyStrip(e.name)
    requires Occurrences(front, name) == 0 && ChaptersOf(front, name) == 0 && OnesOf(front, name) == 0
    ensures SubjectData(name, e.chapters, Get(inp.progress, name, 0), DeadlineFor(inp, name),
                        Get(inp.difficulties, name, Ones(e.chapters))) == Expected(inp, front + [e], name)
  {
    StepSums(front, e, name);
    var syl := front + [e];
    SummaryFirst(inp, name, e.chapters, Occurrences(syl, name), ChaptersOf(syl, name), OnesOf(syl, name));
  }

  lemma {:induction false} SummaryFirst(inp: PlanInput, name: string, chapters: int, k: nat, total: int, ones: nat)
    requires k == 1 && total == chapters && ones == (if chapters > 0 then chapters else 0)
    ensures SubjectData(name, chapters, Get(inp.progress, name, 0), DeadlineFor(inp, name),
                        Get(inp.difficulties, name, Ones(chapters)))
         == Summary(inp, name, k, total, ones)
  {
    if name in inp.difficulties {
      assert Copies(inp.difficulties[name], Pow2(0)) == inp.difficulties[name];
    }
  }

  /** The merge loop, filling `subjects_data` entry by entry. */
  method MergeSyllabus(inp: PlanInput) returns (data: seq<SubjectData>)
    ensures data == Merge(inp, inp.syllabus)
  {
    data := [];
    var i := 0;
    while i < |inp.syllabus|
      invariant 0 <= i <= |inp.syllabus|
      invariant data == Merge(inp, inp.syllabus[..i])
    {
      data := MergeEntry(inp, data, inp.syllabus[i]);
      MergePrefix(inp, inp.syllabus, i);
      i := i + 1;
    }
    assert inp.syllabus[..i] == inp.syllabus;
  }

  /** One pass of the merge loop: a new name is inserted, a known one has
      its counters and its difficulty list extended. */
  method MergeEntry(inp: PlanInput, data0: seq<SubjectData>, e: SyllabusEntry) returns (data: seq<SubjectData>)
    ensures data == MergeStep(inp, data0, e)
  {
    data := data0;
    var name := Text.PyStrip(e.name);
    var chapters := e.chapters;
    var done := Get(inp.progress, name, 0);
    var deadline := DeadlineFor(inp, name);
    var diffs := Get(inp.difficulties, name, Ones(chapters));
    var k := SubjectPos(data, name);
    if k == |data| {
      data := data + [SubjectData(name, chapters, done, deadline, diffs)];
    } else {
      var s := data[k];
      var grown := if name in inp.difficulties then s.difficulty + s.difficulty else s.difficulty + diffs;
      data := data[k := s.(chapters := s.chapters + chapters, completed := s.completed + done, difficulty := grown)];
    }
  }

  lemma {:induction false} MergePrefix(inp: PlanInput, syl: seq<SyllabusEntry>, i: nat)
    requires i < |syl|
    ensures Merge(inp, syl[..i + 1]) == MergeStep(inp, Merge(inp, syl[..i]), syl[i])
  {
    assert syl[..i + 1][..i] == syl[..i];
  }

  // ------------------------------------------------ tasks

  /** The task row of a subject. */
  function TaskOf(sd: SubjectData): Task {
    var remaining := sd.chapters - sd.completed;
    Task(sd.name, sd.chapters, sd.completed, remaining, sd.deadline, sd.deadline, Priority(remaining, sd.deadline))
  }

  /** The task rows of the subjects with chapters left, in subject order. */
  function Tasks(data: seq<SubjectData>): seq<Task> {
    if data == [] then []
    else
      var sd := data[|data| - 1];
      Tasks(data[..|data| - 1]) + (if sd.chapters - sd.completed > 0 then [TaskOf(sd)] else [])
  }

  /** Every task has chapters left, and done plus remaining is its total. */
  lemma {:induction false} TasksCount(data: seq<SubjectData>)
    ensures forall t :: t in Tasks(data) ==>
      t.remainingChapters > 0 && t.doneChapters + t.remainingChapters == t.totalChapters
  {
    if data != [] {
      TasksCount(data[..|data| - 1]);
    }
  }

  /** A task is the row of a subject with chapters left, and every such
      subject has its row. */
  lemma {:induction false} TasksExact(data: seq<SubjectData>)
    ensures forall t :: t in Tasks(data) ==>
      exists k :: 0 <= k < |data| && data[k].chapters - data[k].completed > 0 && t == TaskOf(data[k])
    ensures forall k :: 0 <= k < |data| && data[k].chapters - data[k].completed > 0 ==> TaskOf(data[k]) in Tasks(data)
  {
    if data != [] {
      var front := data[..|data| - 1];
      TasksExact(front);
      assert forall k :: 0 <= k < |front| ==> front[k] == data[k];
    }
  }

  /** No two tasks are for the same subject. */
  predicate DistinctSubjects(ts: seq<Task>) {
    forall i, j :: 0 <= i < j < |ts| ==> ts[i].subject != ts[j].subject
  }

  /** With unique names, no two tasks are for the same subject; so each
      subject with chapters left has exactly one task and the others none. */
  lemma {:induction false} TasksDistinct(data: seq<SubjectData>)
    requires UniqueNames(data)
    ensures DistinctSubjects(Tasks(data))
  {
    if data != [] {
      var front := data[..|data| - 1];
      var sd := data[|data| - 1];
      TasksDistinct(front);
      TasksExact(front);
      var ts := Tasks(data);
      var tf := Tasks(front);
      assert ts == tf + (if sd.chapters - sd.completed > 0 then [TaskOf(sd)] else []);
      forall i, j | 0 <= i < j < |ts| ensures ts[i].subject != ts[j].subject {
        assert ts[i] == tf[i] && tf[i] in tf;
        if j >= |tf| {
          assert ts[j] == TaskOf(sd);
          var k :| 0 <= k < |front| && front[k].chapters - front[k].completed > 0 && tf[i] == TaskOf(front[k]);
          assert front[k] == data[k];
          assert tf[i].subject == data[k].name && ts[j].subject == sd.name;
          assert data[k].name != data[|data| - 1].name;
        } else {
          assert ts[j] == tf[j];
        }
      }
    }
  }

  /** A subject as the task loop leaves it: with chapters left, its
      difficulty list is padded with ones up to its chapter count. */
  function PadSubject(sd: SubjectData): SubjectData {
    if sd.chapters - sd.completed > 0 then sd.(difficulty := PadTo(sd.difficulty, sd.chapters)) else sd
  }

  /** The subjects as the task loop leaves them. */
  function PadRemaining(data: seq<SubjectData>): (r: seq<SubjectData>)
    ensures |r| == |data|
  {
    seq(|data|, i requires 0 <= i < |data| => PadSubject(data[i]))
  }

  /** Padding one subject's difficulty list to its chapter count leaves
      its remaining chapters' hours as they were. */
  lemma {:induction false} PadSubjectItems(sd: SubjectData)
    requires sd.chapters - sd.completed > 0
    ensures SubjectItems(sd.(difficulty := PadTo(sd.difficulty, sd.chapters))) == SubjectItems(sd)
  {
    var p := sd.(difficulty := PadTo(sd.difficulty, sd.chapters));
    PadIdempotent(sd.difficulty, sd.chapters);
    assert RemainingWeights(p) == RemainingWeights(sd);
  }

  /** The padded subjects have the same pending chapters. */
  lemma {:induction false} PadPending(data: seq<SubjectData>)
    ensures Pending(PadRemaining(data)) == Pending(data)
  {
    if data != [] {
      var n := |data|;
      var p := PadRemaining(data);
      assert p[..n - 1] == PadRemaining(data[..n - 1]);
      PadPending(data[..n - 1]);
      if data[n - 1].chapters - data[n - 1].completed > 0 {
        PadSubjectItems(data[n - 1]);
      }
    }
  }

  /** The padded subjects have the same latest deadline. */
  lemma {:induction false} PadMaxDeadline(data: seq<SubjectData>)
    requires data != []
    ensures MaxDeadline(PadRemaining(data)) == MaxDeadline(data)
  {
    var n := |data|;
    var p := PadRemaining(data);
    if n > 1 {
      assert p[..n - 1] == PadRemaining(data[..n - 1]);
      PadMaxDeadline(data[..n - 1]);
    }
    assert p[n - 1].deadline == data[n - 1].deadline;
  }

  /** The padding the task loop does changes nothing the packer sees,
      because the packer pads the same lists the same way. */
  lemma {:induction false} PaddingInvisible(data: seq<SubjectData>, dailyHours: real)
    ensures Pending(PadRemaining(data)) == Pending(data)
    ensures data != [] ==> MaxDeadline(PadRemaining(data)) == MaxDeadline(data)
    ensures ScheduleDays(PadRemaining(data), dailyHours) == ScheduleDays(data, dailyHours)
  {
    var p := PadRemaining(data);
    PadPending(data);
    if data != [] {
      PadMaxDeadline(data);
      assert WindowSize(p) == WindowSize(data);
      assert Schedule(p, dailyHours) == Schedule(data, dailyHours);
    }
  }

  /** The task loop: skips subjects without chapters left, pads the others'
      difficulty lists in place and collects their task rows. */
  method BuildTasks(data0: seq<SubjectData>) returns (tasks: seq<Task>, data: seq<SubjectData>)
    ensures tasks == Tasks(data0)
    ensures data == PadRemaining(data0)
  {
    tasks := [];
    data := data0;
    var i := 0;
    while i < |data|
      invariant 0 <= i <= |data0| && |data| == |data0|
      invariant tasks == Tasks(data0[..i])
      invariant forall j :: 0 <= j < i ==> data[j] == PadSubject(data0[j])
      invariant forall j :: i <= j < |data| ==> data[j] == data0[j]
    {
      assert data0[..i + 1][..i] == data0[..i];
      var row, padded := TaskStep(data[i]);
      data := data[i := padded];
      tasks := tasks + row;
      i := i + 1;
    }
    assert data0[..i] == data0;
  }

  /** One pass of the task loop: a subject without chapters left gives no
      row and stays as it is; any other has its difficulty list padded and
      gives its task row. */
  method TaskStep(sd: SubjectData) returns (row: seq<Task>, padded: SubjectData)
    ensures row == if sd.chapters - sd.completed > 0 then [TaskOf(sd)] else []
    ensures padded == PadSubject(sd)
  {
    var total := sd.chapters;
    var completed := sd.completed;
    var remaining := total - completed;
    if remaining <= 0 {
      return [], sd;
    }
    padded := sd;
    if |sd.difficulty| < total {
      padded := sd.(difficulty := sd.difficulty + Ones(total - |sd.difficulty|));
    }
    row := [Task(sd.name, total, completed, remaining, sd.deadline, sd.deadline, Priority(remaining, sd.deadline))];
  }

  // ------------------------------------------------ ranking

  /** Priorities never increase from one task to the next. */
  predicate NonIncreasing(ts: seq<Task>) {
    forall i, j :: 0 <= i < j < |ts| ==> ts[i].priority >= ts[j].priority
  }

  /** Puts `x` after every task whose priority is at least its own. */
  function Insert(s: seq<Task>, x: Task): (r: seq<Task>)
    ensures multiset(r) == multiset(s) + multiset{x}
  {
    if s == [] then [x]
    else if s[|s| - 1].priority >= x.priority then s + [x]
    else
      var r := Insert(s[..|s| - 1], x) + [s[|s| - 1]];
      assert s == s[..|s| - 1] + [s[|s| - 1]];
      r
  }

  /** `tasks.sort(key=priority, reverse=True)`: a stable sort by
      descending priority. */
  function SortByPriority(ts: seq<Task>): seq<Task> {
    if ts == [] then [] else Insert(SortByPriority(ts[..|ts| - 1]), ts[|ts| - 1])
  }

  lemma {:induction false} InsertSorted(s: seq<Task>, x: Task)
    requires NonIncreasing(s)
    ensures NonIncreasing(Insert(s, x))
  {
    if s == [] {
    } else if s[|s| - 1].priority >= x.priority {
      forall t | t in s ensures t.priority >= x.priority {
        var k :| 0 <= k < |s| && s[k] == t;
        assert k == |s| - 1 || s[k].priority >= s[|s| - 1].priority;
      }
      AppendNonIncreasing(s, x);
    } else {
      var front := s[..|s| - 1];
      var last := s[|s| - 1];
      assert NonIncreasing(front) by {
        forall i, j | 0 <= i < j < |front| ensures front[i].priority >= front[j].priority {
          assert front[i] == s[i] && front[j] == s[j];
        }
      }
      InsertSorted(front, x);
      var f := Insert(front, x);
      forall t | t in f ensures t.priority >= last.priority {
        assert t in multiset(f);
        if t != x {
          assert t in multiset(front);
          var k :| 0 <= k < |front| && front[k] == t;
          assert s[k] == t;
        }
      }
      AppendNonIncreasing(f, last);
    }
  }

  /** A task no higher than any in a non-increasing list extends it. */
  lemma {:induction false} AppendNonIncreasing(f: seq<Task>, last: Task)
    requires NonIncreasing(f)
    requires forall t :: t in f ==> t.priority >= last.priority
    ensures NonIncreasing(f + [last])
  {
    var r := f + [last];
    forall i, j | 0 <= i < j < |r| ensures r[i].priority >= r[j].priority {
      assert r[i] == f[i] && f[i] in f;
      if j < |r| - 1 {
        assert r[j] == f[j];
      }
    }
  }

  /** The ranking is a permutation of the tasks with non-increasing priority. */
  lemma {:induction false} SortSorted(ts: seq<Task>)
    ensures NonIncreasing(SortByPriority(ts))
    ensures multiset(SortByPriority(ts)) == multiset(ts)
  {
    if ts != [] {
      SortSorted(ts[..|ts| - 1]);
      InsertSorted(SortByPriority(ts[..|ts| - 1]), ts[|ts| - 1]);
      assert ts == ts[..|ts| - 1] + [ts[|ts| - 1]];
    }
  }

  /** The tasks of priority `p`, in order. */
  function WithPriority(ts: seq<Task>, p: real): seq<Task> {
    if ts == [] then []
    else WithPriority(ts[..|ts| - 1], p) + (if ts[|ts| - 1].priority == p then [ts[|ts| - 1]] else [])
  }

  lemma {:induction false} WithPriorityConcat(a: seq<Task>, b: seq<Task>, p: real)
    ensures WithPriority(a + b, p) == WithPriority(a, p) + WithPriority(b, p)
  {
    if b == [] {
      assert a + b == a;
    } else {
      WithPriorityConcat(a, b[..|b| - 1], p);
      assert (a + b)[..|a + b| - 1] == a + b[..|b| - 1];
    }
  }

  lemma {:induction false} InsertStable(s: seq<Task>, x: Task, p: real)
    ensures WithPriority(Insert(s, x), p) == WithPriority(s, p) + (if x.priority == p then [x] else [])
    decreases |s|, 1
  {
    WithPrioritySingle(x, p);
    if s == [] {
      assert Insert(s, x) == [x] && [] + [x] == [x];
    } else if s[|s| - 1].priority >= x.priority {
      assert Insert(s, x) == s + [x];
      WithPriorityConcat(s, [x], p);
    } else {
      InsertStableShift(s, x, p);
    }
  }

  /** `x` outranks the last task: it is inserted into the front, and the
      last task, of another priority, stays last. */
  lemma {:induction false} InsertStableShift(s: seq<Task>, x: Task, p: real)
    requires s != [] && s[|s| - 1].priority < x.priority
    ensures WithPriority(Insert(s, x), p) == WithPriority(s, p) + (if x.priority == p then [x] else [])
    decreases |s|, 0
  {
    var front := s[..|s| - 1];
    var last := s[|s| - 1];
    var f := Insert(front, x);
    assert Insert(s, x) == f + [last];
    InsertStable(front, x, p);
    WithPriorityConcat(f, [last], p);
    WithPrioritySingle(last, p);
    var a, xs, ls := WithPriority(front, p), (if x.priority == p then [x] else []), (if last.priority == p then [last] else []);
    assert WithPriority(s, p) == a + ls;
    assert WithPriority(Insert(s, x), p) == (a + xs) + ls;
    Sequences.SwapEmpty(a, xs, ls);
  }

  lemma {:induction false} WithPrioritySingle(x: Task, p: real)
    ensures WithPriority([x], p) == if x.priority == p then [x] else []
  {
    assert [x][..0] == [];
  }

  /** The sort is stable: the tasks of any one priority keep their order. */
  lemma {:induction false} SortStable(ts: seq<Task>, p: real)
    ensures WithPriority(SortByPriority(ts), p) == WithPriority(ts, p)
  {
    if ts != [] {
      SortStable(ts[..|ts| - 1], p);
      InsertStable(SortByPriority(ts[..|ts| - 1]), ts[|ts| - 1], p);
    }
  }

  // ------------------------------------------------ the request

  /** The response for a request, or the error the packer raises. */
  function PlanFor(inp: PlanInput): Result<GeneratedPlan, ScheduleError> {
    var data := Merge(inp, inp.syllabus);
    match ScheduleDays(PadRemaining(data), inp.dailyHours)
    case Success(days) => Success(GeneratedPlan(SortByPriority(Tasks(data)), days))
    case Failure(e) => Failure(e)
  }

  /** `generate_plan`: merge, build the tasks, rank them, then pack the days. */
  method GeneratePlan(inp: PlanInput) returns (r: Result<GeneratedPlan, ScheduleError>)
    ensures r == PlanFor(inp)
  {
    var data := MergeSyllabus(inp);
    var tasks, padded := BuildTasks(data);
    tasks := SortByPriority(tasks);
    var days := GenerateDailySchedule(padded, inp.dailyHours);
    match days {
      case Success(d) => r := Success(GeneratedPlan(tasks, d));
      case Failure(e) => r := Failure(e);
    }
  }

  /** What a generated plan promises: the tasks are exactly one row per
      merged subject with chapters left, ranked by non-increasing priority
      with ties in merge order, each with done plus remaining equal to its
      total; the schedule holds every remaining chapter once. */
  lemma {:induction false} PlanFacts(inp: PlanInput)
    requires PlanFor(inp).Success?
    ensures var data := Merge(inp, inp.syllabus);
      var plan := PlanFor(inp).value;
      && NonIncreasing(plan.tasks)
      && multiset(plan.tasks) == multiset(Tasks(data))
      && (forall p :: WithPriority(plan.tasks, p) == WithPriority(Tasks(data), p))
      && (forall t :: t in plan.tasks ==> t.doneChapters + t.remainingChapters == t.totalChapters)
      && Schedule(data, inp.dailyHours).Success?
      && plan.schedule == Schedule(data, inp.dailyHours).value.days
      && multiset(Flatten(plan.schedule)) == multiset(Pending(data))
  {
    var data := Merge(inp, inp.syllabus);
    var ts := Tasks(data);
    SortSorted(ts);
    forall p ensures WithPriority(SortByPriority(ts), p) == WithPriority(ts, p) {
      SortStable(ts, p);
    }
    TasksCount(data);
    forall t | t in SortByPriority(ts) ensures t in ts {
      assert t in multiset(SortByPriority(ts));
    }
    PaddingInvisible(data, inp.dailyHours);
    ScheduleComplete(data, inp.dailyHours);
  }
}
