/** The plan generator's greedy day packer: every chapter still to study,
    weighted by its difficulty, goes on the earliest day of the window that
    still has enough hours left, or onto the last day when none has. Days
    are whole-day offsets from "today": offset `d` is position `d`. */
module Scheduler {
  import opened Wrappers
  import opened PlanFormat

  /** A subject after merging: chapter count, completed count, deadline
      (a day offset) and the difficulty weight of each chapter. */
  datatype SubjectData = SubjectData(
    name: string,
    chapters: int,
    completed: int,
    deadline: int,
    difficulty: seq<real>)

  /** Why no schedule comes back: `max()` over no subjects, or an overflow
      item with no day to go to (`sorted(...)[-1]` on an empty window). */
  datatype ScheduleError = NoSubjects | NoDayForOverflow

  /** The window is never longer than this many days. */
  const MaxWindow: int := 30

  // ------------------------------------------------ Python list helpers

  /** `[1] * n`: empty when `n` is not positive. */
  function Ones(n: int): (r: seq<real>)
    ensures |r| == (if n > 0 then n else 0)
    ensures forall i :: 0 <= i < |r| ==> r[i] == 1.0
  {
    seq(if n > 0 then n else 0, _ => 1.0)
  }

  /** A weight list padded with 1s up to `total` entries; a list that is
      long enough is kept as it is. */
  function PadTo(d: seq<real>, total: int): (r: seq<real>)
    ensures |r| == (if |d| < total then total else |d|)
    ensures r[..|d|] == d
    ensures forall i :: |d| <= i < |r| ==> r[i] == 1.0
  {
    if |d| < total then d + Ones(total - |d|) else d
  }

  /** Padding twice is padding once. */
  lemma {:induction false} PadIdempotent(d: seq<real>, total: int)
    ensures PadTo(PadTo(d, total), total) == PadTo(d, total)
  {
  }

  /** Where a Python slice bound `i` lands in a list of length `len`:
      negative bounds count from the end, and both ends are clamped. */
  function SliceBound(i: int, len: nat): (k: nat)
    ensures k <= len
    ensures 0 <= i <= len ==> k == i
    ensures i < 0 && 0 <= i + len ==> k == i + len
    ensures i > len ==> k == len
    ensures i + len < 0 ==> k == 0
  {
    if i < 0 then (if i + len < 0 then 0 else i + len) else if i > len then len else i
  }

  /** Python's `s[lo:hi]`. */
  function PySlice(s: seq<real>, lo: int, hi: int): (r: seq<real>)
    ensures |r| <= |s|
    ensures 0 <= lo <= hi <= |s| ==> r == s[lo..hi]
  {
    var a := SliceBound(lo, |s|);
    var b := SliceBound(hi, |s|);
    if a < b then s[a..b] else []
  }

  // ------------------------------------------------ the chapters to place

  /** The padded weights of a subject's remaining chapters,
      `difficulty[completed:total_chapters]` after padding. */
  function RemainingWeights(sd: SubjectData): seq<real> {
    PySlice(PadTo(sd.difficulty, sd.chapters), sd.completed, sd.chapters)
  }

  /** The hours of the `k`-th remaining chapter: its slice entry, or 1. */
  function Weight(sd: SubjectData, k: nat): real {
    var w := RemainingWeights(sd);
    if k < |w| then w[k] else 1.0
  }

  /** For a subject with a sensible completed count, the `k`-th remaining
      chapter weighs what chapter index `completed + k` weighs after
      padding: its own difficulty entry, or 1 past the end of the list. */
  lemma {:induction false} WeightOfChapter(sd: SubjectData, k: nat)
    requires 0 <= sd.completed && sd.completed + k < sd.chapters
    ensures var c := sd.completed + k;
      Weight(sd, k) == (if c < |sd.difficulty| then sd.difficulty[c] else 1.0)
  {
    var p := PadTo(sd.difficulty, sd.chapters);
    var c := sd.completed + k;
    assert RemainingWeights(sd) == p[sd.completed..sd.chapters];
    if c < |sd.difficulty| {
      assert p[..|sd.difficulty|][c] == sd.difficulty[c];
    }
  }

  /** How many chapters `range(completed, total_chapters)` holds. */
  function ChapterCount(sd: SubjectData): nat {
    if sd.chapters > sd.completed then sd.chapters - sd.completed else 0
  }

  /** The items of one subject in the order it places them: chapter
      numbers `completed + 1` up to `total_chapters`, each with its weight. */
  function SubjectItems(sd: SubjectData): (r: seq<Item>)
    ensures |r| == ChapterCount(sd)
    ensures forall k :: 0 <= k < |r| ==> r[k] == Item(sd.name, sd.completed + k + 1, Weight(sd, k))
  {
    seq(ChapterCount(sd), k requires 0 <= k < ChapterCount(sd) => Item(sd.name, sd.completed + k + 1, Weight(sd, k)))
  }

  /** Every item to place, subject by subject. */
  function Pending(data: seq<SubjectData>): seq<Item> {
    if data == [] then [] else Pending(data[..|data| - 1]) + SubjectItems(data[|data| - 1])
  }

  /** `x` is chapter `c + 1` of `sd`, for a `c` in `range(completed,
      total_chapters)`, with that chapter's weight. */
  predicate IsChapterItem(sd: SubjectData, c: int, x: Item) {
    sd.completed <= c < sd.chapters && x == Item(sd.name, c + 1, Weight(sd, c - sd.completed))
  }

  /** Every remaining chapter of every subject is pending. */
  lemma {:induction false} PendingHas(data: seq<SubjectData>, k: nat, c: int, x: Item)
    requires k < |data| && IsChapterItem(data[k], c, x)
    ensures x in Pending(data)
  {
    var n := |data|;
    var front := data[..n - 1];
    var items := SubjectItems(data[n - 1]);
    assert Pending(data) == Pending(front) + items;
    if k == n - 1 {
      var i := c - data[k].completed;
      assert 0 <= i < |items| && items[i] == x;
      assert x in items;
    } else {
      assert front[k] == data[k];
      PendingHas(front, k, c, x);
      assert x in Pending(front);
    }
  }

  /** Nothing else is pending: each pending item is a remaining chapter of
      one of the subjects. */
  lemma {:induction false} PendingSound(data: seq<SubjectData>, x: Item)
    requires x in Pending(data)
    ensures exists k, c :: 0 <= k < |data| && IsChapterItem(data[k], c, x)
  {
    var n := |data|;
    var front := data[..n - 1];
    var last := data[n - 1];
    assert Pending(data) == Pending(front) + SubjectItems(last);
    if x in Pending(front) {
      PendingSound(front, x);
      var k, c :| 0 <= k < |front| && IsChapterItem(front[k], c, x);
      assert data[k] == front[k];
    } else {
      var k :| 0 <= k < |SubjectItems(last)| && SubjectItems(last)[k] == x;
      assert IsChapterItem(data[n - 1], last.completed + k, x);
    }
  }

  // ------------------------------------------------ the window

  /** The latest deadline over all subjects. */
  function MaxDeadline(data: seq<SubjectData>): (m: int)
    requires data != []
    ensures forall k :: 0 <= k < |data| ==> data[k].deadline <= m
    ensures exists k :: 0 <= k < |data| && data[k].deadline == m
  {
    if |data| == 1 then data[0].deadline
    else
      var m := MaxDeadline(data[..|data| - 1]);
      var d := data[|data| - 1].deadline;
      if d > m then d else m
  }

  /** `min(max_deadline + 1, 30)` days starting today (none when that is
      not positive). */
  function WindowSize(data: seq<SubjectData>): (n: nat)
    requires data != []
    ensures n <= MaxWindow
    ensures MaxDeadline(data) < 0 ==> n == 0
    ensures 0 <= MaxDeadline(data) < MaxWindow ==> n == MaxDeadline(data) + 1
    ensures MaxDeadline(data) >= MaxWindow ==> n == MaxWindow
  {
    var m := MaxDeadline(data) + 1;
    if m > MaxWindow then MaxWindow else if m < 0 then 0 else m
  }

  // ------------------------------------------------ first fit

  /** The first day from `i` on with at least `h` hours left. */
  function FirstFitFrom(left: seq<real>, h: real, i: nat): (r: Option<nat>)
    requires i <= |left|
    ensures r.Some? ==> (i <= r.value < |left| && left[r.value] >= h
      && forall e :: i <= e < r.value ==> left[e] < h)
    ensures r.None? ==> forall e :: i <= e < |left| ==> left[e] < h
    decreases |left| - i
  {
    if i == |left| then None
    else if left[i] >= h then Some(i)
    else FirstFitFrom(left, h, i + 1)
  }

  /** The earliest day with at least `h` hours left, if any. */
  function FirstFit(left: seq<real>, h: real): (r: Option<nat>)
    ensures r.Some? ==> (r.value < |left| && left[r.value] >= h
      && forall e :: 0 <= e < r.value ==> left[e] < h)
    ensures r.None? ==> forall e :: 0 <= e < |left| ==> left[e] < h
  {
    FirstFitFrom(left, h, 0)
  }

  /** The day an item of `h` hours goes to: the earliest day it fits,
      otherwise the last day. */
  function TargetDay(left: seq<real>, h: real): (d: nat)
    requires |left| > 0
    ensures d < |left|
    ensures (left[d] >= h && forall e :: 0 <= e < d ==> left[e] < h)
      || (d == |left| - 1 && forall e :: 0 <= e < |left| ==> left[e] < h)
  {
    match FirstFit(left, h)
    case Some(d) => d
    case None => |left| - 1
  }

  // ------------------------------------------------ packing

  /** `daily_hours_left` and `schedule`, one entry per day of the window. */
  datatype Board = Board(left: seq<real>, days: seq<seq<Item>>)

  predicate WellShaped(b: Board) {
    |b.left| == |b.days|
  }

  /** The board a window of `n` days starts with: every day has the
      full daily hours and no items. */
  function StartBoard(n: nat, dailyHours: real): (b: Board)
    ensures WellShaped(b) && |b.days| == n
    ensures forall d :: 0 <= d < n ==> b.left[d] == dailyHours && b.days[d] == []
  {
    Board(seq(n, _ => dailyHours), seq(n, _ => []))
  }

  /** Places one item: appended to its target day, whose hours left drop
      by the item's hours; with no day at all there is nowhere to put it. */
  function Place(b: Board, x: Item): (r: Result<Board, ScheduleError>)
    requires WellShaped(b)
    ensures r.Failure? <==> |b.left| == 0
    ensures r.Failure? ==> r.error == NoDayForOverflow
    ensures r.Success? ==> WellShaped(r.value) && |r.value.left| == |b.left|
  {
    if |b.left| == 0 then Failure(NoDayForOverflow)
    else
      var d := TargetDay(b.left, x.hours);
      Success(Board(b.left[d := b.left[d] - x.hours], b.days[d := b.days[d] + [x]]))
  }

  /** Places the items one after the other; the first failure is final. */
  function PlaceAll(b: Board, items: seq<Item>): (r: Result<Board, ScheduleError>)
    requires WellShaped(b)
    ensures r.Failure? <==> |b.left| == 0 && items != []
    ensures r.Failure? ==> r.error == NoDayForOverflow
    ensures r.Success? ==> WellShaped(r.value) && |r.value.left| == |b.left|
  {
    if items == [] then Success(b)
    else
      match PlaceAll(b, items[..|items| - 1])
      case Failure(e) => Failure(e)
      case Success(b1) => Place(b1, items[|items| - 1])
  }

  /** The board `generate_daily_schedule` ends with, or the error it raises. */
  function Schedule(data: seq<SubjectData>, dailyHours: real): (r: Result<Board, ScheduleError>)
    ensures r.Failure? <==> data == [] || (WindowSize(data) == 0 && Pending(data) != [])
    ensures r.Failure? ==> r.error == (if data == [] then NoSubjects else NoDayForOverflow)
    ensures r.Success? ==> WellShaped(r.value) && |r.value.days| == WindowSize(data)
  {
    if data == [] then Failure(NoSubjects)
    else PlaceAll(StartBoard(WindowSize(data), dailyHours), Pending(data))
  }

  /** The schedule alone, as `generate_daily_schedule` returns it. */
  function ScheduleDays(data: seq<SubjectData>, dailyHours: real): Result<seq<seq<Item>>, ScheduleError> {
    match Schedule(data, dailyHours)
    case Success(b) => Success(b.days)
    case Failure(e) => Failure(e)
  }

  // ------------------------------------------------ accounting and capacity

  /** Every day's hours left are the daily hours minus what it holds. */
  predicate Accounted(b: Board, dailyHours: real) {
    WellShaped(b) && forall d :: 0 <= d < |b.left| ==> b.left[d] == dailyHours - HoursOf(b.days[d])
  }

  lemma {:induction false} PlaceAllAccounted(b: Board, items: seq<Item>, dailyHours: real)
    requires Accounted(b, dailyHours)
    ensures PlaceAll(b, items).Success? ==> Accounted(PlaceAll(b, items).value, dailyHours)
  {
    if items != [] {
      var front := items[..|items| - 1];
      var x := items[|items| - 1];
      PlaceAllAccounted(b, front, dailyHours);
      var r := PlaceAll(b, front);
      if r.Success? && |r.value.left| > 0 {
        var b1 := r.value;
        var d := TargetDay(b1.left, x.hours);
        HoursOfAppend(b1.days[d], x);
      }
    }
  }

  /** After scheduling, `daily_hours_left[d] == daily_hours - (hours on d)`
      for every day of the window. */
  lemma {:induction false} ScheduleAccounting(data: seq<SubjectData>, dailyHours: real)
    requires Schedule(data, dailyHours).Success?
    ensures var b := Schedule(data, dailyHours).value;
      forall d :: 0 <= d < |b.days| ==> b.left[d] == dailyHours - HoursOf(b.days[d])
  {
    var b0 := StartBoard(WindowSize(data), dailyHours);
    assert forall d :: 0 <= d < |b0.days| ==> b0.days[d] == [] && HoursOf(b0.days[d]) == 0.0;
    PlaceAllAccounted(b0, Pending(data), dailyHours);
  }

  /** No day before the last has gone below zero hours left. */
  predicate Slack(b: Board) {
    forall d :: 0 <= d < |b.left| - 1 ==> b.left[d] >= 0.0
  }

  lemma {:induction false} PlaceAllSlack(b: Board, items: seq<Item>)
    requires WellShaped(b) && Slack(b)
    ensures PlaceAll(b, items).Success? ==> Slack(PlaceAll(b, items).value)
  {
    if items != [] {
      PlaceAllSlack(b, items[..|items| - 1]);
    }
  }

  /** With a non-negative daily budget, every day except the last holds at
      most that many hours: only the last day takes overflow. */
  lemma {:induction false} ScheduleCapacity(data: seq<SubjectData>, dailyHours: real)
    requires dailyHours >= 0.0
    requires Schedule(data, dailyHours).Success?
    ensures var b := Schedule(data, dailyHours).value;
      forall d :: 0 <= d < |b.days| - 1 ==> HoursOf(b.days[d]) <= dailyHours
  {
    ScheduleAccounting(data, dailyHours);
    PlaceAllSlack(StartBoard(WindowSize(data), dailyHours), Pending(data));
  }

  // ------------------------------------------------ completeness

  /** All items of a schedule, day after day. */
  function Flatten(days: seq<seq<Item>>): seq<Item> {
    if days == [] then [] else Flatten(days[..|days| - 1]) + days[|days| - 1]
  }

  /** Appending an item to one day adds exactly that item to the whole. */
  lemma {:induction false} FlattenAppend(days: seq<seq<Item>>, d: nat, x: Item)
    requires d < |days|
    ensures multiset(Flatten(days[d := days[d] + [x]])) == multiset(Flatten(days)) + multiset{x}
  {
    var n := |days|;
    var after := days[d := days[d] + [x]];
    assert after[..n - 1] == if d == n - 1 then days[..n - 1] else days[..n - 1][d := days[d] + [x]];
    if d < n - 1 {
      FlattenAppend(days[..n - 1], d, x);
    }
  }

  /** An item on some day is in the flattened schedule. */
  lemma {:induction false} FlattenHolds(days: seq<seq<Item>>, d: nat, y: Item)
    requires d < |days| && y in days[d]
    ensures y in Flatten(days)
  {
    if d < |days| - 1 {
      FlattenHolds(days[..|days| - 1], d, y);
    }
  }

  lemma {:induction false} FlattenEmpty(days: seq<seq<Item>>)
    requires forall d :: 0 <= d < |days| ==> days[d] == []
    ensures Flatten(days) == []
  {
    if days != [] {
      FlattenEmpty(days[..|days| - 1]);
    }
  }

  lemma {:induction false} PlaceAllMultiset(b: Board, items: seq<Item>)
    requires WellShaped(b)
    ensures PlaceAll(b, items).Success? ==>
      multiset(Flatten(PlaceAll(b, items).value.days)) == multiset(Flatten(b.days)) + multiset(items)
  {
    if items != [] {
      var front := items[..|items| - 1];
      var x := items[|items| - 1];
      PlaceAllMultiset(b, front);
      var r := PlaceAll(b, front);
      if r.Success? && |r.value.left| > 0 {
        FlattenAppend(r.value.days, TargetDay(r.value.left, x.hours), x);
      }
      assert items == front + [x];
    }
  }

  /** Nothing is lost or added: the schedule holds exactly the pending
      items, each as often as it is pending. */
  lemma {:induction false} ScheduleComplete(data: seq<SubjectData>, dailyHours: real)
    requires Schedule(data, dailyHours).Success?
    ensures multiset(Flatten(Schedule(data, dailyHours).value.days)) == multiset(Pending(data))
  {
    var b0 := StartBoard(WindowSize(data), dailyHours);
    FlattenEmpty(b0.days);
    PlaceAllMultiset(b0, Pending(data));
  }

  // ------------------------------------------------ order

  /** No two merged subjects share a name. */
  predicate UniqueNames(data: seq<SubjectData>) {
    forall i, j :: 0 <= i < j < |data| ==> data[i].name != data[j].name
  }

  /** The position of the first subject named `name`, or `|data|`. */
  function SubjectPos(data: seq<SubjectData>, name: string): (i: nat)
    ensures i <= |data|
    ensures i < |data| ==> data[i].name == name
    ensures forall j :: 0 <= j < i ==> data[j].name != name
  {
    if data == [] then 0 else if data[0].name == name then 0 else 1 + SubjectPos(data[1..], name)
  }

  /** `a` comes before `b`: an earlier subject, or the same subject and a
      smaller chapter number. */
  predicate Precedes(data: seq<SubjectData>, a: Item, b: Item) {
    var i := SubjectPos(data, a.subject);
    var j := SubjectPos(data, b.subject);
    i < j || (i == j && a.chapter < b.chapter)
  }

  predicate Ascending(data: seq<SubjectData>, items: seq<Item>) {
    forall i, j :: 0 <= i < j < |items| ==> Precedes(data, items[i], items[j])
  }

  /** Every item of `Pending(data)` belongs to one of the subjects. */
  lemma {:induction false} PendingSubjects(data: seq<SubjectData>, x: Item)
    requires x in Pending(data)
    ensures SubjectPos(data, x.subject) < |data|
  {
    PendingSound(data, x);
  }

  /** With unique names the pending items come in subject order and then
      in ascending chapter order. */
  lemma {:induction false} PendingAscending(data: seq<SubjectData>)
    requires UniqueNames(data)
    ensures Ascending(data, Pending(data))
  {
    if data != [] {
      var n := |data|;
      var front := data[..n - 1];
      var last := data[n - 1];
      PendingAscending(front);
      var pf := Pending(front);
      var p := Pending(data);
      assert p == pf + SubjectItems(last);
      assert SubjectPos(data, last.name) == n - 1;
      forall y | y in pf ensures SubjectPos(data, y.subject) == SubjectPos(front, y.subject) < n - 1 {
        PendingSubjects(front, y);
      }
      forall i, j | 0 <= i < j < |p| ensures Precedes(data, p[i], p[j]) {
        if j < |pf| {
          assert p[i] == pf[i] && p[j] == pf[j];
          assert pf[i] in pf && pf[j] in pf;
        } else if i < |pf| {
          assert p[i] == pf[i] && pf[i] in pf;
        }
      }
    }
  }

  /** Every day lists its items in ascending order. */
  predicate DaysAscending(data: seq<SubjectData>, b: Board) {
    forall d :: 0 <= d < |b.days| ==> Ascending(data, b.days[d])
  }

  lemma {:induction false} PlaceAllAscending(data: seq<SubjectData>, b: Board, items: seq<Item>)
    requires WellShaped(b) && Flatten(b.days) == [] && DaysAscending(data, b)
    requires Ascending(data, items)
    ensures PlaceAll(b, items).Success? ==> DaysAscending(data, PlaceAll(b, items).value)
  {
    if items != [] {
      var front := items[..|items| - 1];
      var x := items[|items| - 1];
      assert Ascending(data, front) by {
        forall i, j | 0 <= i < j < |front| ensures Precedes(data, front[i], front[j]) {
          assert front[i] == items[i] && front[j] == items[j];
        }
      }
      PlaceAllAscending(data, b, front);
      var r := PlaceAll(b, front);
      if r.Success? && |r.value.left| > 0 {
        var b1 := r.value;
        var d := TargetDay(b1.left, x.hours);
        PlacedBefore(data, b, items, b1, d);
        AppendAscending(data, b1.days[d], x);
        var b2 := Place(b1, x).value;
        assert b2.days == b1.days[d := b1.days[d] + [x]];
        forall e | 0 <= e < |b2.days| ensures Ascending(data, b2.days[e]) {
          if e != d {
            assert b2.days[e] == b1.days[e];
          }
        }
      }
    }
  }

  /** The items already on a day came earlier in the list, so they
      precede the next item. */
  lemma {:induction false} PlacedBefore(data: seq<SubjectData>, b: Board, items: seq<Item>, b1: Board, d: nat)
    requires WellShaped(b) && Flatten(b.days) == [] && Ascending(data, items) && items != []
    requires PlaceAll(b, items[..|items| - 1]) == Success(b1) && d < |b1.days|
    ensures forall y :: y in b1.days[d] ==> Precedes(data, y, items[|items| - 1])
  {
    var front := items[..|items| - 1];
    PlaceAllMultiset(b, front);
    assert multiset(Flatten(b.days)) == multiset{};
    assert multiset(Flatten(b1.days)) == multiset(front);
    forall y | y in b1.days[d] ensures Precedes(data, y, items[|items| - 1]) {
      FlattenHolds(b1.days, d, y);
      assert y in multiset(Flatten(b1.days));
      var m :| 0 <= m < |front| && front[m] == y;
      assert items[m] == y;
    }
  }

  /** An item preceded by everything on an ascending day keeps it ascending. */
  lemma {:induction false} AppendAscending(data: seq<SubjectData>, day: seq<Item>, x: Item)
    requires Ascending(data, day)
    requires forall y :: y in day ==> Precedes(data, y, x)
    ensures Ascending(data, day + [x])
  {
    var grown := day + [x];
    forall i, j | 0 <= i < j < |grown| ensures Precedes(data, grown[i], grown[j]) {
      if j < |day| {
        assert grown[i] == day[i] && grown[j] == day[j];
      } else {
        assert grown[i] == day[i] && day[i] in day;
      }
    }
  }

  /** With unique subject names, each day lists its items by subject and
      then by ascending chapter. */
  lemma {:induction false} ScheduleOrdered(data: seq<SubjectData>, dailyHours: real)
    requires UniqueNames(data)
    requires Schedule(data, dailyHours).Success?
    ensures var b := Schedule(data, dailyHours).value;
      forall d, i, j :: 0 <= d < |b.days| && 0 <= i < j < |b.days[d]| ==>
        Precedes(data, b.days[d][i], b.days[d][j])
  {
    var b0 := StartBoard(WindowSize(data), dailyHours);
    FlattenEmpty(b0.days);
    PendingAscending(data);
    PlaceAllAscending(data, b0, Pending(data));
  }

  /** An element of a list without repeats occurs in it once. */
  lemma {:induction false} OnceInDistinct(s: seq<Item>, x: Item)
    requires forall i, j :: 0 <= i < j < |s| ==> s[i] != s[j]
    requires x in s
    ensures multiset(s)[x] == 1
  {
    var n := |s|;
    assert s == s[..n - 1] + [s[n - 1]];
    if s[n - 1] == x {
      assert x !in s[..n - 1];
    } else {
      OnceInDistinct(s[..n - 1], x);
    }
  }

  /** Each chapter `c` in `range(completed, total_chapters)` of each subject
      is on the schedule exactly once, as chapter `c + 1` with its weight. */
  lemma {:induction false} ScheduleOnce(data: seq<SubjectData>, dailyHours: real, k: nat, c: int)
    requires UniqueNames(data)
    requires Schedule(data, dailyHours).Success?
    requires k < |data| && data[k].completed <= c < data[k].chapters
    ensures multiset(Flatten(Schedule(data, dailyHours).value.days))
      [Item(data[k].name, c + 1, Weight(data[k], c - data[k].completed))] == 1
  {
    var x := Item(data[k].name, c + 1, Weight(data[k], c - data[k].completed));
    var p := Pending(data);
    PendingHas(data, k, c, x);
    PendingAscending(data);
    ScheduleComplete(data, dailyHours);
    OnceInDistinct(p, x);
  }

  // ------------------------------------------------ the imperative packer

  /** The day loop for one item: the first day with enough hours left takes
      it (`break`); when none has, the last day does. */
  method PlaceItem(left: seq<real>, days: seq<seq<Item>>, x: Item)
    returns (r: Result<Board, ScheduleError>)
    requires |left| == |days|
    ensures r == Place(Board(left, days), x)
  {
    var d := 0;
    var found := false;
    var newLeft, newDays := left, days;
    while d < |left| && !found
      invariant 0 <= d <= |left|
      invariant !found ==> newLeft == left && newDays == days
      invariant !found ==> forall e :: 0 <= e < d ==> left[e] < x.hours
      invariant found ==> (d > 0 && left[d - 1] >= x.hours
        && newLeft == left[d - 1 := left[d - 1] - x.hours]
        && newDays == days[d - 1 := days[d - 1] + [x]])
      invariant found ==> forall e :: 0 <= e < d - 1 ==> left[e] < x.hours
    {
      if left[d] >= x.hours {
        newDays := days[d := days[d] + [x]];
        newLeft := left[d := left[d] - x.hours];
        found := true;
      }
      d := d + 1;
    }
    if !found {
      if |left| == 0 {
        return Failure(NoDayForOverflow);
      }
      var last := |left| - 1;
      newDays := days[last := days[last] + [x]];
      newLeft := left[last := left[last] - x.hours];
    }
    r := Success(Board(newLeft, newDays));
  }

  /** The first loop of `generate_daily_schedule`: each subject's weight
      list is padded in place and its remaining chapters' slice is kept. */
  method RemainingWeightsOf(data: seq<SubjectData>) returns (weights: seq<seq<real>>)
    ensures |weights| == |data|
    ensures forall j :: 0 <= j < |data| ==> weights[j] == RemainingWeights(data[j])
  {
    weights := [];
    var i := 0;
    while i < |data|
      invariant 0 <= i <= |data|
      invariant |weights| == i
      invariant forall j :: 0 <= j < i ==> weights[j] == RemainingWeights(data[j])
    {
      var sd := data[i];
      var difficulty := sd.difficulty;
      if |difficulty| < sd.chapters {
        difficulty := difficulty + Ones(sd.chapters - |difficulty|);
      }
      weights := weights + [PySlice(difficulty, sd.completed, sd.chapters)];
      i := i + 1;
    }
  }

  /** The chapter loop for one subject: each remaining chapter, with its
      slice entry as hours (1 past the end), goes through the day loop. */
  method PlaceSubject(b0: Board, sd: SubjectData, weights: seq<real>)
    returns (r: Result<Board, ScheduleError>)
    requires WellShaped(b0)
    requires weights == RemainingWeights(sd)
    ensures r == PlaceAll(b0, SubjectItems(sd))
  {
    var items := SubjectItems(sd);
    var b := b0;
    var k := 0;
    while k < ChapterCount(sd)
      invariant 0 <= k <= ChapterCount(sd)
      invariant WellShaped(b) && |b.left| == |b0.left|
      invariant PlaceAll(b0, items[..k]) == Success(b)
    {
      var chapter := sd.completed + k;
      var relative := chapter - sd.completed;
      var hours := if relative < |weights| then weights[relative] else 1.0;
      var x := Item(sd.name, chapter + 1, hours);
      assert x == items[k];
      assert items[..k + 1][..k] == items[..k];
      var placed := PlaceItem(b.left, b.days, x);
      if placed.Failure? {
        return placed;
      }
      b := placed.value;
      k := k + 1;
    }
    assert items[..k] == items;
    r := Success(b);
  }

  /** Placing `xs + ys` is placing `xs`, then `ys` on the board it leaves. */
  lemma {:induction false} PlaceAllConcat(b: Board, xs: seq<Item>, ys: seq<Item>)
    requires WellShaped(b)
    ensures PlaceAll(b, xs + ys) ==
      match PlaceAll(b, xs)
      case Failure(e) => Failure(e)
      case Success(b1) => PlaceAll(b1, ys)
  {
    if ys == [] {
      assert xs + ys == xs;
    } else {
      PlaceAllConcat(b, xs, ys[..|ys| - 1]);
      assert (xs + ys)[..|xs + ys| - 1] == xs + ys[..|ys| - 1];
    }
  }

  /** A subject with a remaining chapter leaves something to place. */
  lemma {:induction false} PendingNonEmpty(data: seq<SubjectData>, k: nat)
    requires k < |data| && ChapterCount(data[k]) > 0
    ensures Pending(data) != []
  {
    var x := SubjectItems(data[k])[0];
    assert IsChapterItem(data[k], data[k].completed, x);
    PendingHas(data, k, data[k].completed, x);
  }

  /** `generate_daily_schedule`: the per-subject remaining weights, the
      window, then each remaining chapter of each subject in turn. */
  method GenerateDailySchedule(data: seq<SubjectData>, dailyHours: real)
    returns (r: Result<seq<seq<Item>>, ScheduleError>)
    ensures r == ScheduleDays(data, dailyHours)
  {
    var weights := RemainingWeightsOf(data);
    if data == [] {
      return Failure(NoSubjects);
    }
    var n := WindowSize(data);
    var start := StartBoard(n, dailyHours);
    var b := start;
    var i := 0;
    while i < |data|
      invariant 0 <= i <= |data|
      invariant WellShaped(b) && |b.left| == n
      invariant PlaceAll(start, Pending(data[..i])) == Success(b)
    {
      var placed := PlaceNext(start, data, i, b, weights[i]);
      if placed.Failure? {
        PendingNonEmpty(data, i);
        assert Schedule(data, dailyHours) == Failure(NoDayForOverflow);
        return Failure(placed.error);
      }
      b := placed.value;
      i := i + 1;
    }
    assert data[..i] == data;
    r := Success(b.days);
  }

  /** One pass of the subject loop: the chapters of subject `i` go onto
      the board the earlier subjects left; placing can only fail for want
      of any day, and then only when the subject has a chapter left. */
  method PlaceNext(start: Board, data: seq<SubjectData>, i: nat, b: Board, weights: seq<real>)
    returns (placed: Result<Board, ScheduleError>)
    requires i < |data| && WellShaped(start) && WellShaped(b)
    requires PlaceAll(start, Pending(data[..i])) == Success(b)
    requires weights == RemainingWeights(data[i])
    ensures placed == PlaceAll(start, Pending(data[..i + 1]))
    ensures placed.Failure? ==> placed.error == NoDayForOverflow && |b.left| == 0 && ChapterCount(data[i]) > 0
  {
    var prefix := data[..i + 1];
    assert prefix[..i] == data[..i] && prefix[i] == data[i];
    var earlier, items := Pending(data[..i]), SubjectItems(data[i]);
    assert Pending(prefix) == earlier + items;
    PlaceAllConcat(start, earlier, items);
    assert PlaceAll(start, earlier + items) == PlaceAll(b, items);
    placed := PlaceSubject(b, data[i], weights);
  }
}
