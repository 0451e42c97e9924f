/** The planner page as an object: the state hooks become fields that the
    handlers replace, the browser's storage slot is a field rewritten after
    every committed change, and notifications are collected in a list. */
module PlannerApp {
  import opened Wrappers
  import opened PlanFormat
  import opened PlannerState
  import opened PlanClient

  /** What the plan service answered: a plan, a response that was not ok,
      or a failure before any response (with its message). */
  datatype Reply = Delivered(plan: Plan) | NotOk | TransportError(message: string)

  const NoSubjectsError: string := "Please add at least one subject."
  const FetchErrorPrefix: string := "Failed to fetch plan: "
  const NotOkMessage: string := "Network response was not ok"

  class Planner {
    var subjects: seq<Subject>
    var progress: map<string, int>
    var deadlines: map<string, string>
    var difficulties: map<string, seq<real>>
    var dailyHours: real
    var plan: Option<Plan>
    var error: Option<string>
    var accessToken: Option<string>
    /** The "study-planner-data" storage entry. */
    var storage: Option<Stored>
    /** The notifications shown so far, oldest first. */
    var notices: seq<Notice>
    /** Whether notification permission is "granted". */
    const granted: bool

    /** The five persisted fields as one record. */
    function State(): PlanningState
      reads this
    {
      PlanningState(subjects, progress, deadlines, difficulties, dailyHours)
    }

    /** The save effect has run on the current state: storage always holds
        exactly the five persisted fields. */
    predicate Valid()
      reads this
    {
      storage == Some(Save(State()))
    }

    /** Mounting the page: the load effect restores the state from the
        storage slot (or the defaults) and the save effect then writes it back. */
    constructor (slot: Option<Stored>, permission: bool)
      ensures Valid()
      ensures State() == Restore(slot)
      ensures plan == None && error == None && accessToken == None
      ensures notices == [] && granted == permission
    {
      var st := Restore(slot);
      subjects := st.subjects;
      progress := st.progress;
      deadlines := st.deadlines;
      difficulties := st.difficulties;
      dailyHours := st.dailyHours;
      plan := None;
      error := None;
      accessToken := None;
      storage := Some(Save(st));
      notices := [];
      granted := permission;
    }

    /** Replaces the persisted fields by `st` and runs the save effect. */
    method Commit(st: PlanningState)
      modifies this
      ensures State() == st && Valid()
      ensures plan == old(plan) && error == old(error) && accessToken == old(accessToken)
      ensures notices == old(notices)
    {
      subjects := st.subjects;
      progress := st.progress;
      deadlines := st.deadlines;
      difficulties := st.difficulties;
      dailyHours := st.dailyHours;
      storage := Some(Save(st));
    }

    /** `updateSubject`: edits one field of the row at `index` in place;
        the other rows and the length stay as they were. */
    method UpdateSubject(index: nat, edit: SubjectEdit)
      requires Valid() && index < |subjects|
      modifies this
      ensures Valid()
      ensures |subjects| == |old(subjects)|
      ensures subjects[index] == Edited(old(subjects)[index], edit)
      ensures forall j :: 0 <= j < |subjects| && j != index ==> subjects[j] == old(subjects)[j]
      ensures State().(subjects := old(subjects)) == old(State())
      ensures plan == old(plan) && error == old(error) && accessToken == old(accessToken)
      ensures notices == old(notices)
    {
      var rows := subjects;
      rows := rows[index := Edited(rows[index], edit)];
      Commit(State().(subjects := rows));
    }

    /** `addSubject`: appends one blank row. */
    method AddSubject()
      requires Valid()
      modifies this
      ensures Valid()
      ensures subjects == old(subjects) + [EmptySubject]
      ensures |subjects| == |old(subjects)| + 1
      ensures State().(subjects := old(subjects)) == old(State())
      ensures plan == old(plan) && error == old(error) && accessToken == old(accessToken)
      ensures notices == old(notices)
    {
      Commit(State().(subjects := subjects + [EmptySubject]));
    }

    /** `updateProgress`: sets the completed count of one subject. */
    method UpdateProgress(subject: string, value: int)
      requires Valid()
      modifies this
      ensures Valid()
      ensures State() == PlannerState.UpdateProgress(old(State()), subject, value)
      ensures plan == old(plan) && error == old(error) && accessToken == old(accessToken)
      ensures notices == old(notices)
    {
      Commit(PlannerState.UpdateProgress(State(), subject, value));
    }

    /** `updateDeadline`: sets the deadline of one subject. */
    method UpdateDeadline(subject: string, date: string)
      requires Valid()
      modifies this
      ensures Valid()
      ensures State() == PlannerState.UpdateDeadline(old(State()), subject, date)
      ensures plan == old(plan) && error == old(error) && accessToken == old(accessToken)
      ensures notices == old(notices)
    {
      Commit(PlannerState.UpdateDeadline(State(), subject, date));
    }

    /** `updateDifficulties`: parses the comma-separated weights of one subject. */
    method UpdateDifficulties(subject: string, text: string, parse: string -> Option<real>)
      requires Valid()
      modifies this
      ensures Valid()
      ensures State() == PlannerState.UpdateDifficulties(old(State()), subject, text, parse)
      ensures plan == old(plan) && error == old(error) && accessToken == old(accessToken)
      ensures notices == old(notices)
    {
      Commit(PlannerState.UpdateDifficulties(State(), subject, text, parse));
    }

    /** The daily-hours input: `setDailyHours(Number(value))`. */
    method SetDailyHours(hours: real)
      requires Valid()
      modifies this
      ensures Valid()
      ensures State() == old(State()).(dailyHours := hours)
      ensures plan == old(plan) && error == old(error) && accessToken == old(accessToken)
      ensures notices == old(notices)
    {
      Commit(State().(dailyHours := hours));
    }

    /** A successful sign-in stores the access token; nothing is persisted. */
    method SignIn(token: string)
      requires Valid()
      modifies this`accessToken
      ensures Valid()
      ensures accessToken == Some(token)
    {
      accessToken := Some(token);
    }

    /** `markChapterDone`: the terminal or increment transition, then a
        "chapter completed" notification when permission is granted. The
        delayed refresh is a later, separate call of `GetPlan`. */
    method MarkChapterDone(subject: string)
      requires Valid()
      modifies this
      ensures Valid()
      ensures State() == PlannerState.MarkChapterDone(old(State()), subject)
      ensures notices == old(notices) + (if granted then [ChapterCompleted(subject)] else [])
      ensures plan == old(plan) && error == old(error) && accessToken == old(accessToken)
    {
      Commit(PlannerState.MarkChapterDone(State(), subject));
      if granted {
        notices := notices + [ChapterCompleted(subject)];
      }
    }

    /** `clearAll`: back to the defaults and no plan. The removed storage
        entry is written again at once by the save effect, now holding the
        defaults; the error message is left as it was. */
    method ClearAll()
      requires Valid()
      modifies this
      ensures Valid()
      ensures State() == Default && storage == Some(Save(Default))
      ensures plan == None
      ensures error == old(error) && accessToken == old(accessToken) && notices == old(notices)
    {
      Commit(Default);
      plan := None;
    }

    /** `getPlan`: clears the error, builds the syllabus, stops with an error
        when it is empty, and otherwise returns the request it sends; the
        service's `reply` then either replaces the plan (and raises the
        overload notifications) or sets the fetch error. */
    method GetPlan(reply: Reply) returns (request: Option<PlanRequest>)
      requires Valid()
      modifies this`plan, this`error, this`notices
      ensures Valid()
      ensures var syl := Syllabus(subjects);
        if syl == [] then
          && request == None && error == Some(NoSubjectsError)
          && plan == old(plan) && notices == old(notices)
        else
          && request == Some(PlanRequest(syl, progress, deadlines, difficulties, dailyHours))
          && match reply
             case Delivered(p) =>
               && plan == Some(p) && error == None
               && notices == old(notices) + OverloadNotices(p.schedule, dailyHours, granted)
             case NotOk =>
               plan == old(plan) && notices == old(notices) && error == Some(FetchErrorPrefix + NotOkMessage)
             case TransportError(m) =>
               plan == old(plan) && notices == old(notices) && error == Some(FetchErrorPrefix + m)
    {
      error := None;
      var syl := BuildSyllabus(subjects);
      if syl == [] {
        error := Some(NoSubjectsError);
        request := None;
        return;
      }
      request := Some(PlanRequest(syl, progress, deadlines, difficulties, dailyHours));
      match reply {
        case Delivered(p) =>
          plan := Some(p);
          var raised := NotifyOverloads(p.schedule, dailyHours, granted);
          notices := notices + raised;
        case NotOk =>
          error := Some(FetchErrorPrefix + NotOkMessage);
        case TransportError(m) =>
          error := Some(FetchErrorPrefix + m);
      }
    }

    /** `exportToCalendar`: without a plan or a (non-empty) token only the
        sign-in alert; otherwise every scheduled item is submitted, the
        rejected positions are collected, and the completion alert follows. */
    method ExportToCalendar(accepted: nat -> bool)
      returns (submitted: seq<CalendarEvent>, failed: seq<nat>, alert: string)
      requires Valid()
      ensures plan.None? || accessToken.None? || accessToken == Some("") ==>
        submitted == [] && failed == [] && alert == SignInAlert
      ensures plan.Some? && accessToken.Some? && accessToken != Some("") ==>
        && submitted == Events(plan.value.schedule)
        && failed == Rejected(accepted, |submitted|)
        && alert == ExportedAlert
    {
      if plan.None? || accessToken.None? || accessToken.value == "" {
        return [], [], SignInAlert;
      }
      submitted, failed := ExportEvents(plan.value.schedule, accepted);
      alert := ExportedAlert;
    }
  }
}
