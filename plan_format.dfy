/** The records the planning client and the plan generator exchange. Dates
    held by the generator are whole-day offsets from "today". */
module PlanFormat {

  /** One syllabus row of a plan request: a subject name and its chapter count. */
  datatype SyllabusEntry = SyllabusEntry(name: string, chapters: int)

  /** One study item of the daily schedule: which chapter of which subject,
      and how many hours it is expected to take (its difficulty weight). */
  datatype Item = Item(subject: string, chapter: int, hours: real)

  /** One row of the ranked task list. */
  datatype Task = Task(
    subject: string,
    totalChapters: int,
    doneChapters: int,
    remainingChapters: int,
    deadline: int,
    daysLeft: int,
    priority: real)

  /** The total hours of a day's items, summed left to right. */
  function HoursOf(items: seq<Item>): real {
    if items == [] then 0.0 else HoursOf(items[..|items| - 1]) + items[|items| - 1].hours
  }

  /** Appending an item adds its hours. */
  lemma {:induction false} HoursOfAppend(items: seq<Item>, x: Item)
    ensures HoursOf(items + [x]) == HoursOf(items) + x.hours
  {
    assert (items + [x])[..|items|] == items;
  }
}
