/**
 * A task: fixed id, title, description, due date and creation day, and a
 * priority and a done flag that can change afterwards.
 */
module Tasks {
  import opened Wrappers
  import opened JavaText
  import opened Temporal
  import opened Priorities

  class Task {
    // Fields without a setter cannot change after construction.
    const id: Long
    const title: string
    const description: string
    const dueDate: Option<LocalDate>
    const createdAt: LocalDate
    var priority: Priority
    var done: bool

    /** The five-argument constructor: a new task starts not done and is
        stamped with the day it is created (`today`, read from the clock in Java). */
    constructor (id: Long, title: string, description: string, dueDate: Option<LocalDate>,
                 priority: Priority, today: LocalDate)
      ensures this.id == id && this.title == title && this.description == description
      ensures this.dueDate == dueDate && this.priority == priority
      ensures !done && createdAt == today
    {
      this.id := id;
      this.title := title;
      this.description := description;
      this.dueDate := dueDate;
      this.priority := priority;
      done := false;
      createdAt := today;
    }

    /** The six-argument constructor: the done flag is given. */
    constructor WithDone(id: Long, title: string, description: string, dueDate: Option<LocalDate>,
                         priority: Priority, done: bool, today: LocalDate)
      ensures this.id == id && this.title == title && this.description == description
      ensures this.dueDate == dueDate && this.priority == priority
      ensures this.done == done && createdAt == today
    {
      this.id := id;
      this.title := title;
      this.description := description;
      this.dueDate := dueDate;
      this.priority := priority;
      this.done := done;
      createdAt := today;
    }

    /** toggleDone(): negates the flag and nothing else. */
    method ToggleDone()
      modifies this
      ensures done == !old(done) && priority == old(priority)
    {
      done := !done;
    }

    /** setDone(b). */
    method SetDone(b: bool)
      modifies this
      ensures done == b && priority == old(priority)
    {
      done := b;
    }

    /** setPriority(p): replaces the priority and nothing else. */
    method SetPriority(p: Priority)
      modifies this
      ensures priority == p && done == old(done)
    {
      priority := p;
    }

    /** getExportData(): id, title, description, due date (the text "null"
        when there is none), priority name and done flag. Every field but
        the free texts can be read back. */
    function ExportData(): (data: seq<string>)
      reads this
      ensures |data| == 6
      ensures data[0] == FormatLong(id) && ParseLong(data[0]) == Some(id)
      ensures data[1] == title && data[2] == description
      ensures data[3] == "null" <==> dueDate.None?
      ensures dueDate.Some? ==> ParseDate(data[3]) == dueDate
      ensures Priorities.ValueOf(data[4]) == Some(priority)
      ensures data[5] == (if done then "true" else "false") && ParseBoolean(data[5]) == done
    {
      ParseFormatLong(id);
      ParseFormatBoolean(done);
      ValueOfName(priority);
      var dueText := match dueDate
        case None => "null"
        case Some(d) => (ParseFormatDate(d); FormatDate(d));
      [FormatLong(id), title, description, dueText, priority.Name(), FormatBoolean(done)]
    }
  }

  /** Toggling twice restores the done flag. */
  method ToggleTwice(t: Task)
    modifies t
    ensures t.done == old(t.done) && t.priority == old(t.priority)
  {
    t.ToggleDone();
    t.ToggleDone();
  }

  /** The task of the export test: id 1, due on 1 August 2025, priority
      HIGH and not done, exported as the six texts the test expects. */
  lemma ExportSample(t: Task)
    requires t.id == 1 && t.title == "Testaufgabe" && t.description == "Beschreibung"
    requires t.dueDate == Some(Date(2025, 8, 1)) && t.priority == High && !t.done
    ensures t.ExportData() == ["1", "Testaufgabe", "Beschreibung", "2025-08-01", "HIGH", "false"]
  {
    assert FormatLong(1) == "1";
    assert FourDigits(2025) == "2025" && TwoDigits(8) == "08" && TwoDigits(1) == "01";
    assert FormatDate(Date(2025, 8, 1)) == "2025-08-01";
  }
}
