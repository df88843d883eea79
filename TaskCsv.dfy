/**
 * The CSV file of tasks: saving writes a header line and one ';'-joined line per
 * task; loading skips the first line, skips every line that does not split
 * into nine fields, and decodes the others field by field. A file is a
 * sequence of lines.
 *
 * The nine columns, in the positions the loader reads them: id, creation
 * time, category name, title, description, due date or "", reminder time
 * or "", priority name, done flag.
 */
module TaskCsv {
  import opened Wrappers
  import opened JavaText
  import opened Temporal
  import opened Priorities
  import opened Categories
  import opened Outcomes
  import opened Sequences

  /** One task as the CSV file stores it. */
  datatype TaskRecord = TaskRecord(
    id: Long,
    createdAt: LocalDateTime,
    category: Category,
    title: string,
    description: string,
    dueDate: Option<LocalDate>,
    reminderDate: Option<LocalDateTime>,
    priority: Priority,
    done: bool)

  /** The exception that ends a load: Long.parseLong, LocalDate(Time).parse or Enum.valueOf failed. */
  datatype LoadError = NumberFormat | DateTimeParse | IllegalArgument

  /** The number of columns of Task.CSV_HEADER, against which the loader checks every line.
      The header's column names themselves are a parameter of saving. */
  const ColumnCount: nat := 9

  /** The header line: the column names joined by ';'. */
  function HeaderLine(columns: seq<string>): string {
    Join(columns, ';')
  }

  // --------------------------------------------------------------- save

  /** The id column: String.valueOf of the id. */
  function IdField(id: Long): (s: string)
    ensures ';' !in s
  {
    var s := FormatLong(id);
    assert forall i :: 0 <= i < |s| ==> s[i] != ';';
    s
  }

  /** The creation-time column: LocalDateTime.toString. */
  function CreatedField(t: LocalDateTime): (s: string)
    ensures ';' !in s
  {
    FormattedHasNoSeparator(t.date, t);
    FormatDateTime(t)
  }

  /** The due-date column: empty for no date. */
  function DueField(d: Option<LocalDate>): (s: string)
    ensures ';' !in s
  {
    if d.None? then ""
    else
      FormattedHasNoSeparator(d.value, DateTime(d.value, 0, 0, 0));
      FormatDate(d.value)
  }

  /** The reminder column: empty for no reminder. */
  function ReminderField(t: Option<LocalDateTime>): (s: string)
    ensures ';' !in s
  {
    if t.None? then ""
    else
      FormattedHasNoSeparator(t.value.date, t.value);
      FormatDateTime(t.value)
  }

  /** The loader reads every generated column back to the value it was written from. */
  lemma FieldsReadBack(id: Long, createdAt: LocalDateTime, dueDate: Option<LocalDate>, reminder: Option<LocalDateTime>)
    ensures ParseLong(IdField(id)) == Some(id)
    ensures ParseDateTime(CreatedField(createdAt)) == Some(createdAt)
    ensures DecodeDate(DueField(dueDate)) == Success(dueDate)
    ensures DecodeDateTime(ReminderField(reminder)) == Success(reminder)
  {
    ParseFormatLong(id);
    ParseFormatDateTime(createdAt);
    if dueDate.Some? {
      ParseFormatDate(dueDate.value);
      FormattedHasNoSeparator(dueDate.value, createdAt);
    }
    if reminder.Some? {
      ParseFormatDateTime(reminder.value);
      FormattedHasNoSeparator(reminder.value.date, reminder.value);
    }
  }

  /** The nine fields of a record, in column order. */
  function Fields(r: TaskRecord): (f: seq<string>)
    ensures |f| == ColumnCount
  {
    [IdField(r.id),
     CreatedField(r.createdAt),
     r.category.Name(),
     r.title,
     r.description,
     DueField(r.dueDate),
     ReminderField(r.reminderDate),
     r.priority.Name(),
     FormatBoolean(r.done)]
  }

  /** The line of one record. */
  function EncodeRecord(r: TaskRecord): string {
    Join(Fields(r), ';')
  }

  /** The data lines of a save, one per record in list order. */
  function EncodeAll(tasks: seq<TaskRecord>): (lines: seq<string>)
    ensures |lines| == |tasks|
  {
    seq(|tasks|, i requires 0 <= i < |tasks| => EncodeRecord(tasks[i]))
  }

  /** The lines saveTasksAsCSV writes: the header, then one line per record. */
  function SaveLines(columns: seq<string>, tasks: seq<TaskRecord>): seq<string> {
    [HeaderLine(columns)] + EncodeAll(tasks)
  }

  /** saveTasksAsCSV: writes the header, then the line of each task. */
  method SaveTasksAsCsv(columns: seq<string>, tasks: seq<TaskRecord>) returns (lines: seq<string>)
    ensures lines == SaveLines(columns, tasks)
  {
    lines := [HeaderLine(columns)];
    for i := 0 to |tasks|
      invariant lines == [HeaderLine(columns)] + EncodeAll(tasks)[..i]
    {
      PrefixSnoc([HeaderLine(columns)], EncodeAll(tasks), i);
      lines := lines + [EncodeRecord(tasks[i])];
    }
    assert EncodeAll(tasks)[..|tasks|] == EncodeAll(tasks);
  }

  /** A save is the header line followed by the line of each task, in list order. */
  lemma SaveLinesShape(columns: seq<string>, tasks: seq<TaskRecord>)
    ensures |SaveLines(columns, tasks)| == |tasks| + 1
    ensures SaveLines(columns, tasks)[0] == HeaderLine(columns)
    ensures forall i :: 0 <= i < |tasks| ==> SaveLines(columns, tasks)[i + 1] == EncodeRecord(tasks[i])
  {
  }

  // --------------------------------------------------------------- load

  /** An empty field is an absent date; any other must parse. */
  function DecodeDate(f: string): (r: Result<Option<LocalDate>, LoadError>)
    ensures f == "" ==> r == Success(None)
    ensures f != "" ==> (r.Success? <==> ParseDate(f).Some?)
    ensures f != "" && r.Success? ==> r.value == ParseDate(f)
  {
    if f == "" then Success(None)
    else
      match ParseDate(f)
      case None => Failure(DateTimeParse)
      case Some(d) => Success(Some(d))
  }

  function DecodeDateTime(f: string): (r: Result<Option<LocalDateTime>, LoadError>)
    ensures f == "" ==> r == Success(None)
    ensures f != "" ==> (r.Success? <==> ParseDateTime(f).Some?)
    ensures f != "" && r.Success? ==> r.value == ParseDateTime(f)
  {
    if f == "" then Success(None)
    else
      match ParseDateTime(f)
      case None => Failure(DateTimeParse)
      case Some(t) => Success(Some(t))
  }

  /** The decoding of the nine fields of one line, in the order the loader
      evaluates them; the first field that does not decode raises. */
  function DecodeFields(f: seq<string>): (r: Result<TaskRecord, LoadError>)
    requires |f| == ColumnCount
  {
    match ParseLong(f[0])
    case None => Failure(NumberFormat)
    case Some(id) =>
      match ParseDateTime(f[1])
      case None => Failure(DateTimeParse)
      case Some(createdAt) =>
        match Categories.ValueOf(f[2])
        case None => Failure(IllegalArgument)
        case Some(category) =>
          match DecodeDate(f[5])
          case Failure(e) => Failure(e)
          case Success(dueDate) =>
            match DecodeDateTime(f[6])
            case Failure(e) => Failure(e)
            case Success(reminderDate) =>
              match Priorities.ValueOf(f[7])
              case None => Failure(IllegalArgument)
              case Some(priority) =>
                Success(TaskRecord(id, createdAt, category, f[3], f[4], dueDate,
                                   reminderDate, priority, ParseBoolean(f[8])))
  }

  /** What decoding one line's fields means: it fails exactly when a number,
      a date, a time or a constant name does not parse (the first number
      failure is a NumberFormatException), and a decoded record holds the
      parsed values, the texts as they are and Boolean.parseBoolean of the
      done flag. */
  lemma DecodeFieldsMeaning(f: seq<string>)
    requires |f| == ColumnCount
    ensures DecodeFields(f).Success? <==>
      && ParseLong(f[0]).Some? && ParseDateTime(f[1]).Some? && Categories.ValueOf(f[2]).Some?
      && DecodeDate(f[5]).Success? && DecodeDateTime(f[6]).Success?
      && Priorities.ValueOf(f[7]).Some?
    ensures ParseLong(f[0]).None? ==> DecodeFields(f) == Failure(NumberFormat)
    ensures DecodeFields(f).Success? ==>
      && Some(DecodeFields(f).value.id) == ParseLong(f[0])
      && Some(DecodeFields(f).value.createdAt) == ParseDateTime(f[1])
      && Some(DecodeFields(f).value.category) == Categories.ValueOf(f[2])
      && DecodeFields(f).value.title == f[3] && DecodeFields(f).value.description == f[4]
      && (DecodeFields(f).value.dueDate.None? <==> f[5] == "")
      && (DecodeFields(f).value.reminderDate.None? <==> f[6] == "")
      && Some(DecodeFields(f).value.priority) == Priorities.ValueOf(f[7])
      && DecodeFields(f).value.done == ParseBoolean(f[8])
  {
  }

  /** A line that the loader decodes rather than skips. */
  predicate IsComplete(line: string) {
    |Split(line, ';')| == ColumnCount
  }

  /** What one data line contributes: nothing when it does not have nine
      fields, else the decoding of its fields. */
  function DecodeLine(line: string): Option<Result<TaskRecord, LoadError>> {
    if IsComplete(line) then Some(DecodeFields(Split(line, ';'))) else None
  }

  function LineOutcomes(lines: seq<string>): (outs: seq<Option<Result<TaskRecord, LoadError>>>)
    ensures |outs| == |lines|
  {
    Map(DecodeLine, lines)
  }

  /** The records of the data lines, in order; the first complete line that
      does not decode ends the load with its error. */
  function DecodeLines(lines: seq<string>): Result<seq<TaskRecord>, LoadError> {
    Collect(LineOutcomes(lines))
  }

  /** loadTasksFromCSV: the first line is skipped unread. */
  function LoadLines(lines: seq<string>): Result<seq<TaskRecord>, LoadError> {
    if lines == [] then Success([]) else DecodeLines(lines[1..])
  }

  /** loadTasksFromCSV: reads line after line, appending each decoded task. */
  method LoadTasksFromCsv(lines: seq<string>) returns (r: Result<seq<TaskRecord>, LoadError>)
    ensures r == LoadLines(lines)
  {
    if lines == [] {
      return Success([]);
    }
    ghost var outs := LineOutcomes(lines[1..]);
    var taskList: seq<TaskRecord> := [];
    var k := 1;
    PrependNothing(Collect(outs));
    assert outs[0..] == outs;
    while k < |lines|
      invariant 1 <= k <= |lines|
      invariant LoadLines(lines) == Prepend(taskList, Collect(outs[k - 1..]))
    {
      CollectStep(taskList, outs[k - 1..]);
      assert outs[k - 1..][1..] == outs[k..];
      assert outs[k - 1] == DecodeLine(lines[k]) by {
        assert lines[1..][k - 1] == lines[k];
      }
      var data := Split(lines[k], ';');
      if |data| != ColumnCount {
        k := k + 1;
        continue;
      }
      var task := DecodeFields(data);
      if task.Failure? {
        return Failure(task.error);
      }
      taskList := taskList + [task.value];
      k := k + 1;
    }
    assert outs[k - 1..] == [];
    assert taskList + [] == taskList;
    return Success(taskList);
  }

  // -------------------------------------------------------- properties

  /** The header line is never looked at. */
  lemma LoadIgnoresHeader(h1: string, h2: string, data: seq<string>)
    ensures LoadLines([h1] + data) == LoadLines([h2] + data)
  {
    assert ([h1] + data)[1..] == data && ([h2] + data)[1..] == data;
  }

  /** The outcomes of a concatenation are the concatenated outcomes. */
  lemma OutcomesAppend(a: seq<string>, b: seq<string>)
    ensures LineOutcomes(a + b) == LineOutcomes(a) + LineOutcomes(b)
  {
    MapAppend(DecodeLine, a, b);
  }

  /** A line that does not split into nine fields is skipped wherever it is. */
  lemma IncompleteLineSkipped(before: seq<string>, line: string, after: seq<string>)
    requires !IsComplete(line)
    ensures DecodeLines(before + [line] + after) == DecodeLines(before + after)
  {
    OutcomesAppend(before + [line], after);
    OutcomesAppend(before, [line]);
    OutcomesAppend(before, after);
    assert LineOutcomes([line]) == [None];
    CollectSkips(LineOutcomes(before), LineOutcomes(after));
  }

  /** The load fails exactly when some complete data line does not decode, and
      then with the error of the first such line. */
  lemma DecodeFailsIff(lines: seq<string>)
    ensures DecodeLines(lines).Failure? <==>
      exists i :: 0 <= i < |lines| && IsComplete(lines[i]) && DecodeFields(Split(lines[i], ';')).Failure?
    ensures DecodeLines(lines).Failure? ==>
      exists i :: 0 <= i < |lines| && IsComplete(lines[i])
        && DecodeFields(Split(lines[i], ';')) == Failure(DecodeLines(lines).error)
        && forall j :: 0 <= j < i ==> !IsComplete(lines[j]) || DecodeFields(Split(lines[j], ';')).Success?
  {
    var outs := LineOutcomes(lines);
    CollectFailsIff(outs);
    assert forall i :: 0 <= i < |lines| ==> outs[i] == DecodeLine(lines[i]);
  }

  /** The number of complete lines. */
  function CompleteCount(lines: seq<string>): nat {
    Kept(LineOutcomes(lines))
  }

  /** A successful load holds one record per complete data line, in line
      order: the complete line at index i gives the record at the number of
      complete lines before it. */
  lemma DecodeKeepsOrder(lines: seq<string>)
    requires DecodeLines(lines).Success?
    ensures |DecodeLines(lines).value| == CompleteCount(lines)
    ensures forall i :: 0 <= i < |lines| && IsComplete(lines[i]) ==>
      CompleteCount(lines[..i]) < CompleteCount(lines) &&
      DecodeFields(Split(lines[i], ';')) == Success(DecodeLines(lines).value[CompleteCount(lines[..i])])
  {
    var outs := LineOutcomes(lines);
    CollectKeepsOrder(outs);
    forall i | 0 <= i < |lines| ensures LineOutcomes(lines[..i]) == outs[..i] {
      MapPrefix(DecodeLine, lines, i);
    }
    assert forall i :: 0 <= i < |lines| ==> outs[i] == DecodeLine(lines[i]);
  }

  /** No field of a record holds the separator, and the last one is not empty. */
  lemma FieldsSeparable(r: TaskRecord)
    requires ';' !in r.title && ';' !in r.description
    ensures forall i :: 0 <= i < |Fields(r)| ==> ';' !in Fields(r)[i]
    ensures Fields(r)[8] != ""
  {
    assert ';' !in r.category.Name() && ';' !in r.priority.Name();
  }

  /** Each field parses to the corresponding part of the record. */
  predicate ParsedAs(f: seq<string>, r: TaskRecord)
    requires |f| == ColumnCount
  {
    && ParseLong(f[0]) == Some(r.id) && ParseDateTime(f[1]) == Some(r.createdAt)
    && Categories.ValueOf(f[2]) == Some(r.category)
    && f[3] == r.title && f[4] == r.description
    && DecodeDate(f[5]) == Success(r.dueDate) && DecodeDateTime(f[6]) == Success(r.reminderDate)
    && Priorities.ValueOf(f[7]) == Some(r.priority) && ParseBoolean(f[8]) == r.done
  }

  /** The fields of a record parse back to it. */
  lemma FieldsParseBack(r: TaskRecord)
    ensures ParsedAs(Fields(r), r)
  {
    NamesParseBack(r);
    FieldsReadBack(r.id, r.createdAt, r.dueDate, r.reminderDate);
  }

  lemma NamesParseBack(r: TaskRecord)
    ensures Categories.ValueOf(Fields(r)[2]) == Some(r.category)
    ensures Priorities.ValueOf(Fields(r)[7]) == Some(r.priority)
    ensures ParseBoolean(Fields(r)[8]) == r.done
  {
    Categories.ValueOfName(r.category);
    Priorities.ValueOfName(r.priority);
    ParseFormatBoolean(r.done);
  }

  /** Fields that each parse to the corresponding part of a record decode to that record. */
  lemma DecodeParsedFields(f: seq<string>, r: TaskRecord)
    requires |f| == ColumnCount && ParsedAs(f, r)
    ensures DecodeFields(f) == Success(r)
  {
  }

  /** A record whose free texts hold no ';' survives the trip through one line. */
  lemma DecodeEncode(r: TaskRecord)
    requires ';' !in r.title && ';' !in r.description
    ensures IsComplete(EncodeRecord(r))
    ensures DecodeFields(Split(EncodeRecord(r), ';')) == Success(r)
  {
    FieldsSeparable(r);
    SplitJoin(Fields(r), ';');
    FieldsParseBack(r);
    DecodeParsedFields(Fields(r), r);
  }

  /** Loading what was saved gives the tasks back, in order, when no title or
      description holds the separator. */
  lemma LoadSaveRoundTrip(columns: seq<string>, tasks: seq<TaskRecord>)
    requires forall i :: 0 <= i < |tasks| ==> ';' !in tasks[i].title && ';' !in tasks[i].description
    ensures LoadLines(SaveLines(columns, tasks)) == Success(tasks)
  {
    var data := SaveLines(columns, tasks)[1..];
    SaveLinesShape(columns, tasks);
    var outs := LineOutcomes(data);
    forall i | 0 <= i < |tasks| ensures outs[i] == Some(Success(tasks[i])) {
      assert data[i] == EncodeRecord(tasks[i]);
      DecodeEncode(tasks[i]);
    }
    CollectAllSucceed(outs, tasks);
  }

  /** The test's scenario: two saved tasks load back as two tasks with the
      same titles and done flags. */
  lemma SaveLoadKeepsTitlesAndDone(columns: seq<string>, t1: TaskRecord, t2: TaskRecord)
    requires t1.title == "Test 1" && t2.title == "Test 2" && !t1.done && t2.done
    requires ';' !in t1.description && ';' !in t2.description
    ensures LoadLines(SaveLines(columns, [t1, t2])).Success?
    ensures |LoadLines(SaveLines(columns, [t1, t2])).value| == 2
    ensures LoadLines(SaveLines(columns, [t1, t2])).value[0].title == "Test 1"
    ensures !LoadLines(SaveLines(columns, [t1, t2])).value[0].done
    ensures LoadLines(SaveLines(columns, [t1, t2])).value[1].title == "Test 2"
    ensures LoadLines(SaveLines(columns, [t1, t2])).value[1].done
  {
    LoadSaveRoundTrip(columns, [t1, t2]);
  }
}
