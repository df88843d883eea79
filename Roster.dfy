/**
 * The duty-roster import. The first sheet of a workbook is given as the rows
 * its row iterator yields, each row as its cells by column (absent cells
 * included, up to the row's last cell). The first row names the time slots
 * in columns 1 onwards; each later row whose column 0 holds a date becomes
 * one day schedule, which maps each slot to the names written in that
 * slot's cell, separated by "/".
 */
module Rosters {
  import opened Wrappers
  import opened JavaText
  import opened Temporal
  import opened Outcomes
  import opened Sequences

  // ------------------------------------------------------------- the sheet

  /** A cell as the reader sees it. A numeric cell carries the date its
      value converts to in the system time zone; None when the conversion
      throws. A formula cell carries its cached result when that result is
      text. Other stands for the boolean and error cell types. */
  datatype Cell = Text(s: string) | Numeric(date: Option<LocalDate>) | Blank
                | Formula(result: Option<string>) | Other

  /** A row: index = column, None = no cell there. Its length is getLastCellNum(). */
  type Row = seq<Option<Cell>>

  /** The IllegalStateException of getStringCellValue on a header cell that holds no text. */
  datatype RosterError = NotText

  /** Row.getCell: also None beyond the last cell. */
  function CellAt(row: Row, col: nat): Option<Cell> {
    if col < |row| then row[col] else None
  }

  // ------------------------------------------------ one day's assignments

  /** One key of the day's LinkedHashMap with its list of names. */
  datatype Entry = Entry(slot: string, names: seq<string>)

  /** The map's keys in insertion order. */
  function Keys(a: seq<Entry>): (ks: seq<string>)
    ensures |ks| == |a|
    ensures forall i :: 0 <= i < |a| ==> ks[i] == a[i].slot
  {
    seq(|a|, i requires 0 <= i < |a| => a[i].slot)
  }

  /** What every map built by addAssignment satisfies: no key twice, and no empty list. */
  predicate WellFormed(a: seq<Entry>) {
    && (forall i, j :: 0 <= i < j < |a| ==> a[i].slot != a[j].slot)
    && (forall i :: 0 <= i < |a| ==> a[i].names != [])
  }

  /** The position of a key: the first entry with that slot, None if there is none. */
  function Find(a: seq<Entry>, slot: string): (r: Option<nat>)
    ensures r.Some? ==> r.value < |a| && a[r.value].slot == slot
    ensures r.Some? ==> forall j :: 0 <= j < r.value ==> a[j].slot != slot
    ensures r.None? ==> forall j :: 0 <= j < |a| ==> a[j].slot != slot
  {
    if a == [] then None
    else if a[0].slot == slot then Some(0)
    else match Find(a[1..], slot)
      case None => None
      case Some(i) => Some(i + 1)
  }

  /** Map.get: the list stored under the slot; None (null) for an absent key. */
  function Get(a: seq<Entry>, slot: string): Option<seq<string>> {
    match Find(a, slot)
    case None => None
    case Some(i) => Some(a[i].names)
  }

  /** The names stored under the slot, [] for an absent key. */
  function NamesOf(a: seq<Entry>, slot: string): seq<string> {
    match Get(a, slot)
    case None => []
    case Some(ns) => ns
  }

  /** computeIfAbsent(slot, new list).add(name). */
  function Add(a: seq<Entry>, slot: string, name: string): seq<Entry> {
    match Find(a, slot)
    case None => a + [Entry(slot, [name])]
    case Some(i) => a[i := Entry(slot, a[i].names + [name])]
  }

  /** addAssignment appends the name to the slot's list, creating the list if
      the key is absent; every other key keeps its list; a new key goes last
      and the old keys keep their order. */
  lemma AddMeaning(a: seq<Entry>, slot: string, name: string)
    ensures Get(Add(a, slot, name), slot) == Some(NamesOf(a, slot) + [name])
    ensures forall t :: t != slot ==> Get(Add(a, slot, name), t) == Get(a, t)
    ensures Keys(Add(a, slot, name)) == if Get(a, slot).Some? then Keys(a) else Keys(a) + [slot]
  {
    var b := Add(a, slot, name);
    match Find(a, slot)
    case None =>
      assert b[|a|] == Entry(slot, [name]);
      assert Find(b, slot) == Some(|a|);
      assert NamesOf(a, slot) + [name] == [name];
      forall t | t != slot
        ensures Get(b, t) == Get(a, t)
      {
        match Find(a, t)
        case None =>
        case Some(k) => assert b[k] == a[k];
      }
      assert Keys(b) == Keys(a) + [slot];
    case Some(i) =>
      forall t | t != slot
        ensures Get(b, t) == Get(a, t)
      {
        match Find(a, t)
        case None =>
        case Some(k) => assert b[k] == a[k];
      }
      assert Keys(b) == Keys(a);
  }

  /** addAssignment keeps the map well formed. */
  lemma AddWellFormed(a: seq<Entry>, slot: string, name: string)
    requires WellFormed(a)
    ensures WellFormed(Add(a, slot, name))
  {
  }

  /** Adding several names to one slot, left to right. */
  function AddAll(a: seq<Entry>, slot: string, names: seq<string>): seq<Entry>
    decreases |names|
  {
    if names == [] then a
    else Add(AddAll(a, slot, names[..|names| - 1]), slot, names[|names| - 1])
  }

  /** Adding names appends them to the slot's list and leaves the other keys alone. */
  lemma {:induction false} AddAllMeaning(a: seq<Entry>, slot: string, names: seq<string>)
    ensures NamesOf(AddAll(a, slot, names), slot) == NamesOf(a, slot) + names
    ensures forall t :: t != slot ==> Get(AddAll(a, slot, names), t) == Get(a, t)
    ensures forall t :: t != slot ==> NamesOf(AddAll(a, slot, names), t) == NamesOf(a, t)
    decreases |names|
  {
    if names != [] {
      var init := names[..|names| - 1];
      AddAllMeaning(a, slot, init);
      AddMeaning(AddAll(a, slot, init), slot, names[|names| - 1]);
      InitLast(names);
    }
  }

  /** Adding names creates the slot's key, as the last one, only if it was
      absent and some name is added; the other keys keep their order. */
  lemma {:induction false} AddAllKeys(a: seq<Entry>, slot: string, names: seq<string>)
    ensures Get(AddAll(a, slot, names), slot).Some? <==> Get(a, slot).Some? || names != []
    ensures Keys(AddAll(a, slot, names)) ==
      if Get(a, slot).Some? || names == [] then Keys(a) else Keys(a) + [slot]
    decreases |names|
  {
    if names != [] {
      var init := names[..|names| - 1];
      AddAllKeys(a, slot, init);
      AddMeaning(AddAll(a, slot, init), slot, names[|names| - 1]);
    }
  }

  /** Adding several names keeps the map well formed. */
  lemma {:induction false} AddAllWellFormed(a: seq<Entry>, slot: string, names: seq<string>)
    requires WellFormed(a)
    ensures WellFormed(AddAll(a, slot, names))
    decreases |names|
  {
    if names != [] {
      AddAllWellFormed(a, slot, names[..|names| - 1]);
      AddWellFormed(AddAll(a, slot, names[..|names| - 1]), slot, names[|names| - 1]);
    }
  }

  /** The IllegalStateException path never arises for names: a non-text cell reads as "". */
  function NameText(c: Option<Cell>): string {
    match c
    case Some(Text(s)) => Trim(s)
    case _ => ""
  }

  /** The names one cell contributes: none for an empty text, otherwise the
      pieces between "/" separators (trailing empty pieces dropped, as
      String.split does), each trimmed, empty ones included. */
  function CellNames(c: Option<Cell>): seq<string> {
    var text := NameText(c);
    if text == "" then []
    else
      TrimAll(Split(text, '/'))
  }

  /** Every piece trimmed. */
  function TrimAll(pieces: seq<string>): (r: seq<string>)
    ensures |r| == |pieces|
  {
    seq(|pieces|, i requires 0 <= i < |pieces| => Trim(pieces[i]))
  }

  /** The names of every slot's cell in one row: slot i reads column i + 1. */
  function SlotNames(row: Row, slots: seq<string>): (names: seq<seq<string>>)
    ensures |names| == |slots|
  {
    seq(|slots|, i requires 0 <= i < |slots| => CellNames(CellAt(row, i + 1)))
  }

  /** A day's map after the names of the first k slots were added, slot by slot. */
  function Fill(slots: seq<string>, names: seq<seq<string>>, k: nat): seq<Entry>
    requires |names| == |slots| && k <= |slots|
  {
    if k == 0 then []
    else AddAll(Fill(slots, names, k - 1), slots[k - 1], names[k - 1])
  }

  /** The names the first k slots give to one slot label, in column order
      (a label that heads several columns collects all of them). */
  function NamesFor(slots: seq<string>, names: seq<seq<string>>, slot: string, k: nat): seq<string>
    requires |names| == |slots| && k <= |slots|
  {
    if k == 0 then []
    else NamesFor(slots, names, slot, k - 1) + (if slots[k - 1] == slot then names[k - 1] else [])
  }

  /** A day's map holds, under each slot label, exactly the names of the
      columns of that label in column order, and it holds the key exactly
      when there are such names (so a column without names leaves the key
      absent, not mapped to []); every key is a slot label. */
  lemma {:induction false} FillMeaning(slots: seq<string>, names: seq<seq<string>>, k: nat)
    requires |names| == |slots| && k <= |slots|
    ensures forall s :: NamesOf(Fill(slots, names, k), s) == NamesFor(slots, names, s, k)
    ensures forall s :: Get(Fill(slots, names, k), s).Some? <==> NamesFor(slots, names, s, k) != []
    ensures forall i :: 0 <= i < |Fill(slots, names, k)| ==> Fill(slots, names, k)[i].slot in slots
  {
    if k > 0 {
      var a := Fill(slots, names, k - 1);
      var slot := slots[k - 1];
      FillMeaning(slots, names, k - 1);
      AddAllMeaning(a, slot, names[k - 1]);
      AddAllKeys(a, slot, names[k - 1]);
      var b := Fill(slots, names, k);
      forall s
        ensures NamesOf(b, s) == NamesFor(slots, names, s, k)
        ensures Get(b, s).Some? <==> NamesFor(slots, names, s, k) != []
      {
        if s != slot {
          assert NamesFor(slots, names, s, k) == NamesFor(slots, names, s, k - 1) + [];
        }
      }
      forall i | 0 <= i < |b|
        ensures b[i].slot in slots
      {
        if i < |a| {
          assert b[i].slot == Keys(b)[i] == Keys(a)[i] == a[i].slot;
        } else {
          assert b[i].slot == Keys(b)[i] == slot;
        }
      }
    }
  }

  /** A day's map is well formed: no key twice and no empty list. */
  lemma {:induction false} FillWellFormed(slots: seq<string>, names: seq<seq<string>>, k: nat)
    requires |names| == |slots| && k <= |slots|
    ensures WellFormed(Fill(slots, names, k))
  {
    if k > 0 {
      FillWellFormed(slots, names, k - 1);
      AddAllWellFormed(Fill(slots, names, k - 1), slots[k - 1], names[k - 1]);
    }
  }

  /** The whole map of one data row. */
  function Assign(row: Row, slots: seq<string>): seq<Entry> {
    Fill(slots, SlotNames(row, slots), |slots|)
  }

  /** DaySchedule: a date and its slot-to-names map, in insertion order. */
  class DaySchedule {
    const date: LocalDate
    var assignments: seq<Entry>

    /** new DaySchedule(date): no assignments yet. */
    constructor (date: LocalDate)
      ensures this.date == date && assignments == []
    {
      this.date := date;
      assignments := [];
    }

    /** addAssignment(slot, name); what Add means is AddMeaning. */
    method AddAssignment(slot: string, name: string)
      modifies this
      ensures assignments == Add(old(assignments), slot, name)
    {
      assignments := Add(assignments, slot, name);
    }
  }

  // ----------------------------------------------------- the whole sheet

  /** A header cell's part in the slot list: none for an absent cell, the
      trimmed text of a string cell or of a formula's cached text, "" for a
      blank one, and the exception of getStringCellValue for any other. */
  function SlotOutcome(c: Option<Cell>): Option<Result<string, RosterError>> {
    match c
    case None => None
    case Some(Text(s)) => Some(Success(Trim(s)))
    case Some(Formula(Some(s))) => Some(Success(Trim(s)))
    case Some(Blank) => Some(Success(""))
    case Some(_) => Some(Failure(NotText))
  }

  /** The outcomes of the header cells in columns 1 onwards. */
  function SlotOutcomes(header: Row): seq<Option<Result<string, RosterError>>> {
    if header == [] then []
    else seq(|header| - 1, i requires 0 <= i < |header| - 1 => SlotOutcome(header[i + 1]))
  }

  /** The time slots a header row names. */
  function TimeSlots(header: Row): Result<seq<string>, RosterError> {
    Collect(SlotOutcomes(header))
  }

  /** The number of cells present in the header row from column 1 up to, not including, column col. */
  function SlotsBefore(header: Row, col: nat): nat
    requires 1 <= col <= |header|
  {
    Kept(SlotOutcomes(header)[..col - 1])
  }

  /** The date a data row stands for; None when its column-0 cell is absent,
      not numeric, or does not convert to a date, and the row is skipped. */
  function RowDate(row: Row): Option<LocalDate> {
    match CellAt(row, 0)
    case Some(Numeric(Some(d))) => Some(d)
    case _ => None
  }

  /** A day schedule as a value. */
  datatype Day = Day(date: LocalDate, assignments: seq<Entry>)

  /** What a list of day schedule objects holds, as values. */
  ghost function Values(s: seq<DaySchedule>): (days: seq<Day>)
    reads s
    ensures |days| == |s|
    ensures forall i :: 0 <= i < |s| ==> days[i] == Day(s[i].date, s[i].assignments)
  {
    seq(|s|, i reads s requires 0 <= i < |s| => Day(s[i].date, s[i].assignments))
  }

  lemma ValuesAppend(s: seq<DaySchedule>, x: DaySchedule)
    ensures Values(s + [x]) == Values(s) + [Day(x.date, x.assignments)]
  {
  }

  /** The day a data row gives, None for a skipped row. */
  function DayOf(row: Row, slots: seq<string>): Option<Day> {
    match RowDate(row)
    case None => None
    case Some(d) => Some(Day(d, Assign(row, slots)))
  }

  function DayOutcomes(rows: seq<Row>, slots: seq<string>): (outs: seq<Option<Day>>)
    ensures |outs| == |rows|
  {
    seq(|rows|, i requires 0 <= i < |rows| => DayOf(rows[i], slots))
  }

  /** The day schedules of the data rows: one per kept row, in row order. */
  function Days(rows: seq<Row>, slots: seq<string>): seq<Day> {
    Somes(DayOutcomes(rows, slots))
  }

  /** readRoster over the sheet's rows. */
  function Roster(sheet: seq<Row>): Result<seq<Day>, RosterError> {
    if sheet == [] then Success([])
    else
      match TimeSlots(sheet[0])
      case Failure(e) => Failure(e)
      case Success(slots) => Success(Days(sheet[1..], slots))
  }

  /** The number of data rows that are kept. */
  function KeptRows(rows: seq<Row>): nat {
    if rows == [] then 0 else (if RowDate(rows[0]).Some? then 1 else 0) + KeptRows(rows[1..])
  }

  // ------------------------------------------------------------ the reader

  /** The header loop: columns 1 up to the last cell, absent cells skipped. */
  method ReadTimeSlots(header: Row) returns (r: Result<seq<string>, RosterError>)
    ensures r == TimeSlots(header)
  {
    ghost var outs := SlotOutcomes(header);
    var slots: seq<string> := [];
    PrependNothing(TimeSlots(header));
    if header == [] {
      assert outs == [];
      return Success([]);
    }
    assert outs[0..] == outs;
    var index := 1;
    while index < |header|
      invariant 1 <= index <= |header|
      invariant TimeSlots(header) == Prepend(slots, Collect(outs[index - 1..]))
    {
      CollectStep(slots, outs[index - 1..]);
      assert outs[index - 1..][0] == SlotOutcome(header[index]);
      assert outs[index - 1..][1..] == outs[index..];
      var cell := header[index];
      index := index + 1;
      if cell.Some? {
        match cell.value
        case Text(s) =>
          slots := slots + [Trim(s)];
        case Formula(Some(s)) =>
          slots := slots + [Trim(s)];
        case Blank =>
          slots := slots + [""];
        case _ =>
          assert TimeSlots(header) == Failure(NotText);
          return Failure(NotText);
      }
    }
    assert outs[index - 1..] == [];
    assert slots + [] == slots;
    r := Success(slots);
  }

  /** One data row: skipped (None) when its column-0 cell is absent, not
      numeric, or does not convert to a date; otherwise its day schedule. */
  method ReadRow(row: Row, slots: seq<string>) returns (read: Option<DaySchedule>)
    ensures read.None? <==> DayOf(row, slots).None?
    ensures read.Some? ==> fresh(read.value)
    ensures read.Some? ==> DayOf(row, slots) == Some(Day(read.value.date, read.value.assignments))
  {
    var dateCell := CellAt(row, 0);
    if dateCell.None? {
      return None;
    }
    if !dateCell.value.Numeric? {
      return None;
    }
    if dateCell.value.date.None? {
      return None;
    }
    var ds := ReadDay(row, slots, dateCell.value.date.value);
    read := Some(ds);
  }

  /** The loop over the slots of one kept row. */
  method ReadDay(row: Row, slots: seq<string>, date: LocalDate) returns (ds: DaySchedule)
    ensures fresh(ds) && ds.date == date && ds.assignments == Assign(row, slots)
  {
    ghost var cellNames := SlotNames(row, slots);
    ds := new DaySchedule(date);
    for index := 0 to |slots|
      invariant ds.date == date && ds.assignments == Fill(slots, cellNames, index)
    {
      AddCell(ds, slots[index], CellAt(row, index + 1));
      SlotNamesAt(row, slots, index);
    }
  }

  lemma SlotNamesAt(row: Row, slots: seq<string>, i: nat)
    requires i < |slots|
    ensures SlotNames(row, slots)[i] == CellNames(CellAt(row, i + 1))
  {
  }

  /** One name cell: only a string cell is read, and only when its trimmed
      text is not empty. */
  method AddCell(ds: DaySchedule, slot: string, nameCell: Option<Cell>)
    modifies ds
    ensures ds.assignments == AddAll(old(ds.assignments), slot, CellNames(nameCell))
  {
    if nameCell.Some? {
      var text := if nameCell.value.Text? then Trim(nameCell.value.s) else "";
      if text != "" {
        var names := Split(text, '/');
        AddNames(ds, slot, names);
      }
    }
  }

  /** The loop over the "/"-pieces of one cell: each trimmed piece is added to the slot. */
  method AddNames(ds: DaySchedule, slot: string, names: seq<string>)
    modifies ds
    ensures ds.assignments == AddAll(old(ds.assignments), slot, TrimAll(names))
  {
    ghost var all := TrimAll(names);
    assert all[..0] == [];
    for n := 0 to |names|
      invariant ds.assignments == AddAll(old(ds.assignments), slot, all[..n])
    {
      ds.AddAssignment(slot, Trim(names[n]));
      assert all[..n + 1][..n] == all[..n];
    }
    assert all[..|names|] == all;
  }

  /** No day schedule object appears twice. */
  predicate Distinct(s: seq<DaySchedule>) {
    forall i, j :: 0 <= i < j < |s| ==> s[i] != s[j]
  }

  lemma DistinctAppend(s: seq<DaySchedule>, x: DaySchedule)
    requires Distinct(s) && x !in s
    ensures Distinct(s + [x])
  {
  }

  /** readRoster: the list of day schedules, or the header's exception; an
      empty sheet gives an empty list. */
  method ReadRoster(sheet: seq<Row>) returns (r: Result<seq<DaySchedule>, RosterError>)
    ensures sheet == [] ==> r == Success([])
    ensures r.Success? <==> Roster(sheet).Success?
    ensures r.Failure? ==> r.error == Roster(sheet).error
    ensures r.Success? ==> Values(r.value) == Roster(sheet).value
    ensures r.Success? ==> forall i :: 0 <= i < |r.value| ==> fresh(r.value[i])
    ensures r.Success? ==> Distinct(r.value)
  {
    if sheet == [] {
      return Success([]);
    }
    var slotsRead := ReadTimeSlots(sheet[0]);
    if slotsRead.Failure? {
      return Failure(slotsRead.error);
    }
    var schedules := ReadDataRows(sheet[1..], slotsRead.value);
    r := Success(schedules);
  }

  /** The loop over the data rows: one day schedule per kept row, in row order. */
  method ReadDataRows(rows: seq<Row>, slots: seq<string>) returns (schedules: seq<DaySchedule>)
    ensures Values(schedules) == Days(rows, slots)
    ensures forall i :: 0 <= i < |schedules| ==> fresh(schedules[i])
    ensures Distinct(schedules)
  {
    schedules := [];
    for k := 0 to |rows|
      invariant Values(schedules) == Days(rows[..k], slots)
      invariant forall i :: 0 <= i < |schedules| ==> fresh(schedules[i])
      invariant Distinct(schedules)
    {
      var read := ReadRow(rows[k], slots);
      DaysSnoc(rows, slots, k);
      if read.Some? {
        DistinctAppend(schedules, read.value);
        ValuesAppend(schedules, read.value);
        schedules := schedules + [read.value];
      }
    }
    assert rows[..|rows|] == rows;
  }

  /** One more row read: its day, if it gives one, follows those of the rows before it. */
  lemma DaysSnoc(rows: seq<Row>, slots: seq<string>, k: nat)
    requires k < |rows|
    ensures Days(rows[..k + 1], slots) ==
      Days(rows[..k], slots) + (if DayOf(rows[k], slots).Some? then [DayOf(rows[k], slots).value] else [])
  {
    var outs := DayOutcomes(rows[..k], slots);
    var x := DayOf(rows[k], slots);
    assert DayOutcomes(rows[..k + 1], slots) == outs + [x];
    SomesAppend(outs, [x]);
    assert [x][1..] == [];
  }

  // ------------------------------------------------------------ properties

  /** A header cell that getStringCellValue reads: text, blank, or a formula with a text result. */
  predicate HoldsText(c: Cell) {
    c.Text? || c.Blank? || (c.Formula? && c.result.Some?)
  }

  /** The label a header cell that holds text gives: its text trimmed, "" for a blank cell. */
  function LabelOf(c: Cell): string {
    match c
    case Text(s) => Trim(s)
    case Formula(Some(s)) => Trim(s)
    case _ => ""
  }

  /** The slot labels are the present header cells of columns 1 onwards,
      trimmed, in column order: the cell of column col is label number
      SlotsBefore(header, col). The read fails exactly when one of those
      cells holds no text. */
  lemma SlotLabels(header: Row)
    ensures TimeSlots(header).Failure? <==>
      exists col :: 1 <= col < |header| && header[col].Some? && !HoldsText(header[col].value)
    ensures TimeSlots(header).Success? ==> forall col :: 1 <= col < |header| && header[col].Some? ==>
      SlotsBefore(header, col) < |TimeSlots(header).value|
      && TimeSlots(header).value[SlotsBefore(header, col)] == LabelOf(header[col].value)
  {
    var outs := SlotOutcomes(header);
    CollectFailsIff(outs);
    if exists col :: 1 <= col < |header| && header[col].Some? && !HoldsText(header[col].value) {
      var col :| 1 <= col < |header| && header[col].Some? && !HoldsText(header[col].value);
      assert outs[col - 1].Some? && outs[col - 1].value.Failure?;
    }
    if TimeSlots(header).Failure? {
      var i :| 0 <= i < |outs| && outs[i].Some? && outs[i].value.Failure?;
      assert header[i + 1].Some? && !HoldsText(header[i + 1].value);
    }
    if TimeSlots(header).Success? {
      CollectKeepsOrder(outs);
      forall col | 1 <= col < |header| && header[col].Some?
        ensures SlotsBefore(header, col) < |TimeSlots(header).value|
        ensures TimeSlots(header).value[SlotsBefore(header, col)] == LabelOf(header[col].value)
      {
        assert outs[col - 1] == SlotOutcome(header[col]);
      }
    }
  }

  /** Column 0 of the header never becomes a slot: whatever it holds, the slots are the same. */
  lemma ColumnZeroIgnored(c: Option<Cell>, d: Option<Cell>, rest: Row)
    ensures TimeSlots([c] + rest) == TimeSlots([d] + rest)
  {
    assert SlotOutcomes([c] + rest) == SlotOutcomes([d] + rest);
  }

  /** A row without a date cell adds no day schedule and leaves the rows
      after it to be read as if it were not there. */
  lemma RowSkipped(before: seq<Row>, row: Row, after: seq<Row>, slots: seq<string>)
    requires RowDate(row).None?
    ensures Days(before + [row] + after, slots) == Days(before + after, slots)
  {
    var b := DayOutcomes(before, slots);
    var c := DayOutcomes(after, slots);
    assert DayOutcomes(before + [row] + after, slots) == b + [None] + c;
    assert DayOutcomes(before + after, slots) == b + c;
    SomesAppend(b + [None], c);
    SomesAppend(b, [None]);
    SomesAppend(b, c);
    var skipped: seq<Option<Day>> := [None];
    assert Somes(skipped) == [] by {
      assert skipped[1..] == [];
    }
  }

  /** The rows that are kept are those with a day. */
  lemma {:induction false} KeptRowsPresent(rows: seq<Row>, slots: seq<string>)
    ensures KeptRows(rows) == Present(DayOutcomes(rows, slots))
  {
    if rows != [] {
      KeptRowsPresent(rows[1..], slots);
      assert DayOutcomes(rows, slots)[1..] == DayOutcomes(rows[1..], slots);
    }
  }

  /** One day schedule per kept row, in row order: the kept row at index i
      gives the day at the number of kept rows before it, with that row's
      date and that row's map. */
  lemma DaysInRowOrder(rows: seq<Row>, slots: seq<string>)
    ensures |Days(rows, slots)| == KeptRows(rows)
    ensures forall i :: 0 <= i < |rows| && RowDate(rows[i]).Some? ==>
      KeptRows(rows[..i]) < KeptRows(rows)
      && Days(rows, slots)[KeptRows(rows[..i])] == Day(RowDate(rows[i]).value, Assign(rows[i], slots))
  {
    var outs := DayOutcomes(rows, slots);
    SomesKeepsOrder(outs);
    KeptRowsPresent(rows, slots);
    forall i | 0 <= i < |rows| && RowDate(rows[i]).Some?
      ensures KeptRows(rows[..i]) < KeptRows(rows)
      ensures Days(rows, slots)[KeptRows(rows[..i])] == Day(RowDate(rows[i]).value, Assign(rows[i], slots))
    {
      KeptRowsPresent(rows[..i], slots);
      assert outs[..i] == DayOutcomes(rows[..i], slots);
      assert outs[i] == DayOf(rows[i], slots);
    }
  }

  /** Every day of a roster has a map that is well formed and keyed by slot
      labels only, and its date and map are those of one of the data rows. */
  lemma RosterDays(sheet: seq<Row>)
    requires sheet != [] && TimeSlots(sheet[0]).Success?
    ensures Roster(sheet).Success?
    ensures forall i :: 0 <= i < |Roster(sheet).value| ==>
      WellFormed(Roster(sheet).value[i].assignments)
      && forall e :: e in Roster(sheet).value[i].assignments ==> e.slot in TimeSlots(sheet[0]).value
  {
    var slots := TimeSlots(sheet[0]).value;
    var rows := sheet[1..];
    var outs := DayOutcomes(rows, slots);
    SomesFrom(outs);
    forall i | 0 <= i < |Roster(sheet).value|
      ensures WellFormed(Roster(sheet).value[i].assignments)
      ensures forall e :: e in Roster(sheet).value[i].assignments ==> e.slot in slots
    {
      var j :| 0 <= j < |outs| && outs[j] == Some(Roster(sheet).value[i]);
      assert outs[j] == DayOf(rows[j], slots);
      FillMeaning(slots, SlotNames(rows[j], slots), |slots|);
      FillWellFormed(slots, SlotNames(rows[j], slots), |slots|);
    }
  }
  // ------------------------------------------------------ names of a cell

  /** A name as a person types it: not empty, without "/", and neither
      starting nor ending with a character trim removes. */
  predicate Clean(name: string) {
    name != [] && '/' !in name && !IsTrimmable(name[0]) && !IsTrimmable(name[|name| - 1])
  }

  /** A cell holding pieces joined by "/" gives each piece trimmed, blank
      pieces as empty names, provided the text does not start or end with a
      blank and its last piece is not empty. */
  lemma CellNamesOfJoin(pieces: seq<string>)
    requires |pieces| >= 1 && forall i :: 0 <= i < |pieces| ==> '/' !in pieces[i]
    requires pieces[|pieces| - 1] != ""
    requires var text := Join(pieces, '/'); text != [] && !IsTrimmable(text[0]) && !IsTrimmable(text[|text| - 1])
    ensures CellNames(Some(Text(Join(pieces, '/')))) == TrimAll(pieces)
  {
    var text := Join(pieces, '/');
    TrimKeeps(text);
    SplitJoin(pieces, '/');
  }

  /** A clean name alone is one name. */
  lemma OneName(a: string)
    requires Clean(a)
    ensures CellNames(Some(Text(a))) == [a]
  {
    TrimKeeps(a);
    assert TrimAll([a]) == [a];
  }

  lemma JoinTwo(a: string, b: string, sep: char)
    ensures Join([a, b], sep) == a + [sep] + b
  {
    assert [a, b][1..] == [b];
  }

  lemma JoinThree(a: string, m: string, b: string, sep: char)
    ensures Join([a, m, b], sep) == a + [sep] + m + [sep] + b
  {
    assert [a, m, b][1..] == [m, b];
    JoinTwo(m, b, sep);
    assert a + [sep] + (m + [sep] + b) == a + [sep] + m + [sep] + b;
  }

  lemma TrimAllClean(pieces: seq<string>)
    requires forall i :: 0 <= i < |pieces| ==> Clean(pieces[i])
    ensures TrimAll(pieces) == pieces
  {
    forall i | 0 <= i < |pieces|
      ensures TrimAll(pieces)[i] == pieces[i]
    {
      TrimKeeps(pieces[i]);
    }
  }

  /** "Anna/Bob": two clean names separated by "/" give both, in order. */
  lemma TwoNames(a: string, b: string)
    requires Clean(a) && Clean(b)
    ensures CellNames(Some(Text(a + "/" + b))) == [a, b]
  {
    JoinTwo(a, b, '/');
    TrimAllClean([a, b]);
    CellNamesOfJoin([a, b]);
  }

  /** "Anna/ /Bob": a blank piece between two names is added as an empty name. */
  lemma BlankPiece(a: string, blank: string, b: string)
    requires Clean(a) && Clean(b)
    requires forall i :: 0 <= i < |blank| ==> IsTrimmable(blank[i])
    ensures CellNames(Some(Text(a + "/" + blank + "/" + b))) == [a, "", b]
  {
    var pieces := [a, blank, b];
    var text := a + "/" + blank + "/" + b;
    assert '/' !in blank;
    JoinThree(a, blank, b, '/');
    assert TrimAll(pieces) == [a, "", b] by {
      TrimKeeps(a);
      TrimKeeps(b);
      TrimEmpty(blank);
    }
    assert text[0] == a[0] && text[|text| - 1] == b[|b| - 1];
    CellNamesOfJoin(pieces);
  }

  /** "Anna/": a trailing "/" gives no extra name (String.split drops trailing empty pieces). */
  lemma TrailingSeparator(a: string)
    requires Clean(a)
    ensures CellNames(Some(Text(a + "/"))) == [a]
  {
    var text := a + "/";
    assert NameText(Some(Text(text))) == text by {
      assert text[0] == a[0] && text[|text| - 1] == '/';
      TrimKeeps(text);
    }
    assert Split(text, '/') == [a] by {
      assert Join([a, ""], '/') == text by {
        assert [a, ""][1..] == [""];
      }
      SplitAllJoin([a, ""], '/');
      assert text[|text| - 1] == '/';
      assert DropTrailingEmpty([a, ""]) == [a] by {
        assert [a, ""][..1] == [a];
      }
    }
    assert TrimAll([a]) == [a] by {
      TrimKeeps(a);
    }
  }

  /** No cell, a cell that is not text, and text that trims to "" give no names. */
  lemma NoNames(c: Option<Cell>)
    requires c.None? || !c.value.Text? || forall i :: 0 <= i < |c.value.s| ==> IsTrimmable(c.value.s[i])
    ensures CellNames(c) == []
  {
    if c.Some? && c.value.Text? {
      TrimEmpty(c.value.s);
    }
  }

  // ------------------------------------------------------ the reader's test

  /** Two slots filled in turn. */
  lemma FillTwo(slots: seq<string>, names: seq<seq<string>>)
    requires |slots| == 2 && |names| == 2
    ensures Fill(slots, names, 2) == AddAll(AddAll([], slots[0], names[0]), slots[1], names[1])
  {
    assert Fill(slots, names, 1) == AddAll(Fill(slots, names, 0), slots[0], names[0]);
  }

  lemma AddAllOne(a: seq<Entry>, slot: string, x: string)
    ensures AddAll(a, slot, [x]) == Add(a, slot, x)
  {
    assert [x][..0] == [];
  }

  lemma AddAllTwo(a: seq<Entry>, slot: string, x: string, y: string)
    ensures AddAll(a, slot, [x, y]) == Add(Add(a, slot, x), slot, y)
  {
    assert [x, y][..1] == [x];
    AddAllOne(a, slot, x);
  }

  /** The header of the test: any column-0 cell, then two distinct clean labels. */
  lemma SampleSlots(header: Row, early: string, late: string)
    requires |header| == 3 && header[1] == Some(Text(early)) && header[2] == Some(Text(late))
    requires Clean(early) && Clean(late)
    ensures TimeSlots(header) == Success([early, late])
  {
    var outs := SlotOutcomes(header);
    TrimKeeps(early);
    TrimKeeps(late);
    assert |outs| == 2;
    assert outs[0] == SlotOutcome(header[1]) == Some(Success(early));
    assert outs[1] == SlotOutcome(header[2]) == Some(Success(late));
    CollectAllSucceed(outs, [early, late]);
  }

  /** Adding "a", "b" to one slot and then "c" to another. */
  lemma FillFirstDay(early: string, late: string, a: string, b: string, c: string)
    requires early != late
    ensures Fill([early, late], [[a, b], [c]], 2) == [Entry(early, [a, b]), Entry(late, [c])]
  {
    FillTwo([early, late], [[a, b], [c]]);
    AddAllTwo([], early, a, b);
    var one := Add([], early, a);
    assert one == [Entry(early, [a])];
    assert Find(one, early) == Some(0);
    var first := Add(one, early, b);
    assert first == one[0 := Entry(early, [a] + [b])];
    assert [a] + [b] == [a, b];
    assert first == [Entry(early, [a, b])];
    AddAllOne(first, late, c);
    assert Find(first, late) == None;
  }

  /** The names read from a row with two slot columns. */
  lemma TwoSlotNames(row: Row, slots: seq<string>, early: seq<string>, late: seq<string>)
    requires |slots| == 2
    requires CellNames(CellAt(row, 1)) == early && CellNames(CellAt(row, 2)) == late
    ensures SlotNames(row, slots) == [early, late]
  {
    SlotNamesAt(row, slots, 0);
    SlotNamesAt(row, slots, 1);
  }

  /** The first day of the test: "a/b" early and "c" late. */
  lemma SampleFirstDay(row: Row, early: string, late: string, a: string, b: string, c: string)
    requires |row| == 3 && row[1] == Some(Text(a + "/" + b)) && row[2] == Some(Text(c))
    requires early != late && Clean(a) && Clean(b) && Clean(c)
    ensures Assign(row, [early, late]) == [Entry(early, [a, b]), Entry(late, [c])]
  {
    TwoNames(a, b);
    OneName(c);
    TwoSlotNames(row, [early, late], [a, b], [c]);
    FillFirstDay(early, late, a, b, c);
  }

  /** The second day of the test: "e" early and an empty (or blank) late cell. */
  lemma SampleSecondDay(row: Row, early: string, late: string, e: string, blank: string)
    requires |row| == 3 && row[1] == Some(Text(e)) && row[2] == Some(Text(blank))
    requires Clean(e) && forall i :: 0 <= i < |blank| ==> IsTrimmable(blank[i])
    ensures Assign(row, [early, late]) == [Entry(early, [e])]
  {
    OneName(e);
    NoNames(row[2]);
    TwoSlotNames(row, [early, late], [e], []);
    FillTwo([early, late], [[e], []]);
    AddAllOne([], early, e);
  }

  /** The reader's test: a header with two slot labels, a row with "a/b"
      early and "c" late, and a row with "e" early and an empty or blank late cell
      give two days in row order; the second day has no key at all for the
      late slot. */
  lemma SampleRoster(sheet: seq<Row>, early: string, late: string, d1: LocalDate, d2: LocalDate,
                     a: string, b: string, c: string, e: string, blank: string)
    requires |sheet| == 3 && |sheet[0]| == 3 && |sheet[1]| == 3 && |sheet[2]| == 3
    requires sheet[0][1] == Some(Text(early)) && sheet[0][2] == Some(Text(late))
    requires sheet[1] == [Some(Numeric(Some(d1))), Some(Text(a + "/" + b)), Some(Text(c))]
    requires sheet[2] == [Some(Numeric(Some(d2))), Some(Text(e)), Some(Text(blank))]
    requires Clean(early) && Clean(late) && early != late
    requires Clean(a) && Clean(b) && Clean(c) && Clean(e)
    requires forall i :: 0 <= i < |blank| ==> IsTrimmable(blank[i])
    ensures Roster(sheet) == Success([
      Day(d1, [Entry(early, [a, b]), Entry(late, [c])]),
      Day(d2, [Entry(early, [e])])])
    ensures Get(Roster(sheet).value[1].assignments, late) == None
  {
    var slots := [early, late];
    SampleSlots(sheet[0], early, late);
    SampleFirstDay(sheet[1], early, late, a, b, c);
    SampleSecondDay(sheet[2], early, late, e, blank);
    var outs := DayOutcomes(sheet[1..], slots);
    assert |outs| == 2;
    assert outs[0] == DayOf(sheet[1], slots) && outs[1] == DayOf(sheet[2], slots);
    assert outs[1..][1..] == [];
    assert Somes(outs[1..]) == [outs[1].value];
    assert Somes(outs) == [outs[0].value, outs[1].value];
  }
}
