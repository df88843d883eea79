/**
 * A memo: a fixed id and creation time, and a title and a content that can
 * be replaced. Memos are made by a builder, which either draws a fresh id
 * from the id counter and takes the current time, or takes an id and a
 * creation time given as text (when a memo is read back from CSV). Either
 * way the content must be present and not blank.
 */
module Memos {
  import opened Wrappers
  import opened JavaText
  import opened Temporal
  import opened Ids

  /** MissingFieldException, and the DateTimeParseException of LocalDateTime.parse. */
  datatype MemoError = MissingField | DateTimeParse

  /** validateMandatoryFields: the content is not null and not blank. */
  predicate HasContent(content: Option<string>) {
    content.Some? && !IsBlank(content.value)
  }

  /** The CSV header; its order is that of ToCsvRow. */
  const CsvHeader: seq<string> := ["id", "createdAt", "title", "content"]

  class Memo {
    const id: Long
    const createdAt: LocalDateTime
    /** Either text may be null (None); a memo is only built with content, but setContent does not check. */
    var title: Option<string>
    var content: Option<string>

    /** The private constructor: copies the builder's fields. */
    constructor (id: Long, createdAt: LocalDateTime, title: Option<string>, content: Option<string>)
      ensures this.id == id && this.createdAt == createdAt
      ensures this.title == title && this.content == content
    {
      this.id := id;
      this.createdAt := createdAt;
      this.title := title;
      this.content := content;
    }

    /** setTitle: replaces the title and nothing else. */
    method SetTitle(title: Option<string>)
      modifies this
      ensures this.title == title && content == old(content)
    {
      this.title := title;
    }

    /** setContent: replaces the content and nothing else; it is not validated again. */
    method SetContent(content: Option<string>)
      modifies this
      ensures this.content == content && title == old(title)
    {
      this.content := content;
    }

    /** toCsvRow: the id and the creation time as text, then title and
        content as they are (null included), in the order of the header.
        The id and the time read back to the memo's own. */
    function ToCsvRow(): (row: seq<Option<string>>)
      reads this
      ensures |row| == |CsvHeader|
      ensures row[0] == Some(FormatLong(id)) && ParseLong(row[0].value) == Some(id)
      ensures row[1] == Some(FormatDateTime(createdAt)) && ParseDateTime(row[1].value) == Some(createdAt)
      ensures row[2] == title && row[3] == content
    {
      ParseFormatLong(id);
      ParseFormatDateTime(createdAt);
      [Some(FormatLong(id)), Some(FormatDateTime(createdAt)), title, content]
    }
  }

  class Builder {
    var id: Long
    /** Unset (null) until one of the build methods runs. */
    var createdAt: Option<LocalDateTime>
    var title: Option<string>
    var content: Option<string>

    /** A new builder: every field at Java's default. */
    constructor ()
      ensures id == 0 && createdAt.None? && title.None? && content.None?
    {
      id := 0;
      createdAt := None;
      title := None;
      content := None;
    }

    /** title(t): sets the (optional) title and returns the same builder. */
    method Title(t: Option<string>) returns (b: Builder)
      modifies this
      ensures b == this && title == t
      ensures content == old(content) && id == old(id) && createdAt == old(createdAt)
    {
      title := t;
      b := this;
    }

    /** content(c): sets the (mandatory) content and returns the same builder. */
    method Content(c: Option<string>) returns (b: Builder)
      modifies this
      ensures b == this && content == c
      ensures title == old(title) && id == old(id) && createdAt == old(createdAt)
    {
      content := c;
      b := this;
    }

    /** build(): draws the next id and stamps the current time (`now`, read
        from the clock in Java) BEFORE validating, so a rejected build still
        uses up an id. */
    method Build(gen: IdGenerator, now: LocalDateTime) returns (r: Result<Memo, MemoError>)
      requires gen.Valid()
      modifies this, gen
      ensures gen.Valid() && gen.currentId == Increment(old(gen.currentId))
      ensures gen.issued == old(gen.issued) + [gen.currentId]
      ensures id == gen.currentId && createdAt == Some(now)
      ensures title == old(title) && content == old(content)
      ensures r.Success? <==> HasContent(content)
      ensures r.Failure? ==> r.error == MissingField
      ensures r.Success? ==> fresh(r.value)
      ensures r.Success? ==> r.value.id == id && r.value.createdAt == now
      ensures r.Success? ==> r.value.title == title && r.value.content == content
    {
      var next := gen.GenerateId();
      id := next;
      createdAt := Some(now);
      if !HasContent(content) {
        return Failure(MissingField);
      }
      var m := new Memo(id, now, title, content);
      r := Success(m);
    }

    /** buildInternal(id, text): takes the id, then parses the creation time
        (a parse failure raises before the content is looked at), then
        validates. */
    method BuildInternal(id: Long, createdAtText: string) returns (r: Result<Memo, MemoError>)
      modifies this
      ensures this.id == id && title == old(title) && content == old(content)
      ensures ParseDateTime(createdAtText).None? ==> r == Failure(DateTimeParse) && createdAt == old(createdAt)
      ensures ParseDateTime(createdAtText).Some? ==> createdAt == ParseDateTime(createdAtText)
      ensures r.Success? <==> ParseDateTime(createdAtText).Some? && HasContent(content)
      ensures ParseDateTime(createdAtText).Some? && !HasContent(content) ==> r == Failure(MissingField)
      ensures r.Success? ==> fresh(r.value)
      ensures r.Success? ==> r.value.id == id && Some(r.value.createdAt) == ParseDateTime(createdAtText)
      ensures r.Success? ==> r.value.title == title && r.value.content == content
    {
      this.id := id;
      var parsed := ParseDateTime(createdAtText);
      if parsed.None? {
        return Failure(DateTimeParse);
      }
      createdAt := parsed;
      if !HasContent(content) {
        return Failure(MissingField);
      }
      var m := new Memo(id, parsed.value, title, content);
      r := Success(m);
    }
  }

  /** fromCsv: a fresh builder given the title and the content, then buildInternal. */
  method FromCsv(id: Long, createdAtText: string, title: Option<string>, content: Option<string>)
      returns (r: Result<Memo, MemoError>)
    ensures ParseDateTime(createdAtText).None? ==> r == Failure(DateTimeParse)
    ensures r.Success? <==> ParseDateTime(createdAtText).Some? && HasContent(content)
    ensures ParseDateTime(createdAtText).Some? && !HasContent(content) ==> r == Failure(MissingField)
    ensures r.Success? ==> fresh(r.value)
    ensures r.Success? ==> r.value.id == id && Some(r.value.createdAt) == ParseDateTime(createdAtText)
    ensures r.Success? ==> r.value.title == title && r.value.content == content
  {
    var b := new Builder();
    b := b.Title(title);
    b := b.Content(content);
    r := b.BuildInternal(id, createdAtText);
  }

  /** Reading back a memo's CSV row with fromCsv gives a new memo with the
      same id, creation time, title and content, whenever the memo still has
      content (setContent may have removed it). */
  method CsvRoundTrip(m: Memo) returns (copy: Result<Memo, MemoError>)
    requires HasContent(m.content)
    ensures copy.Success? && fresh(copy.value)
    ensures copy.value.id == m.id && copy.value.createdAt == m.createdAt
    ensures copy.value.title == m.title && copy.value.content == m.content
  {
    var row := m.ToCsvRow();
    copy := FromCsv(m.id, row[1].value, row[2], row[3]);
  }

  /** The time stamp of CSV text without seconds is read as that minute, and
      written back as the same text. */
  lemma TimestampWithoutSeconds()
    ensures ParseDateTime("2024-06-01T12:00") == Some(DateTime(Date(2024, 6, 1), 12, 0, 0))
    ensures FormatDateTime(DateTime(Date(2024, 6, 1), 12, 0, 0)) == "2024-06-01T12:00"
  {
    var t := DateTime(Date(2024, 6, 1), 12, 0, 0);
    assert TwoDigits(20) == "20" && TwoDigits(24) == "24" && FourDigits(2024) == "2024";
    assert TwoDigits(6) == "06" && TwoDigits(1) == "01" && TwoDigits(12) == "12" && TwoDigits(0) == "00";
    assert FormatDate(t.date) == "2024-06-01";
    assert FormatDateTime(t) == "2024-06-01T12:00";
    ParseFormatDateTime(t);
  }

  /** No content, or content of spaces only, is rejected; the test's content is accepted. */
  lemma ContentValidation()
    ensures !HasContent(None) && !HasContent(Some("")) && !HasContent(Some("   "))
    ensures HasContent(Some("Testinhalt"))
  {
    assert !IsWhitespace("Testinhalt"[0]);
  }

  /** The test scenario: a memo built with a title and a content holds them,
      its setters replace them, and a builder without content is rejected
      (using up an id all the same). */
  method BuilderScenario(gen: IdGenerator, now: LocalDateTime)
    requires gen.Valid()
    modifies gen
    ensures gen.Valid() && |gen.issued| == |old(gen.issued)| + 2
  {
    ContentValidation();
    var b := new Builder();
    b := b.Title(Some("Testtitel"));
    b := b.Content(Some("Testinhalt"));
    var r := b.Build(gen, now);
    assert r.Success?;
    var memo := r.value;
    assert memo.title == Some("Testtitel") && memo.content == Some("Testinhalt");
    memo.SetTitle(Some("Neuer Titel"));
    memo.SetContent(Some("Neuer Inhalt"));
    assert memo.title == Some("Neuer Titel") && memo.content == Some("Neuer Inhalt");
    var before := gen.currentId;
    var c := new Builder();
    c := c.Title(Some("Titel"));
    var failed := c.Build(gen, now);
    assert failed == Failure(MissingField);
    assert gen.currentId == Increment(before);
  }
}
