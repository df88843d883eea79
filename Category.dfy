/** The six task categories, each with a German display label. */
module Categories {
  import opened Wrappers

  datatype Category = Work | Personal | Shopping | Health | Finance | Other {

    /** getLabel(). */
    function Label(): string {
      match this
      case Work => "Arbeit"
      case Personal => "Privat"
      case Shopping => "Einkaufen"
      case Health => "Gesundheit"
      case Finance => "Finanzen"
      case Other => "Sonstiges"
    }

    /** name(): the identifier of the constant, used by the CSV export. */
    function Name(): string {
      match this
      case Work => "WORK"
      case Personal => "PERSONAL"
      case Shopping => "SHOPPING"
      case Health => "HEALTH"
      case Finance => "FINANCE"
      case Other => "OTHER"
    }

    /** toString(): the label, or "" for a null label; no label is null,
        so it is always the label, and never empty. */
    function ToString(): (s: string)
      ensures s == Label() && s != ""
      ensures s != Name()
    {
      Label()
    }
  }

  /** The constants in declaration order, as values() returns them. */
  const Values: seq<Category> := [Work, Personal, Shopping, Health, Finance, Other]

  /** Category.valueOf: the constant with exactly that name; None is an IllegalArgumentException. */
  function ValueOf(name: string): (r: Option<Category>)
  {
    if name == "WORK" then Some(Work)
    else if name == "PERSONAL" then Some(Personal)
    else if name == "SHOPPING" then Some(Shopping)
    else if name == "HEALTH" then Some(Health)
    else if name == "FINANCE" then Some(Finance)
    else if name == "OTHER" then Some(Other)
    else None
  }

  /** Exactly six constants. */
  lemma ValuesAreAllConstants(c: Category)
    ensures c in Values && |Values| == 6
  {
  }

  /** valueOf finds a constant exactly when the text is its name. */
  lemma ValueOfMeaning(name: string)
    ensures ValueOf(name).Some? ==> ValueOf(name).value.Name() == name
    ensures ValueOf(name).None? <==> forall c: Category :: c.Name() != name
  {
  }

  /** valueOf(name()) gives the constant back, which the CSV loader relies on. */
  lemma ValueOfName(c: Category)
    ensures ValueOf(c.Name()) == Some(c)
  {
  }

  /** The labels are pairwise distinct. */
  lemma LabelsDistinct(c: Category, d: Category)
    ensures c.Label() == d.Label() <==> c == d
  {
  }
}
