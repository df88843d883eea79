/** The four task priorities, each with a numeric level and a German display label. */
module Priorities {
  import opened Wrappers

  datatype Priority = Low | Medium | High | Urgent {

    /** getLevel(): the sort key. */
    function Level(): (n: int)
      ensures 1 <= n <= 4
    {
      match this
      case Low => 1
      case Medium => 2
      case High => 3
      case Urgent => 4
    }

    /** getLabel(), and also what toString() returns. */
    function Label(): string {
      match this
      case Low => "Niedrig"
      case Medium => "Mittel"
      case High => "Hoch"
      case Urgent => "Dringend"
    }

    /** toString() returns the label, not the constant name. */
    function ToString(): (s: string)
      ensures s == Label()
      ensures s != Name()
    {
      Label()
    }

    /** name(): the identifier of the constant, used by the CSV export. */
    function Name(): string {
      match this
      case Low => "LOW"
      case Medium => "MEDIUM"
      case High => "HIGH"
      case Urgent => "URGENT"
    }

    /** Position in the declaration. */
    function Ordinal(): nat {
      match this
      case Low => 0
      case Medium => 1
      case High => 2
      case Urgent => 3
    }
  }

  /** The constants in declaration order, as values() returns them. */
  const Values: seq<Priority> := [Low, Medium, High, Urgent]

  /** Priority.valueOf: the constant with exactly that name; None is an IllegalArgumentException. */
  function ValueOf(name: string): (r: Option<Priority>)
  {
    if name == "LOW" then Some(Low)
    else if name == "MEDIUM" then Some(Medium)
    else if name == "HIGH" then Some(High)
    else if name == "URGENT" then Some(Urgent)
    else None
  }

  /** Exactly four constants, listed with levels 1..4 in declaration order. */
  lemma ValuesAreAllConstants(p: Priority)
    ensures p in Values && |Values| == 4
    ensures Values[p.Ordinal()] == p
    ensures p.Level() == p.Ordinal() + 1
  {
  }

  /** The level strictly increases in declaration order, so it identifies the constant. */
  lemma LevelOrder(p: Priority, q: Priority)
    ensures p.Ordinal() < q.Ordinal() <==> p.Level() < q.Level()
    ensures p.Level() == q.Level() <==> p == q
  {
  }

  /** valueOf finds a constant exactly when the text is its name. */
  lemma ValueOfMeaning(name: string)
    ensures ValueOf(name).Some? ==> ValueOf(name).value.Name() == name
    ensures ValueOf(name).None? <==> forall p: Priority :: p.Name() != name
  {
  }

  /** valueOf(name()) gives the constant back, which the CSV loader relies on. */
  lemma ValueOfName(p: Priority)
    ensures ValueOf(p.Name()) == Some(p)
  {
  }

  /** The labels are pairwise distinct. */
  lemma LabelsDistinct(p: Priority, q: Priority)
    ensures p.Label() == q.Label() <==> p == q
  {
  }
}
