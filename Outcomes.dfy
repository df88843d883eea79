/**
 * A loader that reads its input item by item: each item is skipped, ends the
 * whole run with an error, or contributes one value. The run's result is
 * either the values of the contributing items in input order, or the error
 * of the first item that fails.
 */
module Outcomes {
  import opened Wrappers

  /** The run over a sequence of per-item outcomes (None: the item is skipped). */
  function Collect<R, E>(outs: seq<Option<Result<R, E>>>): Result<seq<R>, E> {
    if outs == [] then Success([])
    else
      match outs[0]
      case None => Collect(outs[1..])
      case Some(Failure(e)) => Failure(e)
      case Some(Success(x)) => Prepend([x], Collect(outs[1..]))
  }

  /** The values collected so far, followed by the result of the rest of the run. */
  function Prepend<R, E>(done: seq<R>, rest: Result<seq<R>, E>): Result<seq<R>, E> {
    match rest
    case Failure(e) => Failure(e)
    case Success(xs) => Success(done + xs)
  }

  /** The number of items that are not skipped. */
  function Kept<R, E>(outs: seq<Option<Result<R, E>>>): nat {
    if outs == [] then 0 else (if outs[0].Some? then 1 else 0) + Kept(outs[1..])
  }

  /** Nothing collected before leaves the result as it is. */
  lemma PrependNothing<R, E>(rest: Result<seq<R>, E>)
    ensures Prepend([], rest) == rest
  {
    match rest
    case Failure(_) =>
    case Success(xs) => assert [] + xs == xs;
  }

  /** One step of a run that has already collected `done`: a skipped item
      changes nothing, a failing item ends the run, a value is appended. */
  lemma CollectStep<R, E>(done: seq<R>, outs: seq<Option<Result<R, E>>>)
    requires outs != []
    ensures outs[0].None? ==> Prepend(done, Collect(outs)) == Prepend(done, Collect(outs[1..]))
    ensures outs[0].Some? && outs[0].value.Failure? ==>
      Prepend(done, Collect(outs)) == Failure(outs[0].value.error)
    ensures outs[0].Some? && outs[0].value.Success? ==>
      Prepend(done, Collect(outs)) == Prepend(done + [outs[0].value.value], Collect(outs[1..]))
  {
    if outs[0].Some? && outs[0].value.Success? {
      var x := outs[0].value.value;
      match Collect(outs[1..])
      case Failure(_) =>
      case Success(xs) => assert done + ([x] + xs) == done + [x] + xs;
    }
  }

  /** A skipped item can be removed wherever it stands. */
  lemma {:induction false} CollectSkips<R, E>(a: seq<Option<Result<R, E>>>, b: seq<Option<Result<R, E>>>)
    ensures Collect(a + [None] + b) == Collect(a + b)
  {
    if a == [] {
      assert (a + [None] + b)[1..] == b;
      assert a + b == b;
    } else {
      CollectSkips(a[1..], b);
      assert (a + [None] + b)[1..] == a[1..] + [None] + b;
      assert (a + b)[1..] == a[1..] + b;
    }
  }

  /** The run fails exactly when some item fails, and then with the error of
      the first item that fails. */
  lemma {:induction false} CollectFailsIff<R, E>(outs: seq<Option<Result<R, E>>>)
    ensures Collect(outs).Failure? <==>
      exists i :: 0 <= i < |outs| && outs[i].Some? && outs[i].value.Failure?
    ensures Collect(outs).Failure? ==>
      exists i :: 0 <= i < |outs| && outs[i] == Some(Failure(Collect(outs).error))
        && forall j :: 0 <= j < i ==> outs[j].None? || outs[j].value.Success?
  {
    if outs != [] {
      var rest := outs[1..];
      CollectFailsIff(rest);
      if outs[0].Some? && outs[0].value.Failure? {
        assert outs[0] == Some(Failure(Collect(outs).error));
      } else {
        assert Collect(outs).Failure? <==> Collect(rest).Failure?;
        assert Collect(outs).Failure? ==> Collect(outs).error == Collect(rest).error;
        if exists i :: 0 <= i < |rest| && rest[i].Some? && rest[i].value.Failure? {
          var i :| 0 <= i < |rest| && rest[i].Some? && rest[i].value.Failure?;
          assert outs[i + 1] == rest[i];
        }
        if exists i :: 0 <= i < |outs| && outs[i].Some? && outs[i].value.Failure? {
          var i :| 0 <= i < |outs| && outs[i].Some? && outs[i].value.Failure?;
          assert i > 0 && rest[i - 1] == outs[i];
        }
        if Collect(rest).Failure? {
          var i :| 0 <= i < |rest| && rest[i] == Some(Failure(Collect(rest).error))
            && forall j :: 0 <= j < i ==> rest[j].None? || rest[j].value.Success?;
          assert outs[i + 1] == rest[i];
          assert forall j :: 0 < j < i + 1 ==> outs[j] == rest[j - 1];
        }
      }
    }
  }

  /** A successful run holds one value per item that is not skipped, in input
      order: the item at index i gives the value at the number of kept items
      before it. */
  lemma {:induction false} CollectKeepsOrder<R, E>(outs: seq<Option<Result<R, E>>>)
    requires Collect(outs).Success?
    ensures |Collect(outs).value| == Kept(outs)
    ensures forall i :: 0 <= i < |outs| && outs[i].Some? ==>
      Kept(outs[..i]) < Kept(outs) && outs[i].value == Success(Collect(outs).value[Kept(outs[..i])])
  {
    if outs != [] {
      var rest := outs[1..];
      CollectKeepsOrder(rest);
      var xs := Collect(outs).value;
      var ys := Collect(rest).value;
      forall i | 0 <= i < |outs| && outs[i].Some?
        ensures Kept(outs[..i]) < Kept(outs) && outs[i].value == Success(xs[Kept(outs[..i])])
      {
        if i == 0 {
          assert outs[..0] == [];
        } else {
          assert outs[..i][1..] == rest[..i - 1];
          assert rest[i - 1] == outs[i];
        }
      }
    }
  }

  /** Items that all give values collect to those values. */
  lemma {:induction false} CollectAllSucceed<R, E>(outs: seq<Option<Result<R, E>>>, xs: seq<R>)
    requires |outs| == |xs|
    requires forall i :: 0 <= i < |outs| ==> outs[i] == Some(Success(xs[i]))
    ensures Collect(outs) == Success(xs)
  {
    if outs != [] {
      CollectAllSucceed(outs[1..], xs[1..]);
      assert [xs[0]] + xs[1..] == xs;
    }
  }
  /** The outcome of every item, in input order. */
  function Map<A, B>(f: A -> B, s: seq<A>): (r: seq<B>)
    ensures |r| == |s|
    ensures forall i :: 0 <= i < |s| ==> r[i] == f(s[i])
  {
    seq(|s|, i requires 0 <= i < |s| => f(s[i]))
  }

  /** The outcomes of two inputs put together are those of each, put together. */
  lemma MapAppend<A, B>(f: A -> B, a: seq<A>, b: seq<A>)
    ensures Map(f, a + b) == Map(f, a) + Map(f, b)
  {
    assert forall i :: 0 <= i < |a + b| ==> (a + b)[i] == if i < |a| then a[i] else b[i - |a|];
  }

  /** The outcomes of a prefix are a prefix of the outcomes. */
  lemma MapPrefix<A, B>(f: A -> B, s: seq<A>, n: nat)
    requires n <= |s|
    ensures Map(f, s[..n]) == Map(f, s)[..n]
  {
  }

  /** The values of the items that are present, in input order. */
  function Somes<T>(xs: seq<Option<T>>): seq<T> {
    if xs == [] then []
    else (if xs[0].Some? then [xs[0].value] else []) + Somes(xs[1..])
  }

  /** The number of items that are present. */
  function Present<T>(xs: seq<Option<T>>): nat {
    if xs == [] then 0 else (if xs[0].Some? then 1 else 0) + Present(xs[1..])
  }

  /** Keeping the present items of two sequences put together. */
  lemma {:induction false} SomesAppend<T>(a: seq<Option<T>>, b: seq<Option<T>>)
    ensures Somes(a + b) == Somes(a) + Somes(b)
  {
    if a == [] {
      assert a + b == b;
    } else {
      SomesAppend(a[1..], b);
      var head := if a[0].Some? then [a[0].value] else [];
      assert (a + b)[1..] == a[1..] + b;
      assert Somes(a + b) == head + Somes(a[1..] + b);
      assert head + (Somes(a[1..]) + Somes(b)) == (head + Somes(a[1..])) + Somes(b);
    }
  }

  /** One value per present item, in input order: the item at index i gives
      the value at the number of present items before it. */
  lemma {:induction false} SomesKeepsOrder<T>(xs: seq<Option<T>>)
    ensures |Somes(xs)| == Present(xs)
    ensures forall i :: 0 <= i < |xs| && xs[i].Some? ==>
      Present(xs[..i]) < Present(xs) && Somes(xs)[Present(xs[..i])] == xs[i].value
  {
    if xs != [] {
      var rest := xs[1..];
      SomesKeepsOrder(rest);
      forall i | 0 <= i < |xs| && xs[i].Some?
        ensures Present(xs[..i]) < Present(xs) && Somes(xs)[Present(xs[..i])] == xs[i].value
      {
        if i == 0 {
          assert xs[..0] == [];
        } else {
          var head := if xs[0].Some? then [xs[0].value] else [];
          assert xs[..i][1..] == rest[..i - 1];
          assert Present(xs[..i]) == |head| + Present(rest[..i - 1]);
          assert rest[i - 1] == xs[i];
          assert Somes(xs) == head + Somes(rest);
        }
      }
    }
  }

  /** Every value kept comes from an item that is present. */
  lemma {:induction false} SomesFrom<T>(xs: seq<Option<T>>)
    ensures forall i :: 0 <= i < |Somes(xs)| ==> exists j :: 0 <= j < |xs| && xs[j] == Some(Somes(xs)[i])
  {
    if xs != [] {
      var rest := xs[1..];
      SomesFrom(rest);
      var head := if xs[0].Some? then [xs[0].value] else [];
      assert Somes(xs) == head + Somes(rest);
      forall i | 0 <= i < |Somes(xs)|
        ensures exists j :: 0 <= j < |xs| && xs[j] == Some(Somes(xs)[i])
      {
        if i < |head| {
          assert xs[0] == Some(Somes(xs)[i]);
        } else {
          assert Somes(xs)[i] == Somes(rest)[i - |head|];
          var j :| 0 <= j < |rest| && rest[j] == Some(Somes(rest)[i - |head|]);
          assert xs[j + 1] == Some(Somes(xs)[i]);
        }
      }
    } else {
      assert Somes(xs) == [];
    }
  }
}
