/**
 * A stable insertion sort on items paired with integer-sequence keys, and
 * the proofs that its result is sorted, a permutation of its input, and
 * stable. The keys are compared lexicographically, a proper prefix first.
 */
module StableSort {

  /** Strict lexicographic order on integer sequences; a proper prefix comes first. */
  predicate LexLess(a: seq<int>, b: seq<int>) {
    if a == [] then b != []
    else if b == [] then false
    else a[0] < b[0] || (a[0] == b[0] && LexLess(a[1..], b[1..]))
  }

  lemma {:induction false} LexLessIrreflexive(a: seq<int>)
    ensures !LexLess(a, a)
  {
    if a != [] {
      LexLessIrreflexive(a[1..]);
    }
  }

  lemma {:induction false} LexLessTransitive(a: seq<int>, b: seq<int>, c: seq<int>)
    requires LexLess(a, b) && LexLess(b, c)
    ensures LexLess(a, c)
  {
    if a != [] && b != [] && c != [] && a[0] == b[0] == c[0] {
      LexLessTransitive(a[1..], b[1..], c[1..]);
    }
  }

  lemma {:induction false} LexLessTotal(a: seq<int>, b: seq<int>)
    ensures LexLess(a, b) || a == b || LexLess(b, a)
  {
    if a != [] && b != [] && a[0] == b[0] {
      LexLessTotal(a[1..], b[1..]);
      if a[1..] == b[1..] {
        assert a == [a[0]] + a[1..] && b == [b[0]] + b[1..];
      }
    }
  }

  /** Not smaller: the key order's "less than or equal". */
  lemma NotLessIsAtLeast(a: seq<int>, b: seq<int>)
    requires !LexLess(a, b)
    ensures a == b || LexLess(b, a)
  {
    LexLessTotal(a, b);
  }

  datatype Keyed<T> = Keyed(item: T, key: seq<int>)

  /** The items of s, without their keys. */
  function Items<T>(s: seq<Keyed<T>>): (r: seq<T>)
    ensures |r| == |s|
    ensures forall i :: 0 <= i < |s| ==> r[i] == s[i].item
  {
    seq(|s|, i requires 0 <= i < |s| => s[i].item)
  }

  /** The stable insertion of x into s: x goes after every element whose key is not greater. */
  function Insert<T>(s: seq<Keyed<T>>, x: Keyed<T>): (r: seq<Keyed<T>>)
    ensures |r| == |s| + 1
  {
    if s == [] || !LexLess(x.key, s[|s| - 1].key) then s + [x]
    else Insert(s[..|s| - 1], x) + [s[|s| - 1]]
  }

  /** The stable sort of s by key. */
  function SortedBy<T>(s: seq<Keyed<T>>): (r: seq<Keyed<T>>)
    ensures |r| == |s|
  {
    if s == [] then [] else Insert(SortedBy(s[..|s| - 1]), s[|s| - 1])
  }

  /** Sorting one more element inserts it into the sorted front. */
  lemma SortedByStep<T>(s: seq<Keyed<T>>, i: nat)
    requires i < |s|
    ensures SortedBy(s[..i + 1]) == Insert(SortedBy(s[..i]), s[i])
  {
    assert s[..i + 1][..i] == s[..i];
  }

  /** No element's key is smaller than the key of an element before it. */
  ghost predicate IsSorted<T>(s: seq<Keyed<T>>) {
    forall i, j :: 0 <= i < j < |s| ==> !LexLess(s[j].key, s[i].key)
  }

  /** The elements of s whose key is k, in their order in s. */
  function WithKey<T>(s: seq<Keyed<T>>, k: seq<int>): seq<Keyed<T>> {
    if s == [] then []
    else WithKey(s[..|s| - 1], k) + (if s[|s| - 1].key == k then [s[|s| - 1]] else [])
  }

  lemma {:induction false} InsertShape<T>(s: seq<Keyed<T>>, x: Keyed<T>) returns (p: nat)
    ensures p <= |s|
    ensures Insert(s, x) == s[..p] + [x] + s[p..]
    ensures forall m :: p <= m < |s| ==> LexLess(x.key, s[m].key)
    ensures p > 0 ==> !LexLess(x.key, s[p - 1].key)
  {
    if s == [] || !LexLess(x.key, s[|s| - 1].key) {
      p := |s|;
      assert s[..p] == s && s[p..] == [];
    } else {
      var init := s[..|s| - 1];
      p := InsertShape(init, x);
      assert init[..p] == s[..p];
      assert init[p..] + [s[|s| - 1]] == s[p..];
    }
  }

  lemma InsertMultiset<T>(s: seq<Keyed<T>>, x: Keyed<T>)
    ensures multiset(Insert(s, x)) == multiset(s) + multiset{x}
  {
    var p := InsertShape(s, x);
    assert s == s[..p] + s[p..];
  }

  lemma InsertSorted<T>(s: seq<Keyed<T>>, x: Keyed<T>)
    requires IsSorted(s)
    ensures IsSorted(Insert(s, x))
  {
    var p := InsertShape(s, x);
    var r := Insert(s, x);
    forall i, j | 0 <= i < j < |r|
      ensures !LexLess(r[j].key, r[i].key)
    {
      if i < p && j == p {
        // s[i] is at or before s[p - 1], whose key is not greater than x's
        NotLessIsAtLeast(x.key, s[p - 1].key);
        if i < p - 1 {
          NotLessIsAtLeast(s[p - 1].key, s[i].key);
          if LexLess(x.key, s[i].key) && x.key != s[p - 1].key {
            if s[p - 1].key == s[i].key {
            } else {
              LexLessTransitive(s[i].key, s[p - 1].key, x.key);
              LexLessTransitive(x.key, s[i].key, x.key);
              LexLessIrreflexive(x.key);
            }
          } else if LexLess(x.key, s[i].key) {
            LexLessIrreflexive(x.key);
          }
        }
      } else if i == p && j > p {
        assert r[j] == s[j - 1];
        if LexLess(s[j - 1].key, x.key) {
          LexLessTransitive(x.key, s[j - 1].key, x.key);
          LexLessIrreflexive(x.key);
        }
      } else if i < p && j > p {
        assert r[i] == s[i] && r[j] == s[j - 1];
      } else if j < p {
        assert r[i] == s[i] && r[j] == s[j];
      } else {
        assert r[i] == s[i - 1] && r[j] == s[j - 1];
      }
    }
  }

  lemma {:induction false} InsertWithKey<T>(s: seq<Keyed<T>>, x: Keyed<T>, k: seq<int>)
    ensures WithKey(Insert(s, x), k) == WithKey(s, k) + (if x.key == k then [x] else [])
  {
    if s == [] || !LexLess(x.key, s[|s| - 1].key) {
      assert (s + [x])[..|s|] == s;
    } else {
      var init := s[..|s| - 1];
      var last := s[|s| - 1];
      InsertWithKey(init, x, k);
      var r := Insert(init, x) + [last];
      assert r[..|r| - 1] == Insert(init, x);
      if x.key == k && last.key == k {
        // last's key is greater than x's, so it cannot also be k
        LexLessIrreflexive(k);
      }
    }
  }

  /** The sort's result is sorted by key. */
  lemma {:induction false} SortedByIsSorted<T>(s: seq<Keyed<T>>)
    ensures IsSorted(SortedBy(s))
  {
    if s != [] {
      SortedByIsSorted(s[..|s| - 1]);
      InsertSorted(SortedBy(s[..|s| - 1]), s[|s| - 1]);
    }
  }

  /** The sort's result is a permutation of its input. */
  lemma {:induction false} SortedByIsPermutation<T>(s: seq<Keyed<T>>)
    ensures multiset(SortedBy(s)) == multiset(s)
  {
    if s != [] {
      SortedByIsPermutation(s[..|s| - 1]);
      InsertMultiset(SortedBy(s[..|s| - 1]), s[|s| - 1]);
      assert s == s[..|s| - 1] + [s[|s| - 1]];
    }
  }

  /** The sort is stable: the elements with any one key keep their relative order. */
  lemma {:induction false} SortedByIsStable<T>(s: seq<Keyed<T>>, k: seq<int>)
    ensures WithKey(SortedBy(s), k) == WithKey(s, k)
  {
    if s != [] {
      SortedByIsStable(s[..|s| - 1], k);
      InsertWithKey(SortedBy(s[..|s| - 1]), s[|s| - 1], k);
    }
  }

  lemma ItemsAppend<T>(s: seq<Keyed<T>>, t: seq<Keyed<T>>)
    ensures Items(s + t) == Items(s) + Items(t)
  {
    assert forall i :: 0 <= i < |s + t| ==> Items(s + t)[i] == (Items(s) + Items(t))[i];
  }

  /** An element placed between two runs adds its item to theirs. */
  lemma ItemsBetween<T>(front: seq<Keyed<T>>, x: Keyed<T>, back: seq<Keyed<T>>)
    ensures multiset(Items(front + [x] + back)) == multiset(Items(front + back)) + multiset{x.item}
  {
    ItemsAppend(front + [x], back);
    ItemsAppend(front, [x]);
    ItemsAppend(front, back);
  }

  /** Inserting an element adds its item to the items. */
  lemma InsertItems<T>(t: seq<Keyed<T>>, x: Keyed<T>)
    ensures multiset(Items(Insert(t, x))) == multiset(Items(t)) + multiset{x.item}
  {
    var p := InsertShape(t, x);
    ItemsBetween(t[..p], x, t[p..]);
    assert t == t[..p] + t[p..];
  }

  /** Sorting permutes the items as well. */
  lemma {:induction false} SortedByPermutesItems<T>(s: seq<Keyed<T>>)
    ensures multiset(Items(SortedBy(s))) == multiset(Items(s))
  {
    if s != [] {
      var init := s[..|s| - 1];
      var x := s[|s| - 1];
      SortedByPermutesItems(init);
      InsertItems(SortedBy(init), x);
      ItemsAppend(init, [x]);
      assert s == init + [x];
    }
  }
}
