/**
 * The six in-place sorts of a task list. Java sorts with List.sort, a
 * stable merge sort; the model sorts the array of tasks with a stable insertion
 * sort, each task's key computed once beforehand, and proves the
 * result sorted, a permutation of the input, and stable.
 *
 * Every comparator is modelled by a key, a sequence of integers compared
 * lexicographically (a proper prefix comes first): the priority level, the
 * date as (year, month, day), the case-folded title, or their combination.
 */
module ArrangeTaskList {
  import opened Wrappers
  import opened JavaText
  import opened Temporal
  import opened Priorities
  import opened Tasks
  import opened StableSort
  import opened Sequences

  datatype Order = ByPriority | ByDueDate | ByTitle | ByPriorityThenDate | ByNewest | ByOldest

  // ------------------------------------------------------------ keys

  /** Comparing two non-empty keys compares their heads, then their tails. */
  lemma LexLessCons(x: int, r: seq<int>, y: int, q: seq<int>)
    ensures LexLess([x] + r, [y] + q) <==> x < y || (x == y && LexLess(r, q))
  {
    assert ([x] + r)[1..] == r && ([y] + q)[1..] == q;
  }

  /** The key of a date under LocalDate.compareTo; an absent date has the empty key. */
  function DateKey(d: Option<LocalDate>): (k: seq<int>)
    ensures d.Some? ==> |k| == 3
  {
    match d
    case Some(x) => [x.year, x.month, x.day]
    case None => []
  }

  /** Comparing date keys is comparing the dates. */
  lemma DateKeyOrder(x: LocalDate, y: LocalDate)
    ensures LexLess(DateKey(Some(x)), DateKey(Some(y))) <==> DateBefore(x, y)
    ensures DateKey(Some(x)) == DateKey(Some(y)) <==> x == y
  {
    assert DateKey(Some(x)) == [x.year] + ([x.month] + ([x.day] + []));
    assert DateKey(Some(y)) == [y.year] + ([y.month] + ([y.day] + []));
    LexLessCons(x.year, [x.month] + ([x.day] + []), y.year, [y.month] + ([y.day] + []));
    LexLessCons(x.month, [x.day] + [], y.month, [y.day] + []);
    LexLessCons(x.day, [], y.day, []);
  }

  /** The comparison of Comparator.reversed(): the negated key. */
  function Negated(k: seq<int>): (r: seq<int>)
    ensures |r| == |k|
    ensures forall i :: 0 <= i < |k| ==> r[i] == -k[i]
  {
    if k == [] then [] else [-k[0]] + Negated(k[1..])
  }

  lemma {:induction false} NegatedReverses(a: seq<int>, b: seq<int>)
    requires |a| == |b|
    ensures LexLess(Negated(a), Negated(b)) <==> LexLess(b, a)
  {
    if a != [] {
      NegatedReverses(a[1..], b[1..]);
      assert Negated(a)[1..] == Negated(a[1..]) && Negated(b)[1..] == Negated(b[1..]);
    }
  }

  /** String.CASE_INSENSITIVE_ORDER compares the case-folded characters one
      by one, each as a whole Unicode code point, as JDK 16 and later do
      (earlier JDKs compare UTF-16 code units, which orders supplementary
      characters differently). */
  function TitleKey(s: string): (k: seq<int>)
    ensures |k| == |s|
    ensures forall i :: 0 <= i < |s| ==> k[i] == FoldCase(s[i]) as int
  {
    if s == [] then [] else [FoldCase(s[0]) as int] + TitleKey(s[1..])
  }

  /** The key each comparator of ArrangeTaskList compares. */
  function Key(t: Task, order: Order): seq<int>
    reads t
  {
    match order
    case ByPriority => [t.priority.Level()]
    case ByDueDate => DateKey(t.dueDate)
    case ByTitle => TitleKey(t.title)
    case ByPriorityThenDate => [t.priority.Level()] + DateKey(t.dueDate)
    case ByNewest => Negated(DateKey(Some(t.createdAt)))
    case ByOldest => DateKey(Some(t.createdAt))
  }

  // ------------------------------------------------- the sorting method

  /** The tasks of s, each paired with its key under `order`. */
  function KeyedBy(s: seq<Task>, order: Order): (r: seq<Keyed<Task>>)
    reads s
    ensures |r| == |s|
    ensures forall i :: 0 <= i < |s| ==> r[i] == Keyed(s[i], Key(s[i], order))
  {
    seq(|s|, i requires 0 <= i < |s| reads s => Keyed(s[i], Key(s[i], order)))
  }

  /** List.sort with the comparator of `order`, in place: the tasks end up
      in the order of the stable sort of their keys. Each task's key is
      computed once, beside the array; the comparators read only fields
      that sorting does not change, so this is the comparison Java makes. */
  method Sort(a: array<Task>, order: Order)
    modifies a
    ensures KeyedBy(a[..], order) == SortedBy(old(KeyedBy(a[..], order)))
  {
    var g := KeyedBy(a[..], order);
    ghost var g0 := g;
    var i := 0;
    while i < a.Length
      invariant 0 <= i <= a.Length && |g| == a.Length
      invariant forall m :: 0 <= m < a.Length ==> a[m] == g[m].item
      invariant g[..i] == SortedBy(g0[..i])
      invariant g[i..] == g0[i..]
    {
      SuffixStep(g, g0, i);
      SortedByStep(g0, i);
      g := InsertNext(a, g, i);
      i := i + 1;
    }
    assert g0[..a.Length] == g0 && g[..a.Length] == g;
    SortedKeyed(a[..], g, g0, order);
  }

  /** Tasks laid out as the stable sort of correctly keyed tasks are keyed by that sort. */
  lemma SortedKeyed(u: seq<Task>, g: seq<Keyed<Task>>, g0: seq<Keyed<Task>>, order: Order)
    requires forall m :: 0 <= m < |g0| ==> g0[m].key == Key(g0[m].item, order)
    requires g == SortedBy(g0) && |u| == |g|
    requires forall m :: 0 <= m < |u| ==> u[m] == g[m].item
    ensures KeyedBy(u, order) == g
  {
    SortedByIsPermutation(g0);
    MultisetKeys(g0, g, order);
    KeyedByIs(u, g, order);
  }

  /** One step of the insertion sort: a[i] moves left past every task whose
      key is greater than its own, and g, the tasks with their keys, moves alike. */
  method InsertNext(a: array<Task>, g: seq<Keyed<Task>>, i: int) returns (h: seq<Keyed<Task>>)
    requires 0 <= i < a.Length == |g|
    requires forall m :: 0 <= m < a.Length ==> a[m] == g[m].item
    modifies a
    ensures |h| == |g|
    ensures forall m :: 0 <= m < a.Length ==> a[m] == h[m].item
    ensures h[..i + 1] == Insert(g[..i], g[i]) && h[i + 1..] == g[i + 1..]
  {
    var x := a[i];
    var kx := g[i];
    // p is where the stable insertion puts x
    ghost var p := InsertShape(g[..i], kx);
    var j := MakeRoom(a, g, i, p);
    a[j] := x;
    var front := g[..j] + [kx] + g[j..i];
    assert g[..i][..j] == g[..j] && g[..i][j..] == g[j..i];
    h := front + g[i + 1..];
    assert h[..i + 1] == front && h[i + 1..] == g[i + 1..];
    forall m | 0 <= m < a.Length
      ensures a[m] == h[m].item
    {
      if m <= i {
        assert h[m] == front[m];
        if m > j {
          assert front[m] == g[j..i][m - j - 1] == g[m - 1];
        }
      } else {
        assert h[m] == g[i + 1..][m - i - 1] == g[m];
      }
    }
  }

  /** The shifting loop of the insertion step: every task before a[i] whose
      key is greater than a[i]'s moves one place right, leaving room at p. */
  method MakeRoom(a: array<Task>, g: seq<Keyed<Task>>, i: int, ghost p: int) returns (j: int)
    requires 0 <= p <= i < a.Length == |g|
    requires forall m :: 0 <= m < a.Length ==> a[m] == g[m].item
    requires forall m :: p <= m < i ==> LexLess(g[i].key, g[m].key)
    requires p > 0 ==> !LexLess(g[i].key, g[p - 1].key)
    modifies a
    ensures j == p
    ensures forall m :: 0 <= m < j ==> a[m] == g[m].item
    ensures forall m :: j < m <= i ==> a[m] == g[m - 1].item
    ensures forall m :: i < m < a.Length ==> a[m] == g[m].item
  {
    j := i;
    // the tasks before j are still in place, so g[j - 1] holds a[j - 1] and its key
    while j > 0 && LexLess(g[i].key, g[j - 1].key)
      invariant p <= j <= i
      invariant forall m :: 0 <= m < j ==> a[m] == g[m].item
      invariant forall m :: j < m <= i ==> a[m] == g[m - 1].item
      invariant forall m :: i < m < a.Length ==> a[m] == g[m].item
    {
      a[j] := a[j - 1];
      j := j - 1;
    }
  }

  /** A permutation of key pairs that match their tasks matches them too. */
  lemma MultisetKeys(s: seq<Keyed<Task>>, r: seq<Keyed<Task>>, order: Order)
    requires multiset(r) == multiset(s)
    requires forall m :: 0 <= m < |s| ==> s[m].key == Key(s[m].item, order)
    ensures forall m :: 0 <= m < |r| ==> r[m].key == Key(r[m].item, order)
  {
    forall m | 0 <= m < |r|
      ensures r[m].key == Key(r[m].item, order)
    {
      assert r[m] in multiset(s);
    }
  }

  /** A sequence that pairs every task of u with its key is KeyedBy(u). */
  lemma KeyedByIs(u: seq<Task>, r: seq<Keyed<Task>>, order: Order)
    requires |u| == |r|
    requires forall m :: 0 <= m < |u| ==> r[m] == Keyed(u[m], Key(u[m], order))
    ensures KeyedBy(u, order) == r
  {
  }

  /** No task's key is smaller than the key of a task before it. */
  ghost predicate KeysAscend(s: seq<Task>, order: Order)
    reads s
  {
    forall i, j :: 0 <= i < j < |s| ==> !LexLess(Key(s[j], order), Key(s[i], order))
  }

  /** What every sort guarantees: the keys ascend, the tasks are permuted,
      and the tasks with equal keys keep their relative order. */
  lemma SortOutcome(s: seq<Task>, before: seq<Keyed<Task>>, order: Order)
    requires KeyedBy(s, order) == SortedBy(before)
    ensures KeysAscend(s, order)
    ensures multiset(s) == multiset(Items(before))
    ensures forall k :: WithKey(KeyedBy(s, order), k) == WithKey(before, k)
  {
    var r := KeyedBy(s, order);
    SortedByIsSorted(before);
    assert IsSorted(r);
    forall i, j | 0 <= i < j < |s|
      ensures !LexLess(Key(s[j], order), Key(s[i], order))
    {
      assert r[i].key == Key(s[i], order) && r[j].key == Key(s[j], order);
    }
    SortedByPermutesItems(before);
    KeyedItems(s, order);
    forall k
      ensures WithKey(r, k) == WithKey(before, k)
    {
      SortedByIsStable(before, k);
    }
  }

  lemma KeyedItems(s: seq<Task>, order: Order)
    ensures Items(KeyedBy(s, order)) == s
  {
    var r := Items(KeyedBy(s, order));
    assert |r| == |s|;
    forall i | 0 <= i < |s| ensures r[i] == s[i] { }
  }

  // -------------------------------------- what each key order means

  /** Ascending priority keys are non-decreasing levels. */
  lemma LevelsAscend(s: seq<Task>)
    requires KeysAscend(s, ByPriority)
    ensures forall i, j :: 0 <= i < j < |s| ==> s[i].priority.Level() <= s[j].priority.Level()
  {
    forall i, j | 0 <= i < j < |s|
      ensures s[i].priority.Level() <= s[j].priority.Level()
    {
      var li, lj := s[i].priority.Level(), s[j].priority.Level();
      assert !LexLess(Key(s[j], ByPriority), Key(s[i], ByPriority));
      LexLessCons(lj, [], li, []);
    }
  }

  /** Ascending due-date keys of tasks that all have due dates are ascending due dates. */
  lemma DueDatesAscend(s: seq<Task>)
    requires KeysAscend(s, ByDueDate)
    requires forall i :: 0 <= i < |s| ==> s[i].dueDate.Some?
    ensures forall i, j :: 0 <= i < j < |s| ==> !DateBefore(s[j].dueDate.value, s[i].dueDate.value)
  {
    forall i, j | 0 <= i < j < |s|
      ensures !DateBefore(s[j].dueDate.value, s[i].dueDate.value)
    {
      assert !LexLess(Key(s[j], ByDueDate), Key(s[i], ByDueDate));
      DateKeyOrder(s[j].dueDate.value, s[i].dueDate.value);
    }
  }

  /** Ascending title keys are titles ascending under CASE_INSENSITIVE_ORDER. */
  lemma TitlesAscend(s: seq<Task>)
    requires KeysAscend(s, ByTitle)
    ensures forall i, j :: 0 <= i < j < |s| ==> !LexLess(TitleKey(s[j].title), TitleKey(s[i].title))
  {
    forall i, j | 0 <= i < j < |s|
      ensures !LexLess(TitleKey(s[j].title), TitleKey(s[i].title))
    {
      assert !LexLess(Key(s[j], ByTitle), Key(s[i], ByTitle));
    }
  }

  /** Ascending combined keys are levels ascending, then due dates ascending
      among tasks of one level, when those tasks have due dates. */
  lemma LevelsThenDatesAscend(s: seq<Task>)
    requires KeysAscend(s, ByPriorityThenDate)
    ensures forall i, j :: 0 <= i < j < |s| ==> s[i].priority.Level() <= s[j].priority.Level()
    ensures forall i, j :: (0 <= i < j < |s| && s[i].priority.Level() == s[j].priority.Level()
              && s[i].dueDate.Some? && s[j].dueDate.Some?)
              ==> !DateBefore(s[j].dueDate.value, s[i].dueDate.value)
  {
    forall i, j | 0 <= i < j < |s|
      ensures s[i].priority.Level() <= s[j].priority.Level()
      ensures (s[i].priority.Level() == s[j].priority.Level()
              && s[i].dueDate.Some? && s[j].dueDate.Some?)
              ==> !DateBefore(s[j].dueDate.value, s[i].dueDate.value)
    {
      var li, lj := s[i].priority.Level(), s[j].priority.Level();
      var di, dj := DateKey(s[i].dueDate), DateKey(s[j].dueDate);
      assert !LexLess(Key(s[j], ByPriorityThenDate), Key(s[i], ByPriorityThenDate));
      LexLessCons(lj, dj, li, di);
      if li == lj && s[i].dueDate.Some? && s[j].dueDate.Some? {
        DateKeyOrder(s[j].dueDate.value, s[i].dueDate.value);
      }
    }
  }

  /** Ascending newest-first keys are creation days descending. */
  lemma CreationDaysDescend(s: seq<Task>)
    requires KeysAscend(s, ByNewest)
    ensures forall i, j :: 0 <= i < j < |s| ==> !DateBefore(s[i].createdAt, s[j].createdAt)
  {
    forall i, j | 0 <= i < j < |s|
      ensures !DateBefore(s[i].createdAt, s[j].createdAt)
    {
      assert !LexLess(Key(s[j], ByNewest), Key(s[i], ByNewest));
      NegatedReverses(DateKey(Some(s[j].createdAt)), DateKey(Some(s[i].createdAt)));
      DateKeyOrder(s[i].createdAt, s[j].createdAt);
    }
  }

  /** Ascending oldest-first keys are creation days ascending. */
  lemma CreationDaysAscend(s: seq<Task>)
    requires KeysAscend(s, ByOldest)
    ensures forall i, j :: 0 <= i < j < |s| ==> !DateBefore(s[j].createdAt, s[i].createdAt)
  {
    forall i, j | 0 <= i < j < |s|
      ensures !DateBefore(s[j].createdAt, s[i].createdAt)
    {
      assert !LexLess(Key(s[j], ByOldest), Key(s[i], ByOldest));
      DateKeyOrder(s[j].createdAt, s[i].createdAt);
    }
  }

  /** Every task of a permutation of tasks that all have due dates has one. */
  lemma PermutedDueDates(s0: seq<Task>, s: seq<Task>)
    requires multiset(s) == multiset(s0)
    requires forall i :: 0 <= i < |s0| ==> s0[i].dueDate.Some?
    ensures forall i :: 0 <= i < |s| ==> s[i].dueDate.Some?
  {
    forall i | 0 <= i < |s| ensures s[i].dueDate.Some? {
      assert s[i] in multiset(s0);
    }
  }

  /** "Any two tasks of one level at different positions have due dates"
      survives a permutation. */
  lemma PermutedSameLevelDates(s0: seq<Task>, s: seq<Task>)
    requires multiset(s) == multiset(s0)
    requires SameLevelDated(s0)
    ensures SameLevelDated(s)
  {
    forall i, j | 0 <= i < |s| && 0 <= j < |s| && i != j && s[i].priority.Level() == s[j].priority.Level()
      ensures s[i].dueDate.Some?
    {
      if i < j {
        SameLevelHasDates(s0, s, i, j);
      } else {
        SameLevelHasDates(s0, s, j, i);
      }
    }
  }

  /** Any two tasks of one level at different positions have due dates:
      the comparator of sortByPriorityThenDate compares their dates. */
  ghost predicate SameLevelDated(s: seq<Task>)
    reads s
  {
    forall i, j :: (0 <= i < |s| && 0 <= j < |s| && i != j
      && s[i].priority.Level() == s[j].priority.Level()) ==> s[i].dueDate.Some?
  }

  /** In a permutation, two positions of the same task come from two positions of the original. */
  lemma SameLevelHasDates(before: seq<Task>, after: seq<Task>, i: int, j: int)
    requires multiset(after) == multiset(before)
    requires SameLevelDated(before)
    requires 0 <= i < j < |after|
    requires after[i].priority.Level() == after[j].priority.Level()
    ensures after[i].dueDate.Some? && after[j].dueDate.Some?
  {
    assert after[i] in multiset(before);
    var p :| 0 <= p < |before| && before[p] == after[i];
    assert after[j] in multiset(before);
    if after[i] == after[j] {
      var q := SecondOccurrence(before, after, i, j, p);
      assert before[q] == after[i];
    } else {
      var q :| 0 <= q < |before| && before[q] == after[j];
      assert p != q;
    }
  }

  /** A task at two positions of a permutation also occurs at a second position of the original. */
  lemma SecondOccurrence<T>(before: seq<T>, after: seq<T>, i: int, j: int, p: int) returns (q: int)
    requires multiset(after) == multiset(before)
    requires 0 <= i < j < |after| && after[i] == after[j]
    requires 0 <= p < |before| && before[p] == after[i]
    ensures 0 <= q < |before| && q != p && before[q] == after[i]
  {
    var m := multiset(after);
    assert m[after[i]] >= 2 by {
      assert after == after[..j] + [after[j]] + after[j + 1..];
      assert after[i] in multiset(after[..j]) by { assert after[..j][i] == after[i]; }
    }
    var rest := before[..p] + before[p + 1..];
    assert before == before[..p] + [before[p]] + before[p + 1..];
    assert after[i] in multiset(rest);
    var q' :| 0 <= q' < |rest| && rest[q'] == after[i];
    q := if q' < p then q' else q' + 1;
  }

  // ------------------------------------------------- the six operations

  /** sortByPriority: levels ascending, stable. */
  method SortByPriority(a: array<Task>)
    modifies a
    ensures KeyedBy(a[..], ByPriority) == SortedBy(old(KeyedBy(a[..], ByPriority)))
    ensures multiset(a[..]) == multiset(old(a[..]))
    ensures forall i, j :: 0 <= i < j < a.Length ==> a[i].priority.Level() <= a[j].priority.Level()
    ensures forall k :: WithKey(KeyedBy(a[..], ByPriority), k) == WithKey(old(KeyedBy(a[..], ByPriority)), k)
  {
    ghost var before := KeyedBy(a[..], ByPriority);
    KeyedItems(a[..], ByPriority);
    Sort(a, ByPriority);
    SortOutcome(a[..], before, ByPriority);
    LevelsAscend(a[..]);
  }

  /** Every two tasks have due dates, the later one's not before the earlier one's. */
  ghost predicate DueDatesAscending(s: seq<Task>)
    reads s
  {
    forall i, j :: 0 <= i < j < |s| ==>
      s[i].dueDate.Some? && s[j].dueDate.Some?
      && !DateBefore(s[j].dueDate.value, s[i].dueDate.value)
  }

  /** Sorting by due date leaves the due dates ascending, given the tasks
      with their keys before the sort (when there are two or more, all have
      due dates). */
  lemma DueDatesSorted(s: seq<Task>, before: seq<Keyed<Task>>)
    requires |before| >= 2 ==> forall i :: 0 <= i < |before| ==> before[i].item.dueDate.Some?
    requires KeyedBy(s, ByDueDate) == SortedBy(before)
    ensures DueDatesAscending(s)
  {
    SortOutcome(s, before, ByDueDate);
    if |s| >= 2 {
      var s0 := Items(before);
      assert forall i :: 0 <= i < |s0| ==> s0[i].dueDate.Some?;
      PermutedDueDates(s0, s);
      DueDatesAscend(s);
    }
  }

  /** sortByDueDate: due dates ascending, stable. With two or more tasks the
      comparator reads every due date, and a missing one makes it throw. */
  method SortByDueDate(a: array<Task>)
    requires a.Length >= 2 ==> forall i :: 0 <= i < a.Length ==> a[i].dueDate.Some?
    modifies a
    ensures KeyedBy(a[..], ByDueDate) == SortedBy(old(KeyedBy(a[..], ByDueDate)))
    ensures multiset(a[..]) == multiset(old(a[..]))
    ensures DueDatesAscending(a[..])
    ensures forall k :: WithKey(KeyedBy(a[..], ByDueDate), k) == WithKey(old(KeyedBy(a[..], ByDueDate)), k)
  {
    ghost var before := KeyedBy(a[..], ByDueDate);
    KeyedItems(a[..], ByDueDate);
    Sort(a, ByDueDate);
    SortOutcome(a[..], before, ByDueDate);
    DueDatesSorted(a[..], before);
  }

  /** sortByTitle: titles ascending ignoring case, stable. */
  method SortByTitle(a: array<Task>)
    modifies a
    ensures KeyedBy(a[..], ByTitle) == SortedBy(old(KeyedBy(a[..], ByTitle)))
    ensures multiset(a[..]) == multiset(old(a[..]))
    ensures forall i, j :: 0 <= i < j < a.Length ==> !LexLess(TitleKey(a[j].title), TitleKey(a[i].title))
    ensures forall k :: WithKey(KeyedBy(a[..], ByTitle), k) == WithKey(old(KeyedBy(a[..], ByTitle)), k)
  {
    ghost var before := KeyedBy(a[..], ByTitle);
    KeyedItems(a[..], ByTitle);
    Sort(a, ByTitle);
    SortOutcome(a[..], before, ByTitle);
    TitlesAscend(a[..]);
  }

  /** Levels ascend, and every two tasks of one level have due dates, the
      later one's not before the earlier one's. */
  ghost predicate LevelsThenDatesAscending(s: seq<Task>)
    reads s
  {
    && (forall i, j :: 0 <= i < j < |s| ==> s[i].priority.Level() <= s[j].priority.Level())
    && (forall i, j :: 0 <= i < j < |s| && s[i].priority.Level() == s[j].priority.Level() ==>
          s[i].dueDate.Some? && s[j].dueDate.Some?
          && !DateBefore(s[j].dueDate.value, s[i].dueDate.value))
  }

  /** Sorting by level, then due date, leaves the levels ascending and the
      due dates ascending within a level, given the tasks with their keys
      before the sort. */
  lemma LevelsThenDatesSorted(s: seq<Task>, before: seq<Keyed<Task>>)
    requires SameLevelDated(Items(before))
    requires KeyedBy(s, ByPriorityThenDate) == SortedBy(before)
    ensures LevelsThenDatesAscending(s)
  {
    SortOutcome(s, before, ByPriorityThenDate);
    LevelsThenDatesAscend(s);
    PermutedSameLevelDates(Items(before), s);
  }

  /** sortByPriorityThenDate: levels ascending, and due dates ascending among
      equal levels, stable. Due dates are compared only between tasks of
      equal level, so those must have one. */
  method SortByPriorityThenDate(a: array<Task>)
    requires SameLevelDated(a[..])
    modifies a
    ensures KeyedBy(a[..], ByPriorityThenDate) == SortedBy(old(KeyedBy(a[..], ByPriorityThenDate)))
    ensures multiset(a[..]) == multiset(old(a[..]))
    ensures LevelsThenDatesAscending(a[..])
    ensures forall k :: WithKey(KeyedBy(a[..], ByPriorityThenDate), k)
                     == WithKey(old(KeyedBy(a[..], ByPriorityThenDate)), k)
  {
    ghost var before := KeyedBy(a[..], ByPriorityThenDate);
    KeyedItems(a[..], ByPriorityThenDate);
    Sort(a, ByPriorityThenDate);
    SortOutcome(a[..], before, ByPriorityThenDate);
    LevelsThenDatesSorted(a[..], before);
  }

  /** sortByNewest: creation days descending, stable. */
  method SortByNewest(a: array<Task>)
    modifies a
    ensures KeyedBy(a[..], ByNewest) == SortedBy(old(KeyedBy(a[..], ByNewest)))
    ensures multiset(a[..]) == multiset(old(a[..]))
    ensures forall i, j :: 0 <= i < j < a.Length ==> !DateBefore(a[i].createdAt, a[j].createdAt)
    ensures forall k :: WithKey(KeyedBy(a[..], ByNewest), k) == WithKey(old(KeyedBy(a[..], ByNewest)), k)
  {
    ghost var before := KeyedBy(a[..], ByNewest);
    KeyedItems(a[..], ByNewest);
    Sort(a, ByNewest);
    SortOutcome(a[..], before, ByNewest);
    CreationDaysDescend(a[..]);
  }

  /** sortByOldest: creation days ascending, stable. */
  method SortByOldest(a: array<Task>)
    modifies a
    ensures KeyedBy(a[..], ByOldest) == SortedBy(old(KeyedBy(a[..], ByOldest)))
    ensures multiset(a[..]) == multiset(old(a[..]))
    ensures forall i, j :: 0 <= i < j < a.Length ==> !DateBefore(a[j].createdAt, a[i].createdAt)
    ensures forall k :: WithKey(KeyedBy(a[..], ByOldest), k) == WithKey(old(KeyedBy(a[..], ByOldest)), k)
  {
    ghost var before := KeyedBy(a[..], ByOldest);
    KeyedItems(a[..], ByOldest);
    Sort(a, ByOldest);
    SortOutcome(a[..], before, ByOldest);
    CreationDaysAscend(a[..]);
  }
}
