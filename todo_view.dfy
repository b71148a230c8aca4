/**
  The two derived views of TodoViewModel.swift: `categories`, the distinct
  categories in ascending order, and `filteredTodos`, the collection filtered
  by category, then by search text, then sorted by the selected `SortOption`.

  `sorted(by:)` is modelled by insertion sort. The model promises what that
  call promises for a strict weak ordering: the result is a permutation of
  its input, no element is placed after one that the comparator puts behind
  it, and the sort is stable: tasks that tie keep their original order.
 */
module TodoView {
  import opened Wrappers
  import opened Text
  import opened TodoModel

  datatype SortOption = ByDateCreated | ByDueDate | ByPriority | Alphabetical

  /** The closure passed to `sorted(by:)`: `a` must come before `b`. No task comes before itself. */
  function Before(opt: SortOption, a: Todo, b: Todo): (r: bool)
    ensures r ==> a != b
  {
    match opt
    case ByDateCreated => a.dateCreated > b.dateCreated
    case ByDueDate =>
      if a.dueDate.Some? && b.dueDate.Some? then a.dueDate.value < b.dueDate.value
      else a.dueDate.Some?
    case ByPriority => Less(RawValue(b.priority), RawValue(a.priority))
    case Alphabetical => Less(a.title, b.title)
  }

  /**
    Where a priority lands when raw values are sorted in descending text
    order: "Medium" > "Low" > "High", because 'M' > 'L' > 'H'.
   */
  function RawRank(p: Priority): nat
  {
    match p
    case Medium => 0
    case Low => 1
    case High => 2
  }

  /** The raw-value comparison is exactly the order of `RawRank`. */
  lemma PriorityBeforeIsRawRank(a: Todo, b: Todo)
    ensures Before(ByPriority, a, b) <==> RawRank(a.priority) < RawRank(b.priority)
  {
    assert Less("High", "Low") && Less("High", "Medium") && Less("Low", "Medium");
    LessIrreflexive(RawValue(a.priority));
    if Less(RawValue(b.priority), RawValue(a.priority)) {
      LessAsymmetric(RawValue(b.priority), RawValue(a.priority));
    }
  }

  // ---- the comparator is a strict weak ordering ----

  lemma BeforeIrreflexive(opt: SortOption, a: Todo)
    ensures !Before(opt, a, a)
  {
    LessIrreflexive(a.title);
    LessIrreflexive(RawValue(a.priority));
  }

  lemma BeforeAsymmetric(opt: SortOption, a: Todo, b: Todo)
    requires Before(opt, a, b)
    ensures !Before(opt, b, a)
  {
    match opt
    case ByPriority => PriorityBeforeIsRawRank(a, b); PriorityBeforeIsRawRank(b, a);
    case Alphabetical => LessAsymmetric(a.title, b.title);
    case _ =>
  }

  /** "Not behind" is transitive, so ties are an equivalence and sorting is well defined. */
  lemma NotBeforeTransitive(opt: SortOption, a: Todo, b: Todo, c: Todo)
    requires !Before(opt, b, a) && !Before(opt, c, b)
    ensures !Before(opt, c, a)
  {
    match opt
    case ByPriority =>
      PriorityBeforeIsRawRank(b, a); PriorityBeforeIsRawRank(c, b); PriorityBeforeIsRawRank(c, a);
    case Alphabetical => NotLessTransitive(a.title, b.title, c.title);
    case _ =>
  }

  lemma BeforeTransitive(opt: SortOption, a: Todo, b: Todo, c: Todo)
    requires Before(opt, a, b) && Before(opt, b, c)
    ensures Before(opt, a, c)
  {
    match opt
    case ByPriority =>
      PriorityBeforeIsRawRank(a, b); PriorityBeforeIsRawRank(b, c); PriorityBeforeIsRawRank(a, c);
    case Alphabetical => LessTransitive(a.title, b.title, c.title);
    case _ =>
  }

  /** No element is followed by one that the comparator puts before it. */
  predicate Sorted(opt: SortOption, s: seq<Todo>)
  {
    forall i, j :: 0 <= i < j < |s| ==> !Before(opt, s[j], s[i])
  }

  // ---- sorting ----

  function Insert(opt: SortOption, x: Todo, s: seq<Todo>): (r: seq<Todo>)
    ensures multiset(r) == multiset(s) + multiset{x}
  {
    if s == [] then [x]
    else if Before(opt, s[0], x) then
      assert s == [s[0]] + s[1..];
      [s[0]] + Insert(opt, x, s[1..])
    else [x] + s
  }

  /** `sorted(by:)`. */
  function Sort(opt: SortOption, s: seq<Todo>): (r: seq<Todo>)
    ensures multiset(r) == multiset(s)
  {
    if s == [] then []
    else
      assert s == [s[0]] + s[1..];
      Insert(opt, s[0], Sort(opt, s[1..]))
  }

  lemma {:induction false} InsertSorted(opt: SortOption, x: Todo, s: seq<Todo>)
    requires Sorted(opt, s)
    ensures Sorted(opt, Insert(opt, x, s))
  {
    var r := Insert(opt, x, s);
    if s == [] {
    } else if Before(opt, s[0], x) {
      var rest := Insert(opt, x, s[1..]);
      InsertSorted(opt, x, s[1..]);
      BeforeAsymmetric(opt, s[0], x);
      forall j | 0 <= j < |rest| ensures !Before(opt, rest[j], s[0]) {
        assert rest[j] in multiset(rest);
        if rest[j] != x {
          assert rest[j] in multiset(s[1..]);
          var k :| 0 <= k < |s[1..]| && s[1..][k] == rest[j];
          assert s[k + 1] == rest[j];
        }
      }
    } else {
      forall i, j | 0 <= i < j < |r| ensures !Before(opt, r[j], r[i]) {
        if i == 0 && j > 1 {
          assert r[j] == s[j - 1];
          NotBeforeTransitive(opt, x, s[0], s[j - 1]);
        }
      }
    }
  }

  lemma {:induction false} SortSorted(opt: SortOption, s: seq<Todo>)
    ensures Sorted(opt, Sort(opt, s))
  {
    if s != [] {
      SortSorted(opt, s[1..]);
      InsertSorted(opt, s[0], Sort(opt, s[1..]));
    }
  }

  // ---- filtering ----

  /** A task the view shows: in the selected category (if any) and matching the search (if any). */
  predicate Shown(t: Todo, search: string, category: Option<string>)
  {
    && (category.None? || t.category == category.value)
    && (search == [] || ContainsIgnoringCase(t.title, search))
  }

  /** The closures passed to `filter`: each filter step, and both at once. */
  function InCategory(category: string): Todo -> bool
  {
    (t: Todo) => t.category == category
  }

  function TitleMatches(search: string): Todo -> bool
  {
    (t: Todo) => ContainsIgnoringCase(t.title, search)
  }

  function ShownBy(search: string, selected: Option<string>): Todo -> bool
  {
    (t: Todo) => Shown(t, search, selected)
  }

  /** `filter`: the tasks satisfying the condition, in their original order. */
  function Where(ts: seq<Todo>, k: Todo -> bool): (r: seq<Todo>)
    ensures forall t :: t in r ==> k(t)
    ensures forall t :: multiset(r)[t] == if k(t) then multiset(ts)[t] else 0
  {
    if ts == [] then []
    else
      var rest := Where(ts[1..], k);
      assert ts == [ts[0]] + ts[1..];
      if k(ts[0]) then [ts[0]] + rest else rest
  }

  /** The reference selection: one pass over the collection with both conditions. */
  function Selection(ts: seq<Todo>, search: string, category: Option<string>): seq<Todo>
  {
    Where(ts, ShownBy(search, category))
  }

  /** The two filter steps of `filteredTodos`, before sorting. */
  function FilterSteps(ts: seq<Todo>, search: string, category: Option<string>): (r: seq<Todo>)
    ensures forall t :: t in r ==> t in ts && Shown(t, search, category)
  {
    var byCategory := if category.Some? then Where(ts, InCategory(category.value)) else ts;
    if search != [] then Where(byCategory, TitleMatches(search)) else byCategory
  }

  /** `filteredTodos`. */
  function Filtered(ts: seq<Todo>, search: string, category: Option<string>, opt: SortOption): (r: seq<Todo>)
    ensures Sorted(opt, r)
    ensures forall t :: t in r ==> t in ts && Shown(t, search, category)
  {
    var steps := FilterSteps(ts, search, category);
    SortSorted(opt, steps);
    assert forall t :: t in Sort(opt, steps) ==> t in multiset(steps);
    Sort(opt, steps)
  }

  /** Filtering twice is filtering once by a condition that implies both. */
  lemma {:induction false} WhereWhere(ts: seq<Todo>, p: Todo -> bool, q: Todo -> bool, pq: Todo -> bool)
    requires forall t :: pq(t) == (p(t) && q(t))
    ensures Where(Where(ts, p), q) == Where(ts, pq)
  {
    if ts != [] {
      WhereWhere(ts[1..], p, q, pq);
    }
  }

  /** Filtering by a condition every task of the list meets changes nothing. */
  lemma {:induction false} WhereAll(ts: seq<Todo>, k: Todo -> bool)
    requires forall t :: t in ts ==> k(t)
    ensures Where(ts, k) == ts
  {
    if ts != [] {
      assert forall t :: t in ts[1..] ==> t in ts;
      WhereAll(ts[1..], k);
    }
  }

  /** Filtering distributes over concatenation, so the kept tasks keep their original order. */
  lemma {:induction false} WhereAppend(a: seq<Todo>, b: seq<Todo>, k: Todo -> bool)
    ensures Where(a + b, k) == Where(a, k) + Where(b, k)
  {
    if a == [] {
      assert a + b == b;
    } else {
      assert (a + b)[0] == a[0] && (a + b)[1..] == a[1..] + b;
      WhereAppend(a[1..], b, k);
    }
  }

  lemma WhereCons(x: Todo, s: seq<Todo>, k: Todo -> bool)
    ensures Where([x] + s, k) == (if k(x) then [x] else []) + Where(s, k)
  {
    assert ([x] + s)[1..] == s;
  }

  /** Filtering by a condition that agrees with another on every task gives the same list. */
  lemma {:induction false} WhereSame(ts: seq<Todo>, p: Todo -> bool, q: Todo -> bool)
    requires forall t :: p(t) == q(t)
    ensures Where(ts, p) == Where(ts, q)
  {
    if ts != [] {
      WhereSame(ts[1..], p, q);
    }
  }

  /**
    Filtering by category and then by search text keeps exactly the
    reference selection, in the collection's order: the filters never reorder.
   */
  lemma FilterStepsAreSelection(ts: seq<Todo>, search: string, category: Option<string>)
    ensures FilterSteps(ts, search, category) == Selection(ts, search, category)
  {
    var shown := ShownBy(search, category);
    if category.Some? && search != [] {
      WhereWhere(ts, InCategory(category.value), TitleMatches(search), shown);
    } else if category.Some? {
      WhereSame(ts, InCategory(category.value), shown);
    } else if search != [] {
      WhereSame(ts, TitleMatches(search), shown);
    } else {
      WhereAll(ts, shown);
    }
  }

  /**
    `filteredTodos` is a permutation of the reference selection, every task in
    it passes both filters, and it is ordered under the chosen comparator.
   */
  lemma FilteredSpec(ts: seq<Todo>, search: string, category: Option<string>, opt: SortOption)
    ensures var r := Filtered(ts, search, category, opt);
      && multiset(r) == multiset(Selection(ts, search, category))
      && (forall t :: t in r ==> t in ts && Shown(t, search, category))
      && Sorted(opt, r)
  {
    var r := Filtered(ts, search, category, opt);
    FilterStepsAreSelection(ts, search, category);
    SortSorted(opt, FilterSteps(ts, search, category));
    forall t | t in r ensures t in ts && Shown(t, search, category) {
      assert t in multiset(r);
    }
  }

  /** What "ordered" means for each of the four sort options. */
  lemma FilteredOrder(ts: seq<Todo>, search: string, category: Option<string>, opt: SortOption)
    ensures var r := Filtered(ts, search, category, opt);
      forall i, j :: 0 <= i < j < |r| ==>
        && (opt == ByDateCreated ==> r[i].dateCreated >= r[j].dateCreated)
        && (opt == Alphabetical ==> !Less(r[j].title, r[i].title))
        && (opt == ByDueDate ==> r[j].dueDate.Some? ==>
              r[i].dueDate.Some? && r[i].dueDate.value <= r[j].dueDate.value)
        && (opt == ByPriority ==> RawRank(r[i].priority) <= RawRank(r[j].priority))
  {
    var r := Filtered(ts, search, category, opt);
    FilteredSpec(ts, search, category, opt);
    forall i, j | 0 <= i < j < |r| && opt == ByPriority
      ensures RawRank(r[i].priority) <= RawRank(r[j].priority)
    {
      PriorityBeforeIsRawRank(r[j], r[i]);
    }
  }

  // ---- stability ----

  /** The tasks that tie with `y`: the comparator puts neither before the other. */
  function TiedWith(opt: SortOption, y: Todo): Todo -> bool
  {
    (t: Todo) => !Before(opt, t, y) && !Before(opt, y, t)
  }

  /** A condition none of whose tasks the comparator puts before another, such as a tie class. */
  ghost predicate Unordered(opt: SortOption, k: Todo -> bool)
  {
    forall a, b :: k(a) && k(b) ==> !Before(opt, a, b)
  }

  lemma TiesUnordered(opt: SortOption, y: Todo)
    ensures Unordered(opt, TiedWith(opt, y))
  {
    forall a, b | TiedWith(opt, y)(a) && TiedWith(opt, y)(b) ensures !Before(opt, a, b) {
      NotBeforeTransitive(opt, b, y, a);
    }
  }

  /**
    Inserting `x` places it before every task that the comparator does not
    separate from it: among the tasks meeting an unordered condition, the
    result lists them in the order of `[x] + s`.
   */
  lemma {:induction false} InsertStable(opt: SortOption, x: Todo, s: seq<Todo>, k: Todo -> bool)
    requires Unordered(opt, k)
    ensures Where(Insert(opt, x, s), k) == Where([x] + s, k)
  {
    if s != [] && Before(opt, s[0], x) {
      var t := s[1..];
      InsertStable(opt, x, t, k);
      InsertPast(opt, x, s);
      WhereCons(s[0], Insert(opt, x, t), k);
      assert !(k(s[0]) && k(x));
      WhereSwap(s[0], x, t, k);
      assert [s[0]] + t == s;
    }
  }

  lemma InsertPast(opt: SortOption, x: Todo, s: seq<Todo>)
    requires s != [] && Before(opt, s[0], x)
    ensures Insert(opt, x, s) == [s[0]] + Insert(opt, x, s[1..])
  {
  }

  /** Two tasks that do not both meet the condition can swap places without changing the filter. */
  lemma WhereSwap(a: Todo, b: Todo, t: seq<Todo>, k: Todo -> bool)
    requires !(k(a) && k(b))
    ensures (if k(a) then [a] else []) + Where([b] + t, k) == Where([b] + ([a] + t), k)
  {
    WhereCons(b, t, k);
    WhereCons(a, t, k);
    WhereCons(b, [a] + t, k);
  }

  /** Sorting keeps the order of the tasks meeting an unordered condition. */
  lemma {:induction false} SortKeepsUnordered(opt: SortOption, s: seq<Todo>, k: Todo -> bool)
    requires Unordered(opt, k)
    ensures Where(Sort(opt, s), k) == Where(s, k)
  {
    if s != [] {
      SortKeepsUnordered(opt, s[1..], k);
      InsertStable(opt, s[0], Sort(opt, s[1..]), k);
      WhereCons(s[0], Sort(opt, s[1..]), k);
      assert s == [s[0]] + s[1..];
      WhereCons(s[0], s[1..], k);
    }
  }

  /**
    `sorted(by:)` is stable: within every tie class, the sorted list keeps
    the tasks in their original order.
   */
  lemma SortStable(opt: SortOption, s: seq<Todo>, y: Todo)
    ensures Where(Sort(opt, s), TiedWith(opt, y)) == Where(s, TiedWith(opt, y))
  {
    TiesUnordered(opt, y);
    SortKeepsUnordered(opt, s, TiedWith(opt, y));
  }

  /** Tasks that tie in `filteredTodos` appear in the order they have in the collection. */
  lemma FilteredStable(ts: seq<Todo>, search: string, category: Option<string>, opt: SortOption, y: Todo)
    ensures Where(Filtered(ts, search, category, opt), TiedWith(opt, y))
         == Where(Selection(ts, search, category), TiedWith(opt, y))
  {
    FilterStepsAreSelection(ts, search, category);
    SortStable(opt, FilterSteps(ts, search, category), y);
  }

  /** Sorting undated tasks by due date leaves them in their original order. */
  lemma UndatedKeepOrder(s: seq<Todo>)
    requires forall t :: t in s ==> t.dueDate.None?
    ensures Sort(ByDueDate, s) == s
  {
    if s != [] {
      var r, tied := Sort(ByDueDate, s), TiedWith(ByDueDate, s[0]);
      SortStable(ByDueDate, s, s[0]);
      forall t | t in s ensures tied(t) {
        UndatedTie(t, s[0]);
      }
      forall t | t in r ensures tied(t) {
        assert t in multiset(r);
        UndatedTie(t, s[0]);
      }
      WhereAll(r, tied);
      WhereAll(s, tied);
    }
  }

  lemma UndatedTie(a: Todo, b: Todo)
    requires a.dueDate.None? && b.dueDate.None?
    ensures TiedWith(ByDueDate, b)(a)
  {
  }

  // ---- categories ----

  /** The set of categories occurring in the collection. */
  function CategorySet(ts: seq<Todo>): set<string>
  {
    set t | t in ts :: t.category
  }

  predicate StrictlyAscending(s: seq<string>)
  {
    forall i, j :: 0 <= i < j < |s| ==> Less(s[i], s[j])
  }

  /** Add one category to a strictly ascending list, unless it is already there. */
  function AddCategory(c: string, s: seq<string>): (r: seq<string>)
    requires StrictlyAscending(s)
    ensures StrictlyAscending(r)
    ensures forall x :: x in r <==> x == c || x in s
  {
    if s == [] then [c]
    else if c == s[0] then s
    else if Less(c, s[0]) then
      assert forall j :: 0 < j < |s| ==> Less(c, s[j]) by {
        forall j | 0 < j < |s| ensures Less(c, s[j]) { LessTransitive(c, s[0], s[j]); }
      }
      [c] + s
    else
      LessTotal(c, s[0]);
      var rest := AddCategory(c, s[1..]);
      assert forall x :: x in rest ==> Less(s[0], x);
      [s[0]] + rest
  }

  /** `Array(Set(todos.map { $0.category })).sorted()`. */
  function Categories(ts: seq<Todo>): (r: seq<string>)
    ensures StrictlyAscending(r)
    ensures forall c :: c in r <==> c in CategorySet(ts)
  {
    if ts == [] then []
    else
      assert CategorySet(ts) == {ts[0].category} + CategorySet(ts[1..]) by {
        assert forall t :: t in ts <==> t == ts[0] || t in ts[1..];
      }
      AddCategory(ts[0].category, Categories(ts[1..]))
  }

  /**
    A strictly ascending list is determined by its elements, so `categories`
    is THE sorted list of the distinct categories, however it is computed.
   */
  lemma {:induction false} AscendingUnique(s: seq<string>, t: seq<string>)
    requires StrictlyAscending(s) && StrictlyAscending(t)
    requires forall x :: x in s <==> x in t
    ensures s == t
  {
    if s != [] {
      assert s[0] in s;
    }
    if t != [] {
      assert t[0] in t;
    }
    if s != [] && t != [] {
      if s[0] != t[0] {
        var k :| 0 <= k < |t| && t[k] == s[0];
        var m :| 0 <= m < |s| && s[m] == t[0];
        LessAsymmetric(s[0], t[0]);
      }
      forall x | x in s[1..] ensures x in t[1..] {
        var k :| 1 <= k < |s| && s[k] == x;
        assert x in s;
        LessIrreflexive(x);
        var m :| 0 <= m < |t| && t[m] == x;
        assert m != 0;
        assert t[1..][m - 1] == x;
      }
      forall x | x in t[1..] ensures x in s[1..] {
        var k :| 1 <= k < |t| && t[k] == x;
        assert x in t;
        LessIrreflexive(x);
        var m :| 0 <= m < |s| && s[m] == x;
        assert m != 0;
        assert s[1..][m - 1] == x;
      }
      AscendingUnique(s[1..], t[1..]);
    }
  }

  /** Categories have no duplicates. */
  lemma CategoriesDistinct(ts: seq<Todo>)
    ensures forall i, j :: 0 <= i < j < |Categories(ts)| ==> Categories(ts)[i] != Categories(ts)[j]
  {
    var r := Categories(ts);
    forall i, j | 0 <= i < j < |r| ensures r[i] != r[j] {
      LessIrreflexive(r[i]);
    }
  }

  // ---- the orders on small examples ----

  /**
    A list ordered under the comparator that holds three tasks, each strictly
    before the next, lists them in that order: with no ties the sorted
    result is determined.
   */
  lemma SortedChain(opt: SortOption, r: seq<Todo>, x: Todo, y: Todo, z: Todo)
    requires Before(opt, x, y) && Before(opt, y, z)
    requires Sorted(opt, r) && multiset(r) == multiset{x, y, z}
    ensures r == [x, y, z]
  {
    BeforeTransitive(opt, x, y, z);
    assert |r| == |multiset(r)| == 3;
    assert x in multiset(r) && y in multiset(r) && z in multiset(r);
    assert r[0] in multiset(r) && r[1] in multiset(r) && r[2] in multiset(r);
    BeforeAsymmetric(opt, x, y);
    BeforeAsymmetric(opt, y, z);
    BeforeAsymmetric(opt, x, z);
    assert multiset(r) == multiset{r[0], r[1], r[2]} by {
      assert r == [r[0], r[1], r[2]];
    }
  }

  /** By creation date, newest first. */
  lemma DateCreatedExample(a: Todo, b: Todo, c: Todo)
    requires a.dateCreated < b.dateCreated < c.dateCreated
    ensures Sort(ByDateCreated, [a, b, c]) == [c, b, a]
  {
    SortSorted(ByDateCreated, [a, b, c]);
    SortedChain(ByDateCreated, Sort(ByDateCreated, [a, b, c]), c, b, a);
  }

  /** By due date, dated tasks first and ascending, undated last. */
  lemma DueDateExample(jan: Todo, none: Todo, jun: Todo)
    requires jan.dueDate.Some? && jun.dueDate.Some? && jan.dueDate.value < jun.dueDate.value
    requires none.dueDate.None?
    ensures Sort(ByDueDate, [jan, none, jun]) == [jan, jun, none]
  {
    SortSorted(ByDueDate, [jan, none, jun]);
    SortedChain(ByDueDate, Sort(ByDueDate, [jan, none, jun]), jan, jun, none);
  }

  /** By priority the raw text puts "Medium" first and "High" last. */
  lemma PriorityExample(high: Todo, medium: Todo, low: Todo)
    requires high.priority == High && medium.priority == Medium && low.priority == Low
    ensures Sort(ByPriority, [high, medium, low]) == [medium, low, high]
  {
    PriorityBeforeIsRawRank(medium, low);
    PriorityBeforeIsRawRank(low, high);
    SortSorted(ByPriority, [high, medium, low]);
    SortedChain(ByPriority, Sort(ByPriority, [high, medium, low]), medium, low, high);
  }

  /** Titles compare by code point, so an upper-case initial sorts before every lower-case one. */
  lemma AlphabeticalExample(banana: Todo, apple: Todo, cherry: Todo)
    requires banana.title == "banana" && apple.title == "Apple" && cherry.title == "cherry"
    ensures Sort(Alphabetical, [banana, apple, cherry]) == [apple, banana, cherry]
  {
    assert Less("Apple", "banana") && Less("banana", "cherry");
    SortSorted(Alphabetical, [banana, apple, cherry]);
    SortedChain(Alphabetical, Sort(Alphabetical, [banana, apple, cherry]), apple, banana, cherry);
  }
}
