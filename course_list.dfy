/**
 * The catalogue view of the frontend
 * (liveroom-frontend/src/components/course/CourseList.jsx): the effect that
 * filters the `courses` prop by search term, category and level and sorts the
 * result in place, the sort-field selector and the sort-order button, the unused
 * `handleSortChange` helper, and the fallback to sample courses.
 */
module CourseCatalog {
  import opened Wrappers
  import opened JsText

  /** A course as the component reads it; every field but `id` and `title` may be
      missing (the backend's records have no instructor, category, level, price,
      rating or students). */
  datatype CatalogCourse = CatalogCourse(
    id: string,
    title: string,
    description: Option<string>,
    instructor: Option<string>,
    category: Option<string>,
    level: Option<string>,
    price: Option<real>,
    rating: Option<real>,
    students: Option<int>)

  datatype SortField = Title | Price | Rating | Students
  datatype SortOrder = Asc | Desc

  /** The state the effect depends on besides `courses`. */
  datatype Criteria = Criteria(searchTerm: string, category: string, level: string,
                               sortBy: SortField, sortOrder: SortOrder)

  predicate NothingFilters(cr: Criteria)
  {
    cr.searchTerm == "" && cr.category == "all" && cr.level == "all"
  }

  // ---------------------------------------------------------------- filters

  /** The search predicate, evaluated left to right with short circuit. A course
      reaching the instructor test without an instructor makes
      `course.instructor.toLowerCase()` throw: `None`. */
  function MatchesSearch(c: CatalogCourse, term: string): Option<bool>
  {
    var t := Lower(term);
    if Includes(Lower(c.title), t) then Some(true)
    else if c.description.Some? && c.description.value != "" && Includes(Lower(c.description.value), t) then Some(true)
    else match c.instructor
      case None => None
      case Some(ins) => Some(Includes(Lower(ins), t))
  }

  /** The lower-cased term occurs in the lower-cased title, description or instructor. */
  ghost predicate MentionsTerm(c: CatalogCourse, term: string)
  {
    || Includes(Lower(c.title), Lower(term))
    || (c.description.Some? && Includes(Lower(c.description.value), Lower(term)))
    || (c.instructor.Some? && Includes(Lower(c.instructor.value), Lower(term)))
  }

  /** `filtered.filter(course => ...search...)`: throws (`None`) as soon as one course
      throws; otherwise keeps, in order, the courses that match. */
  function SearchFilter(cs: seq<CatalogCourse>, term: string): Option<seq<CatalogCourse>>
  {
    if cs == [] then Some([])
    else
      match MatchesSearch(cs[0], term)
      case None => None
      case Some(keep) =>
        match SearchFilter(cs[1..], term)
        case None => None
        case Some(rest) => Some(if keep then [cs[0]] + rest else rest)
  }

  /** The search throws exactly when some course throws. */
  lemma {:induction false} SearchFilterThrows(cs: seq<CatalogCourse>, term: string)
    ensures SearchFilter(cs, term).None? <==> exists c :: c in cs && MatchesSearch(c, term).None?
  {
    if cs != [] {
      assert cs == [cs[0]] + cs[1..];
      if MatchesSearch(cs[0], term).Some? {
        SearchFilterThrows(cs[1..], term);
      }
    }
  }

  /** When it does not throw, the search keeps every matching course as often as it
      occurs, and nothing else. */
  lemma {:induction false} SearchFilterKeeps(cs: seq<CatalogCourse>, term: string)
    requires SearchFilter(cs, term).Some?
    ensures forall c :: c in SearchFilter(cs, term).value <==> c in cs && MatchesSearch(c, term) == Some(true)
    ensures forall c ::
      multiset(SearchFilter(cs, term).value)[c] == (if MatchesSearch(c, term) == Some(true) then multiset(cs)[c] else 0)
    ensures multiset(SearchFilter(cs, term).value) <= multiset(cs)
  {
    if cs != [] {
      assert cs == [cs[0]] + cs[1..];
      SearchFilterKeeps(cs[1..], term);
    }
  }

  /** Both stages succeed, and then their results are concatenated. */
  function Join(x: Option<seq<CatalogCourse>>, y: Option<seq<CatalogCourse>>): Option<seq<CatalogCourse>>
  {
    if x.Some? && y.Some? then Some(x.value + y.value) else None
  }

  /** The search keeps the given order: filtering a concatenation is concatenating
      the filtered parts. */
  lemma {:induction false} SearchFilterAppend(a: seq<CatalogCourse>, b: seq<CatalogCourse>, term: string)
    ensures SearchFilter(a + b, term) == Join(SearchFilter(a, term), SearchFilter(b, term))
  {
    if a == [] {
      assert a + b == b;
      if SearchFilter(b, term).Some? { assert [] + SearchFilter(b, term).value == SearchFilter(b, term).value; }
    } else {
      assert (a + b)[0] == a[0] && (a + b)[1..] == a[1..] + b;
      SearchFilterAppend(a[1..], b, term);
      if MatchesSearch(a[0], term) == Some(true) && SearchFilter(a[1..], term).Some? && SearchFilter(b, term).Some? {
        assert [a[0]] + (SearchFilter(a[1..], term).value + SearchFilter(b, term).value)
            == ([a[0]] + SearchFilter(a[1..], term).value) + SearchFilter(b, term).value;
      }
    }
  }

  /** A kept course does mention the term. */
  lemma MatchMentions(c: CatalogCourse, term: string)
    requires MatchesSearch(c, term) == Some(true)
    ensures MentionsTerm(c, term)
  {
  }

  /** `Array.prototype.filter` with a predicate that cannot throw. */
  function Keep(cs: seq<CatalogCourse>, p: CatalogCourse -> bool): seq<CatalogCourse>
  {
    if cs == [] then [] else (if p(cs[0]) then [cs[0]] else []) + Keep(cs[1..], p)
  }

  /** `filter` keeps every element satisfying the predicate as often as it occurs,
      and nothing else. */
  lemma {:induction false} KeepCounts(cs: seq<CatalogCourse>, p: CatalogCourse -> bool)
    ensures forall c :: c in Keep(cs, p) <==> c in cs && p(c)
    ensures forall c :: multiset(Keep(cs, p))[c] == (if p(c) then multiset(cs)[c] else 0)
    ensures multiset(Keep(cs, p)) <= multiset(cs)
  {
    if cs != [] {
      assert cs == [cs[0]] + cs[1..];
      KeepCounts(cs[1..], p);
    }
  }

  /** `filter` keeps the given order: filtering a concatenation is concatenating the
      filtered parts. */
  lemma {:induction false} KeepAppend(a: seq<CatalogCourse>, b: seq<CatalogCourse>, p: CatalogCourse -> bool)
    ensures Keep(a + b, p) == Keep(a, p) + Keep(b, p)
  {
    if a == [] {
      assert a + b == b;
    } else {
      var head := if p(a[0]) then [a[0]] else [];
      assert (a + b)[0] == a[0] && (a + b)[1..] == a[1..] + b;
      assert Keep(a + b, p) == head + Keep(a[1..] + b, p);
      KeepAppend(a[1..], b, p);
      assert Keep(a, p) == head + Keep(a[1..], p);
      assert head + (Keep(a[1..], p) + Keep(b, p)) == (head + Keep(a[1..], p)) + Keep(b, p);
    }
  }

  /** `course => course.category === selectedCategory`. */
  function CategoryTest(category: string): CatalogCourse -> bool
  {
    (c: CatalogCourse) => c.category == Some(category)
  }

  /** `course => course.level === selectedLevel`. */
  function LevelTest(level: string): CatalogCourse -> bool
  {
    (c: CatalogCourse) => c.level == Some(level)
  }

  /** The search stage, skipped when the term is empty. */
  function AfterSearch(cs: seq<CatalogCourse>, cr: Criteria): Option<seq<CatalogCourse>>
  {
    if cr.searchTerm != "" then SearchFilter(cs, cr.searchTerm) else Some(cs)
  }

  /** The category and then the level stage, each skipped when set to `'all'`. */
  function AfterChoices(s1: seq<CatalogCourse>, cr: Criteria): seq<CatalogCourse>
  {
    var s2 := if cr.category != "all" then Keep(s1, CategoryTest(cr.category)) else s1;
    if cr.level != "all" then Keep(s2, LevelTest(cr.level)) else s2
  }

  /** The three filter stages of the effect, in order (without the sort). */
  function Filtered(cs: seq<CatalogCourse>, cr: Criteria): Option<seq<CatalogCourse>>
  {
    match AfterSearch(cs, cr)
    case None => None
    case Some(s1) => Some(AfterChoices(s1, cr))
  }

  /** A course has the chosen category and level. */
  ghost predicate Chosen(c: CatalogCourse, cr: Criteria)
  {
    && (cr.category != "all" ==> c.category == Some(cr.category))
    && (cr.level != "all" ==> c.level == Some(cr.level))
  }

  /** A course passes all the active filters. */
  ghost predicate Selected(c: CatalogCourse, cr: Criteria)
  {
    && (cr.searchTerm != "" ==> MatchesSearch(c, cr.searchTerm) == Some(true))
    && Chosen(c, cr)
  }

  /** The category and level stages keep every chosen course as often as it occurs,
      and nothing else. */
  lemma ChoicesCount(s1: seq<CatalogCourse>, cr: Criteria)
    ensures forall c :: c in AfterChoices(s1, cr) <==> c in s1 && Chosen(c, cr)
    ensures forall c :: multiset(AfterChoices(s1, cr))[c] == (if Chosen(c, cr) then multiset(s1)[c] else 0)
  {
    var s2 := if cr.category != "all" then Keep(s1, CategoryTest(cr.category)) else s1;
    if cr.category != "all" {
      KeepCounts(s1, CategoryTest(cr.category));
    }
    if cr.level != "all" {
      KeepCounts(s2, LevelTest(cr.level));
    }
  }

  lemma ChoicesAppend(a: seq<CatalogCourse>, b: seq<CatalogCourse>, cr: Criteria)
    ensures AfterChoices(a + b, cr) == AfterChoices(a, cr) + AfterChoices(b, cr)
  {
    var a2 := if cr.category != "all" then Keep(a, CategoryTest(cr.category)) else a;
    var b2 := if cr.category != "all" then Keep(b, CategoryTest(cr.category)) else b;
    if cr.category != "all" {
      KeepAppend(a, b, CategoryTest(cr.category));
    }
    if cr.level != "all" {
      KeepAppend(a2, b2, LevelTest(cr.level));
    }
  }

  /** The filter stages keep exactly the selected courses (so every result mentions
      the search term and has the chosen category and level), each as often as in
      `courses`, and keep everything when nothing filters. Only the search can
      throw. */
  lemma FilteredSelects(cs: seq<CatalogCourse>, cr: Criteria)
    ensures Filtered(cs, cr).None? <==>
      cr.searchTerm != "" && exists c :: c in cs && MatchesSearch(c, cr.searchTerm).None?
    ensures Filtered(cs, cr).Some? ==>
      && (forall c :: c in Filtered(cs, cr).value <==> c in cs && Selected(c, cr))
      && (forall c :: multiset(Filtered(cs, cr).value)[c] == (if Selected(c, cr) then multiset(cs)[c] else 0))
      && multiset(Filtered(cs, cr).value) <= multiset(cs)
    ensures Filtered(cs, cr).Some? && cr.searchTerm != "" ==>
      forall c :: c in Filtered(cs, cr).value ==> MentionsTerm(c, cr.searchTerm)
    ensures NothingFilters(cr) ==> Filtered(cs, cr) == Some(cs)
  {
    if cr.searchTerm != "" {
      SearchFilterThrows(cs, cr.searchTerm);
      if SearchFilter(cs, cr.searchTerm).Some? {
        SearchFilterKeeps(cs, cr.searchTerm);
      }
    }
    if AfterSearch(cs, cr).Some? {
      ChoicesCount(AfterSearch(cs, cr).value, cr);
    }
  }

  /** The filter stages keep the given order: they act on a concatenation part by
      part. */
  lemma FilteredAppend(a: seq<CatalogCourse>, b: seq<CatalogCourse>, cr: Criteria)
    ensures Filtered(a + b, cr) == Join(Filtered(a, cr), Filtered(b, cr))
  {
    if cr.searchTerm != "" {
      SearchFilterAppend(a, b, cr.searchTerm);
    }
    if AfterSearch(a, cr).Some? && AfterSearch(b, cr).Some? {
      ChoicesAppend(AfterSearch(a, cr).value, AfterSearch(b, cr).value, cr);
    }
  }

  // ---------------------------------------------------------------- sort

  /** A sort key: a lower-cased string, or a number where `None` stands for NaN. */
  datatype Key = Text(s: string) | Num(v: Option<real>)

  /** `a[sortBy]` after `parseFloat`/`parseInt` or `toString().toLowerCase()`. */
  function KeyOf(c: CatalogCourse, f: SortField): Key
  {
    match f
    case Title => Text(Lower(c.title))
    case Price => Num(c.price)
    case Rating => Num(c.rating)
    case Students => Num(if c.students.Some? then Some(c.students.value as real) else None)
  }

  /** `a > b` on keys; a comparison with NaN is false. */
  predicate KeyGreater(a: Key, b: Key)
  {
    match (a, b)
    case (Text(x), Text(y)) => StrLess(y, x)
    case (Num(Some(x)), Num(Some(y))) => x > y
    case _ => false
  }

  /** The comparator: ascending answers 1 when `a > b`, descending when `a < b`, and -1
      otherwise (never 0). */
  function Compare(a: CatalogCourse, b: CatalogCourse, f: SortField, o: SortOrder): (r: int)
    ensures r == 1 || r == -1
  {
    var ka, kb := KeyOf(a, f), KeyOf(b, f);
    match o
    case Asc => if KeyGreater(ka, kb) then 1 else -1
    case Desc => if KeyGreater(kb, ka) then 1 else -1
  }

  /** The comparator asks for `b` before `a`. */
  predicate OutOfOrder(a: CatalogCourse, b: CatalogCourse, f: SortField, o: SortOrder)
  {
    Compare(a, b, f, o) > 0
  }

  lemma OutOfOrderAsymmetric(a: CatalogCourse, b: CatalogCourse, f: SortField, o: SortOrder)
    ensures !(OutOfOrder(a, b, f, o) && OutOfOrder(b, a, f, o))
  {
    if f == Title { StrLessAsymmetric(Lower(a.title), Lower(b.title)); }
  }

  /** No neighbours the comparator would swap. */
  ghost predicate AdjacentSorted(s: seq<CatalogCourse>, f: SortField, o: SortOrder)
  {
    forall k :: 0 <= k < |s| - 1 ==> !OutOfOrder(s[k], s[k + 1], f, o)
  }

  /** No pair, near or far, the comparator would swap. */
  ghost predicate Sorted(s: seq<CatalogCourse>, f: SortField, o: SortOrder)
  {
    forall i, j :: 0 <= i < j < |s| ==> !OutOfOrder(s[i], s[j], f, o)
  }

  /** Every key is comparable: a title, or a number that is not NaN. */
  ghost predicate KeysDefined(s: seq<CatalogCourse>, f: SortField)
  {
    forall i :: 0 <= i < |s| ==> KeyOf(s[i], f).Text? || KeyOf(s[i], f).v.Some?
  }

  lemma InOrderTransitive(a: CatalogCourse, b: CatalogCourse, c: CatalogCourse, f: SortField, o: SortOrder)
    requires KeyOf(a, f).Text? || KeyOf(a, f).v.Some?
    requires KeyOf(b, f).Text? || KeyOf(b, f).v.Some?
    requires KeyOf(c, f).Text? || KeyOf(c, f).v.Some?
    requires !OutOfOrder(a, b, f, o) && !OutOfOrder(b, c, f, o)
    ensures !OutOfOrder(a, c, f, o)
  {
    if f == Title {
      var x, y, z := Lower(a.title), Lower(b.title), Lower(c.title);
      StrLessTotal(x, y);
      StrLessTotal(y, z);
      if o == Asc {
        if StrLess(z, x) {
          if StrLess(y, x) {} else if StrLess(z, y) { StrLessTransitive(z, y, x); }
          else { assert x == y || StrLess(x, y); assert y == z || StrLess(y, z);
                 if x == y { StrLessAsymmetric(z, y); } else if y == z { StrLessAsymmetric(x, y); }
                 else { StrLessTransitive(x, y, z); StrLessAsymmetric(x, z); } }
        }
      } else {
        if StrLess(x, z) {
          if StrLess(x, y) {} else if StrLess(y, z) { StrLessTransitive(x, y, z); }
          else { if x == y { StrLessAsymmetric(y, z); } else if y == z { StrLessAsymmetric(y, x); }
                 else { StrLessTransitive(z, y, x); StrLessAsymmetric(x, z); } }
        }
      }
    }
  }

  /** With comparable keys, an order without a bad neighbour has no bad pair at all. */
  lemma {:induction false} AdjacentSortedIsSorted(s: seq<CatalogCourse>, f: SortField, o: SortOrder)
    requires AdjacentSorted(s, f, o) && KeysDefined(s, f)
    ensures Sorted(s, f, o)
  {
    forall i, j | 0 <= i < j < |s| ensures !OutOfOrder(s[i], s[j], f, o) {
      InOrderUpTo(s, f, o, i, j);
    }
  }

  lemma {:induction false} InOrderUpTo(s: seq<CatalogCourse>, f: SortField, o: SortOrder, i: nat, j: nat)
    requires AdjacentSorted(s, f, o) && KeysDefined(s, f)
    requires i < j < |s|
    ensures !OutOfOrder(s[i], s[j], f, o)
    decreases j - i
  {
    if j > i + 1 {
      InOrderUpTo(s, f, o, i, j - 1);
      InOrderTransitive(s[i], s[j - 1], s[j], f, o);
    }
  }

  /** Sorted by title ascending means by lower-cased title, ascending; descending the
      other way round; with distinct titles the order is strict. */
  lemma TitleOrder(s: seq<CatalogCourse>, o: SortOrder, i: nat, j: nat)
    requires Sorted(s, Title, o) && i < j < |s|
    ensures o == Asc ==> !StrLess(Lower(s[j].title), Lower(s[i].title))
    ensures o == Desc ==> !StrLess(Lower(s[i].title), Lower(s[j].title))
    ensures Lower(s[i].title) != Lower(s[j].title) ==>
      if o == Asc then StrLess(Lower(s[i].title), Lower(s[j].title))
      else StrLess(Lower(s[j].title), Lower(s[i].title))
  {
    assert !OutOfOrder(s[i], s[j], Title, o);
    StrLessTotal(Lower(s[i].title), Lower(s[j].title));
  }

  /** `filtered.sort(comparator)`, in place. The engine's algorithm is not part of the
      model: this is an insertion sort that swaps neighbours the comparator orders
      the other way. */
  method SortInPlace(a: array<CatalogCourse>, f: SortField, o: SortOrder)
    modifies a
    ensures AdjacentSorted(a[..], f, o)
    ensures multiset(a[..]) == multiset(old(a[..]))
  {
    var swapped := (x: CatalogCourse, y: CatalogCourse) => OutOfOrder(x, y, f, o);
    forall x, y ensures !(swapped(x, y) && swapped(y, x)) {
      OutOfOrderAsymmetric(x, y, f, o);
    }
    if a.Length == 0 { return; }
    var i := 1;
    while i < a.Length
      invariant 1 <= i <= a.Length
      invariant NoBadNeighbour(a[..i], swapped)
      invariant multiset(a[..]) == multiset(old(a[..]))
    {
      Insert(a, i, swapped);
      i := i + 1;
    }
    assert a[..] == a[..a.Length];
  }

  /** No neighbours that `bad` would swap. */
  ghost predicate NoBadNeighbour(s: seq<CatalogCourse>, bad: (CatalogCourse, CatalogCourse) -> bool)
  {
    forall k :: 0 <= k < |s| - 1 ==> !bad(s[k], s[k + 1])
  }

  /** Halfway through inserting the element now at `j` into the sorted prefix
      `s[..i]`: every neighbour pair is in order except the one just before `j`,
      and the pair around `j` (which the element sits between) is in order too. */
  ghost predicate Inserting(s: seq<CatalogCourse>, i: nat, j: nat, bad: (CatalogCourse, CatalogCourse) -> bool)
  {
    && j <= i < |s|
    && (forall k :: 0 <= k < i && k != j - 1 && k != j ==> !bad(s[k], s[k + 1]))
    && (j < i ==> !bad(s[j], s[j + 1]))
    && (0 < j < i ==> !bad(s[j - 1], s[j + 1]))
  }

  /** Swapping the element with a predecessor that must follow it moves the gap one
      place left. */
  lemma SwapKeepsInserting(s: seq<CatalogCourse>, i: nat, j: nat, bad: (CatalogCourse, CatalogCourse) -> bool)
    requires forall x, y :: !(bad(x, y) && bad(y, x))
    requires Inserting(s, i, j, bad) && 0 < j && bad(s[j - 1], s[j])
    ensures Inserting(s[j - 1 := s[j]][j := s[j - 1]], i, j - 1, bad)
    ensures multiset(s[j - 1 := s[j]][j := s[j - 1]]) == multiset(s)
  {
    var t := s[j - 1 := s[j]][j := s[j - 1]];
    forall k | 0 <= k < i && k != j - 2 && k != j - 1 ensures !bad(t[k], t[k + 1]) {
      if k == j {
        assert t[k] == s[j - 1] && t[k + 1] == s[j + 1];
      } else {
        assert t[k] == s[k] && t[k + 1] == s[k + 1];
      }
    }
    assert !bad(t[j - 1], t[j]);
  }

  /** Where the element has stopped, the prefix up to `i` has no bad neighbour. */
  lemma InsertedSorted(s: seq<CatalogCourse>, i: nat, j: nat, bad: (CatalogCourse, CatalogCourse) -> bool)
    requires Inserting(s, i, j, bad) && (j == 0 || !bad(s[j - 1], s[j]))
    ensures NoBadNeighbour(s[..i + 1], bad)
  {
    var p := s[..i + 1];
    forall k | 0 <= k < |p| - 1 ensures !bad(p[k], p[k + 1]) {
      assert p[k] == s[k] && p[k + 1] == s[k + 1];
    }
  }

  /** One pass: moves `a[i]` left past every neighbour it must precede. */
  method Insert(a: array<CatalogCourse>, i: nat, bad: (CatalogCourse, CatalogCourse) -> bool)
    requires forall x, y :: !(bad(x, y) && bad(y, x))
    requires i < a.Length && NoBadNeighbour(a[..i], bad)
    modifies a
    ensures NoBadNeighbour(a[..i + 1], bad)
    ensures multiset(a[..]) == multiset(old(a[..]))
  {
    var j: nat := i;
    while j > 0 && bad(a[j - 1], a[j])
      invariant Inserting(a[..], i, j, bad)
      invariant multiset(a[..]) == multiset(old(a[..]))
    {
      ghost var s := a[..];
      SwapKeepsInserting(s, i, j, bad);
      a[j - 1], a[j] := a[j], a[j - 1];
      assert a[..] == s[j - 1 := s[j]][j := s[j - 1]];
      j := j - 1;
    }
    InsertedSorted(a[..], i, j, bad);
  }

  method ToArray(s: seq<CatalogCourse>) returns (a: array<CatalogCourse>)
    ensures fresh(a) && a[..] == s
  {
    a := new CatalogCourse[|s|](i requires 0 <= i < |s| => s[i]);
  }

  // ---------------------------------------------------------------- display

  /** `sampleCourses`. */
  const SampleCourses: seq<CatalogCourse> := [
    CatalogCourse("sample-1", "Intro to HTML & CSS", Some("Learn the basics of web design with HTML and CSS."),
                  Some("Jane Developer"), Some("Programming"), Some("Beginner"), None, Some(4.5), Some(1200)),
    CatalogCourse("sample-2", "JavaScript Essentials", Some("Master the fundamentals of JavaScript programming."),
                  Some("John Script"), Some("Programming"), Some("Beginner"), None, Some(4.7), Some(950)),
    CatalogCourse("sample-3", "React for Beginners", Some("Build dynamic UIs with React.js."),
                  Some("React Ninja"), Some("Programming"), Some("Intermediate"), None, Some(4.8), Some(1500))
  ]

  /** The fallback relates to the filters: the samples are shown exactly when no
      course is selected, and otherwise only selected courses from `courses` are. */
  lemma DisplayedFallback(cs: seq<CatalogCourse>, cr: Criteria)
    requires Filtered(cs, cr).Some?
    ensures (forall c :: c in cs ==> !Selected(c, cr)) ==> Displayed(Filtered(cs, cr).value) == SampleCourses
    ensures (exists c :: c in cs && Selected(c, cr)) ==>
      && Displayed(Filtered(cs, cr).value) == Filtered(cs, cr).value
      && forall d :: d in Displayed(Filtered(cs, cr).value) ==> d in cs && Selected(d, cr)
  {
    FilteredSelects(cs, cr);
    var f := Filtered(cs, cr).value;
    if f != [] {
      assert f[0] in f;
    }
  }

  /** `displayedCourses`: the filtered list, or the samples when it is empty. */
  function Displayed(filtered: seq<CatalogCourse>): (r: seq<CatalogCourse>)
  {
    if |filtered| > 0 then filtered else SampleCourses
  }

  /** The component's state. `filteredCourses` holds an array reference, which after
      an unfiltered run is the `courses` prop itself. */
  class CourseListView {
    var searchTerm: string
    var selectedCategory: string
    var selectedLevel: string
    var sortBy: SortField
    var sortOrder: SortOrder
    var filteredCourses: array<CatalogCourse>

    function CriteriaOf(): Criteria
      reads this
    {
      Criteria(searchTerm, selectedCategory, selectedLevel, sortBy, sortOrder)
    }

    /** The initial state: `useState(courses)` and the defaults. */
    constructor (courses: array<CatalogCourse>)
      ensures filteredCourses == courses
      ensures CriteriaOf() == Criteria("", "all", "all", Title, Asc)
    {
      filteredCourses := courses;
      searchTerm, selectedCategory, selectedLevel := "", "all", "all";
      sortBy, sortOrder := Title, Asc;
    }

    /** The effect `useEffect(() => { let filtered = courses; ... }, [...])`. It returns
        whether it threw (the search reaching a course with no instructor); then
        nothing changes. Otherwise `filteredCourses` is the selected courses, sorted,
        and it is the `courses` array itself, sorted in place, exactly when no filter
        is active. */
    method RunEffect(courses: array<CatalogCourse>) returns (threw: bool)
      modifies this, courses
      ensures threw <==> Filtered(old(courses[..]), old(CriteriaOf())).None?
      ensures CriteriaOf() == old(CriteriaOf())
      ensures threw ==> filteredCourses == old(filteredCourses) && courses[..] == old(courses[..])
      ensures !threw ==>
        && multiset(filteredCourses[..]) == multiset(Filtered(old(courses[..]), CriteriaOf()).value)
        && AdjacentSorted(filteredCourses[..], sortBy, sortOrder)
        && (NothingFilters(CriteriaOf()) ==> filteredCourses == courses)
        && (!NothingFilters(CriteriaOf()) ==> fresh(filteredCourses) && courses[..] == old(courses[..]))
    {
      var cr := CriteriaOf();
      var filtered := courses;
      if searchTerm != "" {
        var found := SearchFilter(filtered[..], searchTerm);
        if found.None? {
          return true;
        }
        filtered := ToArray(found.value);
      }
      if selectedCategory != "all" {
        filtered := ToArray(Keep(filtered[..], CategoryTest(selectedCategory)));
      }
      if selectedLevel != "all" {
        filtered := ToArray(Keep(filtered[..], LevelTest(selectedLevel)));
      }
      assert filtered[..] == Filtered(old(courses[..]), cr).value;
      SortInPlace(filtered, sortBy, sortOrder);
      filteredCourses := filtered;
      threw := false;
    }

    /** The sort-field `<select>`: `setSortBy(e.target.value)` takes the chosen field
        and keeps the current order. */
    method SelectSortField(field: SortField)
      modifies this
      ensures sortBy == field && sortOrder == old(sortOrder)
      ensures searchTerm == old(searchTerm) && selectedCategory == old(selectedCategory)
      ensures selectedLevel == old(selectedLevel) && filteredCourses == old(filteredCourses)
    {
      sortBy := field;
    }

    /** The sort-order button: flips ascending and descending and keeps the field. */
    method ToggleSortOrder()
      modifies this
      ensures sortOrder == (if old(sortOrder) == Asc then Desc else Asc) && sortBy == old(sortBy)
      ensures searchTerm == old(searchTerm) && selectedCategory == old(selectedCategory)
      ensures selectedLevel == old(selectedLevel) && filteredCourses == old(filteredCourses)
    {
      sortOrder := if sortOrder == Asc then Desc else Asc;
    }

    /** `handleSortChange(field)`, which the component defines but no control calls:
        the same field flips the order, another field is taken with the order reset
        to ascending. */
    method HandleSortChange(field: SortField)
      modifies this
      ensures sortBy == field
      ensures sortOrder == if old(sortBy) == field then (if old(sortOrder) == Asc then Desc else Asc) else Asc
      ensures searchTerm == old(searchTerm) && selectedCategory == old(selectedCategory)
      ensures selectedLevel == old(selectedLevel) && filteredCourses == old(filteredCourses)
    {
      if sortBy == field {
        sortOrder := if sortOrder == Asc then Desc else Asc;
      } else {
        sortBy := field;
        sortOrder := Asc;
      }
    }

    /** The list the next render would show. */
    function DisplayedCourses(): (r: seq<CatalogCourse>)
      reads this, filteredCourses
    {
      Displayed(filteredCourses[..])
    }
  }
}
