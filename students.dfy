/**
 * The faculty's student table (student-management.js): the full list
 * `studentsData`, the list on screen `filteredStudents`, the page shown and the
 * handlers that change them. The values of the search box, the three selects,
 * the add-student form and the answer to the delete confirmation are read from
 * the page, so they are parameters here.
 */
module Students {
  import opened Strings

  const ItemsPerPage: nat := 10

  datatype Student = Student(
    id: int,
    name: string,
    rollNumber: string,
    department: string,
    year: int,
    section: string,
    email: string,
    achievements: int,
    activityPoints: int,
    status: string)

  /** The three selects of the filter bar; "" is "all". */
  datatype Filters = Filters(department: string, year: string, status: string)

  /** The fields of the add-student form, the year already parsed. */
  datatype StudentForm = StudentForm(name: string, rollNumber: string, department: string,
                                     year: int, section: string, email: string)

  // ---------------------------------------------------------------------
  // Search and filters (student-management.js:163-199)

  /** One `filter` call of the page. */
  datatype Criterion = BySearch(term: string) | ByDepartment(department: string)
                     | ByYear(year: string) | ByStatus(status: string)

  predicate Meets(s: Student, c: Criterion) {
    match c
    case BySearch(term) =>
      var t := Lower(term);
      Contains(Lower(s.name), t) || Contains(Lower(s.rollNumber), t)
      || Contains(Lower(s.department), t) || Contains(Lower(s.email), t)
    case ByDepartment(d) => s.department == d
    case ByYear(y) => IntToString(s.year) == y
    case ByStatus(st) => s.status == st
  }

  function Select(xs: seq<Student>, c: Criterion): seq<Student> {
    if xs == [] then []
    else Select(xs[..|xs| - 1], c) + (if Meets(xs[|xs| - 1], c) then [xs[|xs| - 1]] else [])
  }

  /** `filter` keeps exactly the students meeting the criterion, each as often as listed. */
  lemma {:induction false} SelectCounts(xs: seq<Student>, c: Criterion)
    ensures var r := Select(xs, c);
      && |r| <= |xs|
      && forall s :: multiset(r)[s] == if Meets(s, c) then multiset(xs)[s] else 0
  {
    SelectLength(xs, c);
    forall s ensures multiset(Select(xs, c))[s] == if Meets(s, c) then multiset(xs)[s] else 0 {
      SelectCount(xs, c, s);
    }
  }

  lemma {:induction false} SelectLength(xs: seq<Student>, c: Criterion)
    ensures |Select(xs, c)| <= |xs|
  {
    if xs != [] {
      SelectLength(xs[..|xs| - 1], c);
    }
  }

  lemma {:induction false} SelectCount(xs: seq<Student>, c: Criterion, s: Student)
    ensures multiset(Select(xs, c))[s] == if Meets(s, c) then multiset(xs)[s] else 0
  {
    if xs != [] {
      var init, last := xs[..|xs| - 1], xs[|xs| - 1];
      SelectCount(init, c, s);
      assert xs == init + [last];
      var kept := Meets(last, c);
      SnocCount(init, last, s);
      SnocCount(Select(init, c), last, s);
      if !kept {
        assert Select(xs, c) == Select(init, c) + [];
      }
    }
  }

  /** Appending one student adds one to its own count only. */
  lemma SnocCount(xs: seq<Student>, x: Student, s: Student)
    ensures multiset(xs + [x])[s] == multiset(xs)[s] + (if x == s then 1 else 0)
  {
    assert multiset(xs + [x]) == multiset(xs) + multiset{x};
  }

  /** What the three selects let through. */
  predicate Passes(s: Student, f: Filters) {
    && (f.department == "" || s.department == f.department)
    && (f.year == "" || IntToString(s.year) == f.year)
    && (f.status == "" || s.status == f.status)
  }

  /** `applyFilters` on a list: each non-empty select narrows it in turn. */
  function Narrowed(xs: seq<Student>, f: Filters): seq<Student> {
    var a := if f.department != "" then Select(xs, ByDepartment(f.department)) else xs;
    var b := if f.year != "" then Select(a, ByYear(f.year)) else a;
    if f.status != "" then Select(b, ByStatus(f.status)) else b
  }

  /** Narrowing a list with one more student narrows it and keeps that student
      at the end exactly when it passes. */
  lemma NarrowedStep(xs: seq<Student>, x: Student, f: Filters)
    ensures Narrowed(xs + [x], f) == Narrowed(xs, f) + (if Passes(x, f) then [x] else [])
  {
    var ys := xs + [x];
    assert ys[..|ys| - 1] == xs;
    var a := if f.department != "" then Select(xs, ByDepartment(f.department)) else xs;
    var a' := if f.department != "" then Select(ys, ByDepartment(f.department)) else ys;
    var okA := f.department == "" || x.department == f.department;
    assert a' == a + (if okA then [x] else []);
    var b := if f.year != "" then Select(a, ByYear(f.year)) else a;
    var b' := if f.year != "" then Select(a', ByYear(f.year)) else a';
    var okB := okA && (f.year == "" || IntToString(x.year) == f.year);
    if okA {
      assert (a + [x])[..|a + [x]| - 1] == a;
    } else {
      assert a' == a;
    }
    assert b' == b + (if okB then [x] else []);
    if okB {
      assert (b + [x])[..|b + [x]| - 1] == b;
    } else {
      assert b' == b;
    }
  }

  /** The filters only narrow: a student stays exactly when listed and passing,
      as often as it was listed. */
  lemma {:induction false} NarrowedCounts(xs: seq<Student>, f: Filters)
    ensures var r := Narrowed(xs, f);
      && |r| <= |xs|
      && forall s :: multiset(r)[s] == if Passes(s, f) then multiset(xs)[s] else 0
  {
    NarrowedIsPassing(xs, f);
    PassingLength(xs, f);
    forall s ensures multiset(Passing(xs, f))[s] == if Passes(s, f) then multiset(xs)[s] else 0 {
      PassingCount(xs, f, s);
    }
  }

  /** One pass keeping the students that pass all three selects. */
  function Passing(xs: seq<Student>, f: Filters): seq<Student> {
    if xs == [] then []
    else Passing(xs[..|xs| - 1], f) + (if Passes(xs[|xs| - 1], f) then [xs[|xs| - 1]] else [])
  }

  /** The three successive selects keep what the single pass keeps. */
  lemma {:induction false} NarrowedIsPassing(xs: seq<Student>, f: Filters)
    ensures Narrowed(xs, f) == Passing(xs, f)
  {
    if xs != [] {
      var init, last := xs[..|xs| - 1], xs[|xs| - 1];
      NarrowedIsPassing(init, f);
      NarrowedStep(init, last, f);
      assert init + [last] == xs;
    }
  }

  lemma {:induction false} PassingLength(xs: seq<Student>, f: Filters)
    ensures |Passing(xs, f)| <= |xs|
  {
    if xs != [] {
      PassingLength(xs[..|xs| - 1], f);
    }
  }

  lemma {:induction false} PassingCount(xs: seq<Student>, f: Filters, s: Student)
    ensures multiset(Passing(xs, f))[s] == if Passes(s, f) then multiset(xs)[s] else 0
  {
    if xs != [] {
      var init, last := xs[..|xs| - 1], xs[|xs| - 1];
      PassingCount(init, f, s);
      assert xs == init + [last];
      SnocCount(init, last, s);
      SnocCount(Passing(init, f), last, s);
      if !Passes(last, f) {
        assert Passing(xs, f) == Passing(init, f) + [];
      }
    }
  }

  /** Filtering an already filtered list with the same selects changes nothing. */
  lemma {:induction false} NarrowedIdempotent(xs: seq<Student>, f: Filters)
    ensures Narrowed(Narrowed(xs, f), f) == Narrowed(xs, f)
  {
    if xs != [] {
      var init := xs[..|xs| - 1];
      var x := xs[|xs| - 1];
      assert xs == init + [x];
      NarrowedIdempotent(init, f);
      NarrowedStep(init, x, f);
      if Passes(x, f) {
        NarrowedStep(Narrowed(init, f), x, f);
      } else {
        assert Narrowed(init, f) + [] == Narrowed(init, f);
      }
    }
  }

  /** A student missing from the list cannot reappear through the filters. */
  lemma NarrowedNeverRestores(xs: seq<Student>, f: Filters, s: Student)
    requires s !in xs
    ensures s !in Narrowed(xs, f)
  {
    NarrowedCounts(xs, f);
    assert multiset(xs)[s] == 0;
  }

  /** A listed student that passes the filters stays listed. */
  lemma NarrowedKeepsPassing(xs: seq<Student>, f: Filters, s: Student)
    requires s in xs && Passes(s, f)
    ensures s in Narrowed(xs, f)
  {
    NarrowedCounts(xs, f);
    assert multiset(xs)[s] > 0;
  }

  // ---------------------------------------------------------------------
  // Pages (student-management.js:201-218, 287-327)

  /** `Math.ceil(n / itemsPerPage)`. */
  function TotalPages(n: nat): (r: nat)
    ensures r * ItemsPerPage >= n
    ensures r > 0 ==> (r - 1) * ItemsPerPage < n
    ensures r == 0 <==> n == 0
  {
    (n + ItemsPerPage - 1) / ItemsPerPage
  }

  /** What `renderStudentsTable` shows: the rows and the three counters. */
  datatype TableView = TableView(rows: seq<Student>, showingStart: int, showingEnd: int, total: int)

  function Min(a: int, b: int): int {
    if a <= b then a else b
  }

  function TableViewOf(xs: seq<Student>, page: int): TableView
    requires page >= 1
  {
    var start := (page - 1) * ItemsPerPage;
    var end := start + ItemsPerPage;
    var lo := Min(start, |xs|);
    var hi := Min(end, |xs|);
    TableView(xs[lo..hi], start + 1, Min(end, |xs|), |xs|)
  }

  /** Page `p` shows the students from position (p-1)*10 up to `showingEnd` =
      min(p*10, length), at most ten of them, and none past the last page. */
  lemma TableViewSpec(xs: seq<Student>, page: int)
    requires page >= 1
    ensures var v, start := TableViewOf(xs, page), (page - 1) * ItemsPerPage;
      && v.showingEnd == Min(page * ItemsPerPage, |xs|)
      && v.showingStart == start + 1
      && v.total == |xs|
      && |v.rows| <= ItemsPerPage
      && (start <= |xs| ==> v.rows == xs[start..v.showingEnd])
      && (page <= TotalPages(|xs|) <==> v.rows != [])
  {
  }

  /** Every student is on exactly the page and row its position says. */
  lemma PagesCover(xs: seq<Student>, i: nat)
    requires i < |xs|
    ensures var v := TableViewOf(xs, i / ItemsPerPage + 1);
      i % ItemsPerPage < |v.rows| && v.rows[i % ItemsPerPage] == xs[i]
  {
  }

  /** An empty table still reads "showing 1 to 0 of 0" on page 1, and a start
      past the end on any later page. */
  lemma EmptyTableShowsOneToZero(page: int)
    requires page >= 1
    ensures var v := TableViewOf([], page);
      v.rows == [] && v.showingEnd == 0 && v.total == 0 && v.showingStart >= 1
      && (page == 1 ==> v.showingStart == 1)
  {
  }

  /** A numbered button or an ellipsis of the pagination bar. */
  datatype PageItem = PageButton(page: int, active: bool) | Ellipsis(page: int)

  datatype Pagination = Pagination(items: seq<PageItem>, prevDisabled: bool, nextDisabled: bool)

  predicate IsButton(i: int, total: int, current: int) {
    i == 1 || i == total || (current - 2 <= i && i <= current + 2)
  }

  function ItemFor(i: int, total: int, current: int): seq<PageItem> {
    if IsButton(i, total, current) then [PageButton(i, i == current)]
    else if i == current - 3 || i == current + 3 then [Ellipsis(i)]
    else []
  }

  /** The bar for pages 1 to `upto`. */
  function PageItems(upto: nat, total: int, current: int): seq<PageItem> {
    if upto == 0 then [] else PageItems(upto - 1, total, current) + ItemFor(upto, total, current)
  }

  function PaginationOf(n: nat, current: int): Pagination {
    var total := TotalPages(n);
    Pagination(PageItems(total, total, current), current == 1, current == total || total == 0)
  }

  /** The bar holds, in increasing page order, a button for each page that is the
      first, the last or within two of the current one (the current one marked
      active), and an ellipsis at exactly the pages three away from the current
      one that have no button. */
  lemma {:induction false} PageItemsSpec(upto: nat, total: int, current: int)
    ensures var items := PageItems(upto, total, current);
      && (forall it :: it in items <==>
            && 1 <= it.page <= upto
            && (if IsButton(it.page, total, current) then it == PageButton(it.page, it.page == current)
                else (it.page == current - 3 || it.page == current + 3) && it == Ellipsis(it.page)))
      && (forall i, j :: 0 <= i < j < |items| ==> items[i].page < items[j].page)
  {
    if upto > 0 {
      PageItemsSpec(upto - 1, total, current);
    }
  }

  /** Prev is disabled on page 1; next on the last page or when there are no pages. */
  lemma PaginationSpec(n: nat, current: int)
    ensures var p, total := PaginationOf(n, current), TotalPages(n);
      && (p.prevDisabled <==> current == 1)
      && (p.nextDisabled <==> current == total || n == 0)
      && (forall i :: 1 <= i <= total ==> (PageButton(i, i == current) in p.items <==> IsButton(i, total, current)))
  {
    PageItemsSpec(TotalPages(n), TotalPages(n), current);
  }

  // ---------------------------------------------------------------------
  // Row text (student-management.js:274-281)

  /** `s.split(' ')`: the pieces between single spaces, empty ones included. */
  function Words(s: string): (r: seq<string>)
    ensures |r| >= 1
  {
    if s == [] then [""]
    else
      var rest := Words(s[1..]);
      if s[0] == ' ' then [""] + rest else [[s[0]] + rest[0]] + rest[1..]
  }

  /** `ws.join(' ')`. */
  function Join(ws: seq<string>): string
    requires |ws| >= 1
  {
    if |ws| == 1 then ws[0] else ws[0] + " " + Join(ws[1..])
  }

  /** Splitting and joining back gives the name, and no piece holds a space. */
  lemma {:induction false} WordsJoin(s: string)
    ensures Join(Words(s)) == s
    ensures forall w | w in Words(s) :: ' ' !in w
  {
    if s != [] {
      WordsJoin(s[1..]);
      var rest := Words(s[1..]);
      if s[0] != ' ' {
        var r := Words(s);
        assert r[1..] == rest[1..];
        assert s == [s[0]] + s[1..];
        if |rest| > 1 {
          assert Join(rest) == rest[0] + " " + Join(rest[1..]);
        }
      } else {
        assert s == " " + s[1..];
      }
    }
  }

  /** A space-free word followed by a space splits off as one piece. */
  lemma {:induction false} WordsOfWord(w: string, rest: string)
    requires ' ' !in w
    ensures Words(w) == [w]
    ensures Words(w + " " + rest) == [w] + Words(rest)
  {
    if w != [] {
      WordsOfWord(w[1..], rest);
      assert (w + " " + rest)[1..] == w[1..] + " " + rest;
      assert [w[0]] + w[1..] == w;
    } else {
      assert w + " " + rest == " " + rest;
      assert (" " + rest)[1..] == rest;
    }
  }

  /** `word[0]` of each piece joined; an empty piece gives `undefined`, which
      `join` prints as nothing. */
  function FirstLetters(ws: seq<string>): string {
    if ws == [] then [] else (if ws[0] == [] then [] else [ws[0][0]]) + FirstLetters(ws[1..])
  }

  /** `getInitials`. */
  function Initials(name: string): (r: string)
    ensures |r| <= 2
  {
    var f := FirstLetters(Words(name));
    Upper(f[..Min(2, |f|)])
  }

  /** Two first letters are enough to fix the initials. */
  lemma InitialsOfLetters(name: string, x: char, y: char, more: string)
    requires FirstLetters(Words(name)) == [x, y] + more
    ensures Initials(name) == [UpperChar(x), UpperChar(y)]
  {
    var f := FirstLetters(Words(name));
    assert f[..Min(2, |f|)] == [x, y];
  }

  /** The first letters of two words. */
  lemma TwoWordsLetters(first: string, last: string)
    requires first != "" && last != "" && ' ' !in first && ' ' !in last
    ensures FirstLetters(Words(first + " " + last)) == [first[0], last[0]] + []
  {
    WordsOfWord(first, last);
    OneWordLetters(last);
    FirstLettersCons(first, Words(last));
    assert [first[0]] + [last[0]] == [first[0], last[0]] + [];
  }

  /** A single word gives its own first letter. */
  lemma OneWordLetters(w: string)
    requires w != "" && ' ' !in w
    ensures FirstLetters(Words(w)) == [w[0]]
  {
    WordsOfWord(w, "");
    FirstLettersCons(w, []);
  }

  lemma FirstLettersCons(w: string, ws: seq<string>)
    requires w != []
    ensures FirstLetters([w] + ws) == [w[0]] + FirstLetters(ws)
  {
    assert ([w] + ws)[1..] == ws;
  }

  /** The first letters of two words followed by more text. */
  lemma MoreWordsLetters(first: string, last: string, rest: string)
    requires first != "" && last != "" && ' ' !in first && ' ' !in last
    ensures FirstLetters(Words(first + " " + last + " " + rest)) == [first[0], last[0]] + FirstLetters(Words(rest))
  {
    var tail := last + " " + rest;
    assert first + " " + last + " " + rest == first + " " + tail;
    WordsOfWord(first, tail);
    WordsOfWord(last, rest);
    FirstLettersCons(first, Words(tail));
    FirstLettersCons(last, Words(rest));
  }

  /** The initials are the upper-cased first letters of the first two words. */
  lemma InitialsOfName(first: string, last: string, rest: string)
    requires first != "" && last != "" && ' ' !in first && ' ' !in last
    ensures Initials(first + " " + last) == [UpperChar(first[0]), UpperChar(last[0])]
    ensures Initials(first + " " + last + " " + rest) == [UpperChar(first[0]), UpperChar(last[0])]
  {
    TwoWordsLetters(first, last);
    InitialsOfLetters(first + " " + last, first[0], last[0], []);
    MoreWordsLetters(first, last, rest);
    InitialsOfLetters(first + " " + last + " " + rest, first[0], last[0], FirstLetters(Words(rest)));
  }

  /** `getYearText`: an ordinal for years 1 to 4, the number itself otherwise. */
  function YearText(year: int): string {
    if year == 1 then "1st"
    else if year == 2 then "2nd"
    else if year == 3 then "3rd"
    else if year == 4 then "4th"
    else IntToString(year)
  }

  /** Different years never get the same text: an ordinal ends in a letter, a
      plain number in a digit. */
  lemma YearTextInjective(a: int, b: int)
    requires YearText(a) == YearText(b)
    ensures a == b
  {
    assert (1 <= a <= 4) == (1 <= b <= 4) by {
      LastIsDigit(a);
      LastIsDigit(b);
    }
    if !(1 <= a <= 4) {
      IntToStringInjective(a, b);
    }
  }

  /** A printed integer ends in a digit. */
  lemma LastIsDigit(n: int)
    ensures var t := IntToString(n); |t| > 0 && IsDigit(t[|t| - 1])
  {
    var m: nat := if n < 0 then -n else n;
    assert IsDigit(NatToString(m)[|NatToString(m)| - 1]);
  }

  // ---------------------------------------------------------------------
  // The table's state and its handlers (student-management.js:104-107, 163-199, 320-408)

  /** `handleAddStudent`'s record: no achievements, no points, active. */
  function NewStudent(id: int, form: StudentForm): Student {
    Student(id, form.name, form.rollNumber, form.department, form.year, form.section, form.email,
            0, 0, "active")
  }

  class StudentTable {
    var studentsData: seq<Student>
    var filteredStudents: seq<Student>
    var currentPage: int

    /** The page number is always a real page index from 1 up. */
    predicate Valid()
      reads this
    {
      currentPage >= 1
    }

    constructor(initial: seq<Student>)
      ensures Valid()
      ensures studentsData == initial && filteredStudents == initial && currentPage == 1
    {
      studentsData := initial;
      filteredStudents := initial;
      currentPage := 1;
    }

    /** `applyFilters`: narrow what is on screen and go back to page 1. */
    method ApplyFilters(f: Filters)
      modifies this
      ensures Valid()
      ensures filteredStudents == Narrowed(old(filteredStudents), f)
      ensures currentPage == 1 && studentsData == old(studentsData)
    {
      var filtered := filteredStudents;
      if f.department != "" {
        filtered := Select(filtered, ByDepartment(f.department));
      }
      if f.year != "" {
        filtered := Select(filtered, ByYear(f.year));
      }
      if f.status != "" {
        filtered := Select(filtered, ByStatus(f.status));
      }
      filteredStudents := filtered;
      currentPage := 1;
    }

    /** `handleSearch`: start again from every student, keep those matching the
        search, then apply the selects. */
    method HandleSearch(search: string, f: Filters)
      modifies this
      ensures Valid()
      ensures filteredStudents == Narrowed(Select(old(studentsData), BySearch(search)), f)
      ensures currentPage == 1 && studentsData == old(studentsData)
    {
      filteredStudents := Select(studentsData, BySearch(search));
      ApplyFilters(f);
    }

    /** `goToPage`: move only to an existing page. */
    method GoToPage(page: int)
      requires Valid()
      modifies this
      ensures Valid()
      ensures currentPage == (if 1 <= page <= TotalPages(|filteredStudents|) then page else old(currentPage))
      ensures studentsData == old(studentsData) && filteredStudents == old(filteredStudents)
    {
      if 1 <= page && page <= TotalPages(|filteredStudents|) {
        currentPage := page;
      }
    }

    /** `renderStudentsTable`: the rows of the current page, one `forEach` step per
        row, and the three counters. */
    method RenderStudentsTable() returns (v: TableView)
      requires Valid()
      ensures v == TableViewOf(filteredStudents, currentPage)
    {
      var startIndex := (currentPage - 1) * ItemsPerPage;
      var endIndex := startIndex + ItemsPerPage;
      var lo, hi := Min(startIndex, |filteredStudents|), Min(endIndex, |filteredStudents|);
      var rows: seq<Student> := [];
      var i := lo;
      while i < hi
        invariant lo <= i <= hi
        invariant rows == filteredStudents[lo..i]
      {
        rows := rows + [filteredStudents[i]];
        i := i + 1;
      }
      v := TableView(rows, startIndex + 1, Min(endIndex, |filteredStudents|), |filteredStudents|);
    }

    /** `updatePagination`: the bar for the current state. */
    method UpdatePagination() returns (p: Pagination)
      ensures p == PaginationOf(|filteredStudents|, currentPage)
    {
      var total := TotalPages(|filteredStudents|);
      var items: seq<PageItem> := [];
      var i := 1;
      while i <= total
        invariant 1 <= i <= total + 1
        invariant items == PageItems(i - 1, total, currentPage)
      {
        if i == 1 || i == total || (i >= currentPage - 2 && i <= currentPage + 2) {
          items := items + [PageButton(i, i == currentPage)];
        } else if i == currentPage - 3 || i == currentPage + 3 {
          items := items + [Ellipsis(i)];
        }
        i := i + 1;
      }
      p := Pagination(items, currentPage == 1, currentPage == total || total == 0);
    }

    /** `handleAddStudent`: append the new student to every student, then apply
        the selects to what is on screen. */
    method HandleAddStudent(id: int, form: StudentForm, f: Filters)
      modifies this
      ensures Valid()
      ensures studentsData == old(studentsData) + [NewStudent(id, form)]
      ensures filteredStudents == Narrowed(old(filteredStudents), f) && currentPage == 1
    {
      studentsData := studentsData + [NewStudent(id, form)];
      ApplyFilters(f);
    }

    /** `deleteStudent`: once confirmed, drop every student with the id from the
        full list, then apply the selects to what is on screen. */
    method DeleteStudent(id: int, confirmed: bool, f: Filters)
      requires Valid()
      modifies this
      ensures Valid()
      ensures !confirmed ==> studentsData == old(studentsData) && filteredStudents == old(filteredStudents)
                             && currentPage == old(currentPage)
      ensures confirmed ==> studentsData == WithoutStudent(old(studentsData), id)
                            && filteredStudents == Narrowed(old(filteredStudents), f) && currentPage == 1
    {
      if confirmed {
        studentsData := WithoutStudent(studentsData, id);
        ApplyFilters(f);
      }
    }
  }

  /** `studentsData.filter(s => s.id !== id)`. */
  function WithoutStudent(xs: seq<Student>, id: int): seq<Student> {
    if xs == [] then []
    else WithoutStudent(xs[..|xs| - 1], id) + (if xs[|xs| - 1].id != id then [xs[|xs| - 1]] else [])
  }

  /** Deleting removes every student with the id and keeps the others as listed. */
  lemma {:induction false} WithoutStudentCounts(xs: seq<Student>, id: int)
    ensures var r := WithoutStudent(xs, id);
      && |r| <= |xs|
      && forall s :: multiset(r)[s] == if s.id == id then 0 else multiset(xs)[s]
  {
    if xs != [] {
      WithoutStudentCounts(xs[..|xs| - 1], id);
      assert xs == xs[..|xs| - 1] + [xs[|xs| - 1]];
    }
  }

  /** After adding, the new student is in the full list but not on screen unless
      it already was, whatever the selects say. */
  lemma AddedStudentNotShown(students: seq<Student>, shown: seq<Student>, id: int, form: StudentForm, f: Filters)
    requires NewStudent(id, form) !in shown
    ensures NewStudent(id, form) in students + [NewStudent(id, form)]
    ensures NewStudent(id, form) !in Narrowed(shown, f)
  {
    NarrowedNeverRestores(shown, f, NewStudent(id, form));
  }

  /** After a delete, a shown student with that id that passes the selects is
      still on screen, though no student with that id is left in the full list. */
  lemma DeletedStudentStaysShown(students: seq<Student>, shown: seq<Student>, s: Student, f: Filters)
    requires s in shown && Passes(s, f)
    ensures s !in WithoutStudent(students, s.id)
    ensures s in Narrowed(shown, f)
  {
    WithoutStudentCounts(students, s.id);
    NarrowedKeepsPassing(shown, f, s);
  }
}
