/** What the three list pages share: the comparator their sort functions
    build from a field and a direction, the stable sort the browser runs on
    a copy of the list, and the search box with its "load more" counter. */
module Listing {
  import opened Common
  import opened Text

  // ---------------------------------------------------------------------------
  // Sort keys and the comparator
  // ---------------------------------------------------------------------------

  /** The value a row is compared by: a number (an id, a time in
      milliseconds) or a text. */
  datatype SortKey = Num(n: int) | Str(s: string)

  /** JavaScript's `<` on two keys of one field: numbers by value, texts
      character by character (`StrLess`). Keys of different kinds never meet in one field; numbers
      are put first so that the order is total. */
  predicate KeyLess(a: SortKey, b: SortKey) {
    match (a, b)
    case (Num(x), Num(y)) => x < y
    case (Str(x), Str(y)) => StrLess(x, y)
    case (Num(_), Str(_)) => true
    case (Str(_), Num(_)) => false
  }

  lemma KeyLessIrreflexive(a: SortKey)
    ensures !KeyLess(a, a)
  {
    if a.Str? {
      StrLessIrreflexive(a.s);
    }
  }

  lemma KeyLessTransitive(a: SortKey, b: SortKey, c: SortKey)
    requires KeyLess(a, b) && KeyLess(b, c)
    ensures KeyLess(a, c)
  {
    if a.Str? && b.Str? && c.Str? {
      StrLessTransitive(a.s, b.s, c.s);
    }
  }

  lemma KeyLessTotal(a: SortKey, b: SortKey)
    ensures a == b || KeyLess(a, b) || KeyLess(b, a)
  {
    if a.Str? && b.Str? {
      StrLessTotal(a.s, b.s);
    }
  }

  datatype Direction = Asc | Desc

  /** What the sort select asks for: a known field in a direction, or a field
      the switch does not know, for which the comparator always answers 0. */
  datatype Ordering = ByKey(dir: Direction) | Unknown

  /** The comparator of the sort functions: negative when `a` goes first,
      positive when `b` goes first, zero when they tie. */
  function Compare<T>(key: T -> SortKey, ord: Ordering, a: T, b: T): (c: int)
    ensures -1 <= c <= 1
    ensures ord.Unknown? ==> c == 0
    ensures ord.ByKey? && c == 0 ==> key(a) == key(b)
    ensures ord.ByKey? && key(a) == key(b) ==> c == 0
  {
    KeyLessTotal(key(a), key(b));
    KeyLessIrreflexive(key(a));
    match ord
    case Unknown => 0
    case ByKey(dir) =>
      if KeyLess(key(a), key(b)) then (if dir == Asc then -1 else 1)
      else if KeyLess(key(b), key(a)) then (if dir == Asc then 1 else -1)
      else 0
  }

  /** Swapping the operands negates the verdict. */
  lemma CompareFlip<T>(key: T -> SortKey, ord: Ordering, a: T, b: T)
    ensures Compare(key, ord, a, b) == -Compare(key, ord, b, a)
  {
    if KeyLess(key(a), key(b)) && KeyLess(key(b), key(a)) {
      KeyLessTransitive(key(a), key(b), key(a));
      KeyLessIrreflexive(key(a));
    }
  }

  /** When the comparator lets `a` stay ahead of `b`, in terms of their keys. */
  lemma CompareNotAfter<T>(key: T -> SortKey, ord: Ordering, a: T, b: T)
    ensures Compare(key, ord, a, b) <= 0 <==>
              match ord
              case Unknown => true
              case ByKey(Asc) => !KeyLess(key(b), key(a))
              case ByKey(Desc) => !KeyLess(key(a), key(b))
  {
    if KeyLess(key(a), key(b)) && KeyLess(key(b), key(a)) {
      KeyLessTransitive(key(a), key(b), key(a));
      KeyLessIrreflexive(key(a));
    }
  }

  /** Not being after is transitive on keys. */
  lemma KeyNotAfterTransitive(x: SortKey, y: SortKey, z: SortKey)
    requires !KeyLess(y, x) && !KeyLess(z, y)
    ensures !KeyLess(z, x)
  {
    KeyLessTotal(x, y);
    if KeyLess(z, x) && KeyLess(x, y) {
      KeyLessTransitive(z, x, y);
    }
  }

  /** "Not after" is transitive. */
  lemma CompareTransitive<T>(key: T -> SortKey, ord: Ordering, a: T, b: T, c: T)
    requires Compare(key, ord, a, b) <= 0 && Compare(key, ord, b, c) <= 0
    ensures Compare(key, ord, a, c) <= 0
  {
    CompareNotAfter(key, ord, a, b);
    CompareNotAfter(key, ord, b, c);
    CompareNotAfter(key, ord, a, c);
    if ord == ByKey(Asc) {
      KeyNotAfterTransitive(key(a), key(b), key(c));
    } else if ord == ByKey(Desc) {
      KeyNotAfterTransitive(key(c), key(b), key(a));
    }
  }

  // ---------------------------------------------------------------------------
  // The stable sort
  // ---------------------------------------------------------------------------

  /** `x` goes in front of the first row that does not strictly precede it,
      so it stays ahead of every row it ties with. */
  function Insert<T>(key: T -> SortKey, ord: Ordering, x: T, s: seq<T>): (r: seq<T>)
    ensures multiset(r) == multiset(s) + multiset{x}
    ensures |r| == |s| + 1
  {
    if s == [] || Compare(key, ord, s[0], x) >= 0 then [x] + s
    else
      assert s == [s[0]] + s[1..];
      [s[0]] + Insert(key, ord, x, s[1..])
  }

  /** The copy-and-sort of the list pages: a stable sort by the comparator. */
  function SortBy<T>(key: T -> SortKey, ord: Ordering, s: seq<T>): (r: seq<T>)
    ensures multiset(r) == multiset(s)
    ensures |r| == |s|
  {
    if s == [] then []
    else
      assert s == [s[0]] + s[1..];
      Insert(key, ord, s[0], SortBy(key, ord, s[1..]))
  }

  /** No row is followed by one the comparator puts first. */
  ghost predicate Sorted<T>(key: T -> SortKey, ord: Ordering, s: seq<T>) {
    forall i, j :: 0 <= i < j < |s| ==> Compare(key, ord, s[i], s[j]) <= 0
  }

  /** `y` may stand in front of every row of `s`. */
  ghost predicate LeadsAll<T>(key: T -> SortKey, ord: Ordering, y: T, s: seq<T>) {
    forall e :: e in s ==> Compare(key, ord, y, e) <= 0
  }

  lemma ConsSorted<T>(key: T -> SortKey, ord: Ordering, y: T, s: seq<T>)
    requires LeadsAll(key, ord, y, s) && Sorted(key, ord, s)
    ensures Sorted(key, ord, [y] + s)
  {
    var r := [y] + s;
    forall i, j | 0 <= i < j < |r| ensures Compare(key, ord, r[i], r[j]) <= 0 {
      assert r[j] == s[j - 1];
      if i > 0 {
        assert r[i] == s[i - 1];
      } else {
        assert r[j] in s;
      }
    }
  }

  lemma SortedTail<T>(key: T -> SortKey, ord: Ordering, s: seq<T>)
    requires s != [] && Sorted(key, ord, s)
    ensures LeadsAll(key, ord, s[0], s[1..]) && Sorted(key, ord, s[1..])
  {
    forall e | e in s[1..] ensures Compare(key, ord, s[0], e) <= 0 {
      var k :| 0 <= k < |s[1..]| && s[1..][k] == e;
      assert s[k + 1] == e;
    }
    forall i, j | 0 <= i < j < |s[1..]| ensures Compare(key, ord, s[1..][i], s[1..][j]) <= 0 {
      assert s[1..][i] == s[i + 1] && s[1..][j] == s[j + 1];
    }
  }

  lemma {:induction false} InsertSorted<T>(key: T -> SortKey, ord: Ordering, x: T, s: seq<T>)
    requires Sorted(key, ord, s)
    ensures Sorted(key, ord, Insert(key, ord, x, s))
  {
    if s == [] {
    } else if Compare(key, ord, s[0], x) >= 0 {
      SortedTail(key, ord, s);
      CompareFlip(key, ord, s[0], x);
      forall e | e in s ensures Compare(key, ord, x, e) <= 0 {
        if e != s[0] {
          assert e in s[1..] by { assert s == [s[0]] + s[1..]; }
          CompareTransitive(key, ord, x, s[0], e);
        }
      }
      ConsSorted(key, ord, x, s);
    } else {
      SortedTail(key, ord, s);
      var t := Insert(key, ord, x, s[1..]);
      InsertSorted(key, ord, x, s[1..]);
      forall e | e in t ensures Compare(key, ord, s[0], e) <= 0 {
        assert e in multiset(t);
      }
      ConsSorted(key, ord, s[0], t);
    }
  }

  /** The result is in the order the comparator asks for. */
  lemma {:induction false} SortBySorted<T>(key: T -> SortKey, ord: Ordering, s: seq<T>)
    ensures Sorted(key, ord, SortBy(key, ord, s))
  {
    if s != [] {
      SortBySorted(key, ord, s[1..]);
      InsertSorted(key, ord, s[0], SortBy(key, ord, s[1..]));
    }
  }

  /** A field the switch does not know keeps the original order. */
  lemma {:induction false} UnknownFieldKeepsOrder<T>(key: T -> SortKey, s: seq<T>)
    ensures SortBy(key, Unknown, s) == s
  {
    if s != [] {
      UnknownFieldKeepsOrder(key, s[1..]);
      assert s == [s[0]] + s[1..];
    }
  }

  /** The rows whose key is `k`, in order. */
  function WithKey<T>(key: T -> SortKey, k: SortKey, s: seq<T>): (r: seq<T>)
    ensures |r| <= |s|
  {
    if s == [] then []
    else (if key(s[0]) == k then [s[0]] else []) + WithKey(key, k, s[1..])
  }

  lemma {:induction false} InsertWithKey<T>(key: T -> SortKey, ord: Ordering, k: SortKey, x: T, s: seq<T>)
    ensures WithKey(key, k, Insert(key, ord, x, s))
            == (if key(x) == k then [x] else []) + WithKey(key, k, s)
  {
    if s == [] || Compare(key, ord, s[0], x) >= 0 {
      assert Insert(key, ord, x, s) == [x] + s;
      assert ([x] + s)[1..] == s;
    } else {
      var t := Insert(key, ord, x, s[1..]);
      InsertWithKey(key, ord, k, x, s[1..]);
      assert Insert(key, ord, x, s) == [s[0]] + t;
      assert ([s[0]] + t)[1..] == t;
      assert key(s[0]) != key(x);
    }
  }

  /** The sort is stable: rows with equal keys keep their relative order. */
  lemma {:induction false} SortByStable<T>(key: T -> SortKey, ord: Ordering, k: SortKey, s: seq<T>)
    ensures WithKey(key, k, SortBy(key, ord, s)) == WithKey(key, k, s)
  {
    if s != [] {
      SortByStable(key, ord, k, s[1..]);
      InsertWithKey(key, ord, k, s[0], SortBy(key, ord, s[1..]));
    }
  }

  // ---------------------------------------------------------------------------
  // JavaScript values the pages test
  // ---------------------------------------------------------------------------

  /** A numeric id held in page state: absent (the empty string, null) or a
      number. Such a value is truthy when it is a number other than 0. */
  predicate Truthy(id: Option<int>) {
    id.Some? && id.value != 0
  }

  /** A text field is truthy when it is present and not empty. */
  predicate Present(s: Option<string>) {
    s.Some? && s.value != ""
  }

  /** `Array.prototype.filter`: the rows that pass, in their order. */
  function Filter<T(!new)>(p: T -> bool, s: seq<T>): (r: seq<T>)
    ensures forall x :: x in r <==> x in s && p(x)
    ensures |r| <= |s|
  {
    if s == [] then []
    else (if p(s[0]) then [s[0]] else []) + Filter(p, s[1..])
  }

  /** Filtering works row by row: the rows kept from a concatenation are the
      rows kept from each part, in order, and a single row is kept exactly
      when it passes. Together these fix the order and the multiplicity of
      the result. */
  lemma {:induction false} FilterAppend<T(!new)>(p: T -> bool, a: seq<T>, b: seq<T>)
    ensures Filter(p, a + b) == Filter(p, a) + Filter(p, b)
    ensures forall x :: Filter(p, [x]) == if p(x) then [x] else []
  {
    forall x ensures Filter(p, [x]) == if p(x) then [x] else [] {
      assert [x][1..] == [];
    }
    if a != [] {
      assert (a + b)[1..] == a[1..] + b;
      FilterAppend(p, a[1..], b);
    } else {
      assert a + b == b;
    }
  }

  /** A filter that every row passes returns the list itself. */
  lemma {:induction false} FilterAllPass<T(!new)>(p: T -> bool, s: seq<T>)
    requires forall x :: x in s ==> p(x)
    ensures Filter(p, s) == s
  {
    if s != [] {
      assert forall x :: x in s[1..] ==> x in s;
      FilterAllPass(p, s[1..]);
      assert s == [s[0]] + s[1..];
    }
  }

  /** When no row passes, nothing is kept. */
  lemma FilterNonePass<T(!new)>(p: T -> bool, s: seq<T>)
    requires forall x :: x in s ==> !p(x)
    ensures Filter(p, s) == []
  {
    if Filter(p, s) != [] {
      assert Filter(p, s)[0] in Filter(p, s);
    }
  }

  /** `Array.prototype.find`: the first row that passes, if any. */
  function FindFirst<T(!new,==)>(p: T -> bool, s: seq<T>): (r: Option<T>)
    ensures r.None? <==> forall x :: x in s ==> !p(x)
    ensures r.Some? ==> r.value in s && p(r.value)
    ensures r.Some? ==> exists i :: 0 <= i < |s| && s[i] == r.value && forall j :: 0 <= j < i ==> !p(s[j])
  {
    if s == [] then None
    else if p(s[0]) then Some(s[0])
    else
      var r := FindFirst(p, s[1..]);
      assert r.Some? ==> forall j :: 0 <= j < 1 ==> !p(s[j]);
      if r.Some? then
        var i :| 0 <= i < |s[1..]| && s[1..][i] == r.value && forall j :: 0 <= j < i ==> !p(s[1..][j]);
        assert s[i + 1] == r.value && forall j :: 0 <= j < i + 1 ==> !p(s[j]);
        r
      else
        r
  }

  /** A response body the page expects to be an array: an array, or
      anything else (an object, a text that is not a JSON array). */
  datatype Payload<T> = JsonArray(items: seq<T>) | NotAnArray

  /** A body that is not an array loads as the empty list. */
  function RowsOf<T>(p: Payload<T>): (r: seq<T>)
    ensures p.NotAnArray? ==> r == []
    ensures p.JsonArray? ==> r == p.items
  {
    if p.JsonArray? then p.items else []
  }

  // ---------------------------------------------------------------------------
  // The search box and the "load more" counter
  // ---------------------------------------------------------------------------

  const PageSize: nat := 10

  /** The search state of a list page: the typed term, the `search` URL
      parameter, and how many rows are shown. */
  class SearchBox {
    var searchTerm: string
    var urlSearch: Option<string>
    var visibleCount: nat

    constructor (url: Option<string>)
      ensures searchTerm == "" && urlSearch == url && visibleCount == PageSize
    {
      searchTerm := "";
      urlSearch := url;
      visibleCount := PageSize;
    }

    /** The term the filter uses: the typed term, or the URL's when nothing is typed. */
    function EffectiveTerm(): (t: string)
      reads this
      ensures searchTerm != "" ==> t == searchTerm
      ensures searchTerm == "" && urlSearch.Some? ==> t == urlSearch.value
      ensures searchTerm == "" && urlSearch.None? ==> t == ""
    {
      if searchTerm != "" then searchTerm else urlSearch.GetOr("")
    }

    /** A typed change: the term is replaced, the URL parameter is set (or
        removed for an empty term) when the page keeps it in the URL, and the
        page goes back to its first ten rows. */
    method ChangeSearch(value: string, syncUrl: bool)
      modifies this
      ensures searchTerm == value && visibleCount == PageSize
      ensures syncUrl ==> urlSearch == (if value == "" then None else Some(value))
      ensures !syncUrl ==> urlSearch == old(urlSearch)
    {
      searchTerm := value;
      if syncUrl {
        urlSearch := if value == "" then None else Some(value);
      }
      visibleCount := PageSize;
    }

    /** A URL term is copied into an empty search box. */
    method AdoptUrlSearch()
      modifies this`searchTerm
      ensures old(searchTerm) == "" && urlSearch.Some? && urlSearch.value != "" ==> searchTerm == urlSearch.value
      ensures !(old(searchTerm) == "" && urlSearch.Some? && urlSearch.value != "") ==> searchTerm == old(searchTerm)
    {
      if searchTerm == "" && urlSearch.Some? && urlSearch.value != "" {
        searchTerm := urlSearch.value;
      }
    }

    method LoadMore()
      modifies this`visibleCount
      ensures visibleCount == old(visibleCount) + PageSize
    {
      visibleCount := visibleCount + PageSize;
    }

    /** The rows on screen: the first `visibleCount` of the filtered list. */
    function Visible<T>(rows: seq<T>): (r: seq<T>)
      reads this
      ensures |r| == if |rows| < visibleCount then |rows| else visibleCount
      ensures r == rows[..|r|]
    {
      if |rows| < visibleCount then rows else rows[..visibleCount]
    }

    /** The "load more" button shows while rows remain hidden. */
    function ShowsLoadMore<T>(rows: seq<T>): (b: bool)
      reads this
      ensures b <==> |Visible(rows)| < |rows|
    {
      |rows| > visibleCount
    }
  }
}
