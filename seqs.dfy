/** Sequences as database tables and query results.

    A repository table is a `seq` of rows; a JPQL query is a filter followed
    by an `order by` (an insertion sort on an integer key, descending) and,
    for paged queries, a window cut out by a PageRequest. `save` is an upsert
    by primary key. */
module Seqs {
  import opened Base

  // ---------------------------------------------------------------- filter

  /** The rows of `s` that satisfy `p`, in table order (a `where` clause). */
  function Filter<T(!new)>(s: seq<T>, p: T -> bool): (r: seq<T>)
    ensures |r| <= |s|
    ensures forall x :: x in r <==> x in s && p(x)
    ensures forall k :: 0 <= k < |r| ==> p(r[k])
    ensures multiset(r) <= multiset(s)
  {
    if s == [] then []
    else
      assert s == [s[0]] + s[1..];
      (if p(s[0]) then [s[0]] else []) + Filter(s[1..], p)
  }

  /** One step of a filter: the head row, if it passes, followed by the filtered rest. */
  lemma FilterCons<T(!new)>(s: seq<T>, p: T -> bool)
    requires s != []
    ensures Filter(s, p) == (if p(s[0]) then [s[0]] else []) + Filter(s[1..], p)
  {
  }

  /** Filtering distributes over concatenation, so it keeps the relative order of rows. */
  lemma {:induction false} FilterAppend<T(!new)>(a: seq<T>, b: seq<T>, p: T -> bool)
    ensures Filter(a + b, p) == Filter(a, p) + Filter(b, p)
  {
    if a == [] {
      assert a + b == b;
    } else {
      assert (a + b)[1..] == a[1..] + b;
      FilterAppend(a[1..], b, p);
    }
  }

  /** Filtering with a predicate that holds of every row changes nothing. */
  lemma {:induction false} FilterAll<T(!new)>(s: seq<T>, p: T -> bool)
    requires forall k :: 0 <= k < |s| ==> p(s[k])
    ensures Filter(s, p) == s
  {
    if s != [] {
      FilterAll(s[1..], p);
    }
  }

  /** One step of a filter, counted as a multiset. */
  lemma FilterConsMultiset<T(!new)>(s: seq<T>, p: T -> bool)
    requires s != []
    ensures multiset(Filter(s, p)) == (if p(s[0]) then multiset{s[0]} else multiset{}) + multiset(Filter(s[1..], p))
  {
    FilterCons(s, p);
  }

  /** The position of a row a non-empty filter kept. */
  lemma {:induction false} OneKept<T(!new)>(s: seq<T>, p: T -> bool) returns (k: nat)
    requires Filter(s, p) != []
    ensures k < |s| && p(s[k])
  {
    FilterCons(s, p);
    if p(s[0]) {
      k := 0;
    } else {
      var k' := OneKept(s[1..], p);
      k := k' + 1;
    }
  }

  /** The positions of two rows a filter kept. */
  lemma {:induction false} TwoKept<T(!new)>(s: seq<T>, p: T -> bool) returns (i: nat, j: nat)
    requires |Filter(s, p)| >= 2
    ensures i < j < |s| && p(s[i]) && p(s[j])
  {
    FilterCons(s, p);
    if p(s[0]) {
      assert |Filter(s[1..], p)| >= 1;
      var k := OneKept(s[1..], p);
      i, j := 0, k + 1;
    } else {
      var a, b := TwoKept(s[1..], p);
      i, j := a + 1, b + 1;
    }
  }

  /** Two passing positions of a table give a filter at least two rows. */
  lemma {:induction false} TwoPositionsKept<T(!new)>(s: seq<T>, p: T -> bool, i: nat, j: nat)
    requires i < j < |s| && p(s[i]) && p(s[j])
    ensures |Filter(s, p)| >= 2
  {
    FilterCons(s, p);
    if i == 0 {
      assert s[1..][j - 1] == s[j];
      assert s[j] in Filter(s[1..], p);
    } else {
      TwoPositionsKept(s[1..], p, i - 1, j - 1);
    }
  }

  /** Two complementary filters split a table: their results together hold every row exactly as often as the table does. */
  lemma {:induction false} FilterSplit<T(!new)>(s: seq<T>, p: T -> bool, q: T -> bool)
    requires forall x :: x in s ==> (p(x) <==> !q(x))
    ensures multiset(Filter(s, p)) + multiset(Filter(s, q)) == multiset(s)
  {
    if s != [] {
      assert forall x :: x in s[1..] ==> x in s;
      FilterSplit(s[1..], p, q);
      assert s[0] in s;
      FilterSplitStep(s, p, q);
    }
  }

  /** One step of FilterSplit: the head row goes to exactly one side. */
  lemma FilterSplitStep<T(!new)>(s: seq<T>, p: T -> bool, q: T -> bool)
    requires s != [] && (p(s[0]) <==> !q(s[0]))
    requires multiset(Filter(s[1..], p)) + multiset(Filter(s[1..], q)) == multiset(s[1..])
    ensures multiset(Filter(s, p)) + multiset(Filter(s, q)) == multiset(s)
  {
    FilterConsMultiset(s, p);
    FilterConsMultiset(s, q);
    MultisetCons(s);
    OneSide(s[0], p(s[0]), multiset(Filter(s[1..], p)), multiset(Filter(s[1..], q)));
  }

  /** The rows of a non-empty sequence: its head and the rows of its tail. */
  lemma MultisetCons<T>(s: seq<T>)
    requires s != []
    ensures multiset(s) == multiset{s[0]} + multiset(s[1..])
  {
    assert s == [s[0]] + s[1..];
  }

  /** A row added to exactly one of two parts is added to their sum once. */
  lemma OneSide<T>(x: T, left: bool, a: multiset<T>, b: multiset<T>)
    ensures ((if left then multiset{x} else multiset{}) + a) + ((if left then multiset{} else multiset{x}) + b)
         == multiset{x} + (a + b)
  {
  }

  /** A stream filter whose predicate may throw: the kept rows in order, or
      the exception of a row whose test throws. */
  function TryFilter<T(!new)>(s: seq<T>, f: T -> Result<bool>): (r: Result<seq<T>>)
    ensures r.Err? <==> exists k :: 0 <= k < |s| && f(s[k]).Err?
    ensures r.Err? ==> exists k :: 0 <= k < |s| && f(s[k]) == Err(r.error)
    ensures r.Ok? ==> forall x :: x in r.value <==> x in s && f(x) == Ok(true)
    ensures r.Ok? ==> multiset(r.value) <= multiset(s) && |r.value| <= |s|
  {
    if s == [] then Ok([])
    else
      match f(s[0])
      case Err(e) =>
        assert f(s[0]) == Err(e);
        Err(e)
      case Ok(keep) =>
        match TryFilter(s[1..], f)
        case Err(e) =>
          TryFilterTailThrows(s, f, e);
          Err(e)
        case Ok(rest) =>
          TryFilterStep(s, f, keep, rest);
          Ok((if keep then [s[0]] else []) + rest)
  }

  /** Two tests that agree on every row give the same stream result. */
  lemma {:induction false} TryFilterSameTests<T(!new)>(s: seq<T>, f: T -> Result<bool>, g: T -> Result<bool>)
    requires forall x :: x in s ==> f(x) == g(x)
    ensures TryFilter(s, f) == TryFilter(s, g)
  {
    if s != [] {
      assert s[0] in s;
      assert forall x :: x in s[1..] ==> x in s;
      TryFilterSameTests(s[1..], f, g);
    }
  }

  /** A row of the tail that throws is a row of the whole sequence that throws. */
  lemma TryFilterTailThrows<T(!new)>(s: seq<T>, f: T -> Result<bool>, e: Failure)
    requires s != []
    requires exists k :: 0 <= k < |s[1..]| && f(s[1..][k]) == Err(e)
    ensures exists k :: 0 <= k < |s| && f(s[k]) == Err(e)
  {
    var k :| 0 <= k < |s[1..]| && f(s[1..][k]) == Err(e);
    assert s[k + 1] == s[1..][k];
  }

  /** The head passed its test without throwing and the tail was filtered. */
  lemma TryFilterStep<T(!new)>(s: seq<T>, f: T -> Result<bool>, keep: bool, rest: seq<T>)
    requires s != [] && f(s[0]) == Ok(keep)
    requires !exists k :: 0 <= k < |s[1..]| && f(s[1..][k]).Err?
    requires forall x :: x in rest <==> x in s[1..] && f(x) == Ok(true)
    requires multiset(rest) <= multiset(s[1..]) && |rest| <= |s[1..]|
    ensures !exists k :: 0 <= k < |s| && f(s[k]).Err?
    ensures forall x :: x in (if keep then [s[0]] else []) + rest <==> x in s && f(x) == Ok(true)
    ensures multiset((if keep then [s[0]] else []) + rest) <= multiset(s)
    ensures |(if keep then [s[0]] else []) + rest| <= |s|
  {
    forall k | 0 < k < |s| ensures !f(s[k]).Err? {
      assert s[k] == s[1..][k - 1];
    }
    MultisetCons(s);
    assert forall x :: x in s <==> x == s[0] || x in s[1..] by {
      assert s == [s[0]] + s[1..];
    }
  }

  // ---------------------------------------------------------------- order by

  /** `s` is ordered by `key`, largest first. */
  ghost predicate SortedDesc<T(!new)>(s: seq<T>, key: T -> int)
  {
    forall i, j :: 0 <= i < j < |s| ==> key(s[i]) >= key(s[j])
  }

  /** Inserts `x` before the first row of `s` whose key is smaller. */
  function InsertDesc<T(!new)>(x: T, s: seq<T>, key: T -> int): (r: seq<T>)
    requires SortedDesc(s, key)
    ensures |r| == |s| + 1
    ensures multiset(r) == multiset(s) + multiset{x}
    ensures forall y :: y in r ==> y == x || y in s
    ensures SortedDesc(r, key)
  {
    if s == [] || key(x) >= key(s[0]) then
      [x] + s
    else
      var rest := InsertDesc(x, s[1..], key);
      InsertDescStep(x, s, rest, key);
      [s[0]] + rest
  }

  /** The recursive case of InsertDesc: `x` went into the tail, behind the head. */
  lemma InsertDescStep<T(!new)>(x: T, s: seq<T>, rest: seq<T>, key: T -> int)
    requires SortedDesc(s, key) && s != [] && key(x) < key(s[0])
    requires multiset(rest) == multiset(s[1..]) + multiset{x}
    requires forall y :: y in rest ==> y == x || y in s[1..]
    requires SortedDesc(rest, key)
    ensures multiset([s[0]] + rest) == multiset(s) + multiset{x}
    ensures forall y :: y in [s[0]] + rest ==> y == x || y in s
    ensures SortedDesc([s[0]] + rest, key)
  {
    SortedHeadIsMax(s, key);
    MultisetCons(s);
    assert forall y :: y in s[1..] ==> y in s;
    SortedCons(s[0], rest, key);
  }

  /** A row whose key is at least every key of a sorted sequence can go in front of it. */
  lemma SortedCons<T(!new)>(x: T, s: seq<T>, key: T -> int)
    requires SortedDesc(s, key)
    requires forall y :: y in s ==> key(y) <= key(x)
    ensures SortedDesc([x] + s, key)
  {
    var r := [x] + s;
    forall i, j | 0 <= i < j < |r| ensures key(r[i]) >= key(r[j]) {
      assert r[j] == s[j - 1];
      if i > 0 {
        assert r[i] == s[i - 1];
      } else {
        assert s[j - 1] in s;
      }
    }
  }

  /** `order by key desc`: a permutation of `s`, ordered by `key`. */
  function SortDesc<T(!new)>(s: seq<T>, key: T -> int): (r: seq<T>)
    ensures |r| == |s|
    ensures multiset(r) == multiset(s)
    ensures SortedDesc(r, key)
  {
    if s == [] then []
    else
      assert s == [s[0]] + s[1..];
      InsertDesc(s[0], SortDesc(s[1..], key), key)
  }

  /** Sorting keeps exactly the rows it was given. */
  lemma SortDescMembers<T(!new)>(s: seq<T>, key: T -> int)
    ensures forall x :: x in SortDesc(s, key) <==> x in s
  {
    var r := SortDesc(s, key);
    forall x ensures x in r <==> x in s {
      assert x in r <==> x in multiset(r);
      assert x in s <==> x in multiset(s);
    }
  }

  // ---------------------------------------------------------------- paging

  /** Spring's PageRequest.of(page, size), without its sort. */
  datatype PageRequest = PageRequest(page: nat, size: nat)

  function Offset(p: PageRequest): nat
  {
    p.page * p.size
  }

  /** `r` is the page `p` of `rows`: row `k` of the page is row `page * size + k`
      of `rows`, and the page is cut short of `size` rows only by the end of `rows`. */
  ghost predicate PageOf<T>(r: seq<T>, rows: seq<T>, p: PageRequest)
  {
    && |r| <= p.size
    && (|r| == p.size || Offset(p) + |r| >= |rows|)
    && forall k :: 0 <= k < |r| ==> Offset(p) + k < |rows| && r[k] == rows[Offset(p) + k]
  }

  /** The length of a page: `size`, or what is left of `rows` after the offset. */
  lemma PageLength<T>(r: seq<T>, rows: seq<T>, p: PageRequest)
    requires PageOf(r, rows, p)
    ensures |r| == if Offset(p) >= |rows| then 0 else if Offset(p) + p.size <= |rows| then p.size else |rows| - Offset(p)
  {
    if |r| > 0 {
      var last := r[|r| - 1];
    }
  }

  /** A page is determined by the rows and the PageRequest. */
  lemma PageOfUnique<T>(r: seq<T>, r': seq<T>, rows: seq<T>, p: PageRequest)
    requires PageOf(r, rows, p) && PageOf(r', rows, p)
    ensures r == r'
  {
    PageLength(r, rows, p);
    PageLength(r', rows, p);
  }

  /** The page `p` of `s`: `size` rows starting at `page * size`, fewer at the end, none past it. */
  function Window<T(!new)>(s: seq<T>, p: PageRequest): (r: seq<T>)
    ensures |r| <= p.size
    ensures forall k :: 0 <= k < |r| ==> Offset(p) + k < |s| && r[k] == s[Offset(p) + k]
    ensures Offset(p) < |s| && 0 < p.size ==> r != []
    ensures Offset(p) >= |s| ==> r == []
    ensures PageOf(r, s, p)
  {
    var lo := Offset(p);
    if lo >= |s| then []
    else s[lo .. if lo + p.size <= |s| then lo + p.size else |s|]
  }

  /** A page of an ordered result is ordered, and holds only rows of the result. */
  lemma WindowSorted<T(!new)>(s: seq<T>, p: PageRequest, key: T -> int)
    requires SortedDesc(s, key)
    ensures SortedDesc(Window(s, p), key)
    ensures forall x :: x in Window(s, p) ==> x in s
  {
    var r := Window(s, p);
    forall i, j | 0 <= i < j < |r| ensures key(r[i]) >= key(r[j]) {
      assert r[i] == s[Offset(p) + i] && r[j] == s[Offset(p) + j];
    }
  }

  /** A page holds a sub-multiset of the rows it was cut from. */
  lemma WindowSubMultiset<T(!new)>(s: seq<T>, p: PageRequest)
    ensures multiset(Window(s, p)) <= multiset(s)
  {
    var lo := Offset(p);
    if lo < |s| {
      var hi := if lo + p.size <= |s| then lo + p.size else |s|;
      assert s == s[..lo] + s[lo..hi] + s[hi..];
      assert Window(s, p) == s[lo..hi];
    }
  }

  /** The first page of a size at least the length of `s` is all of `s`. */
  lemma WindowWhole<T(!new)>(s: seq<T>, p: PageRequest)
    requires p.page == 0 && |s| <= p.size
    ensures Window(s, p) == s
  {
  }

  /** The head of a sequence ordered by `key`, largest first, has the largest key. */
  lemma SortedHeadIsMax<T(!new)>(s: seq<T>, key: T -> int)
    requires SortedDesc(s, key) && s != []
    ensures forall x :: x in s ==> key(x) <= key(s[0])
  {
    forall x | x in s ensures key(x) <= key(s[0]) {
      var k :| 0 <= k < |s| && s[k] == x;
      if k > 0 {
        assert key(s[0]) >= key(s[k]);
      }
    }
  }

  /** A paged query: the rows satisfying `p`, ordered by `key` (largest
      first), then the page `page` of that order. */
  function Select<T(!new)>(s: seq<T>, p: T -> bool, key: T -> int, page: PageRequest): (r: seq<T>)
    ensures forall x :: x in r ==> x in s && p(x)
    ensures SortedDesc(r, key)
    ensures |r| <= page.size
    ensures multiset(r) <= multiset(s)
    ensures PageOf(r, SortDesc(Filter(s, p), key), page)
  {
    var matching := Filter(s, p);
    var rows := SortDesc(matching, key);
    SortDescMembers(matching, key);
    WindowSorted(rows, page, key);
    WindowSubMultiset(rows, page);
    Window(rows, page)
  }

  /** A first page large enough for the whole table holds every row satisfying `p`. */
  lemma SelectComplete<T(!new)>(s: seq<T>, p: T -> bool, key: T -> int, page: PageRequest)
    requires page.page == 0 && |s| <= page.size
    ensures multiset(Select(s, p, key, page)) == multiset(Filter(s, p))
    ensures forall x :: x in s && p(x) ==> x in Select(s, p, key, page)
  {
    var rows := SortDesc(Filter(s, p), key);
    WindowWhole(rows, page);
    SortDescMembers(Filter(s, p), key);
  }

  /** The first page of size one holds the row satisfying `p` with the largest
      key, and is empty only when no row satisfies `p`. */
  lemma SelectTop<T(!new)>(s: seq<T>, p: T -> bool, key: T -> int)
    ensures forall x, y :: x in Select(s, p, key, PageRequest(0, 1)) && y in s && p(y) ==> key(y) <= key(x)
    ensures (exists y :: y in s && p(y)) ==> Select(s, p, key, PageRequest(0, 1)) != []
  {
    var rows := SortDesc(Filter(s, p), key);
    SortDescMembers(Filter(s, p), key);
    if rows != [] {
      SortedHeadIsMax(rows, key);
      assert Select(s, p, key, PageRequest(0, 1)) == [rows[0]];
    }
  }

  /** The first row of a result, or null (`Page.stream().findFirst()`). */
  function First<T(!new)>(s: seq<T>): (r: Option<T>)
    ensures r.None? <==> s == []
    ensures r.Some? ==> r.value == s[0]
  {
    if s == [] then None else Some(s[0])
  }

  // ---------------------------------------------------------------- primary keys

  /** No two rows share a key (a primary-key column). */
  ghost predicate UniqueKeys<T(!new)>(s: seq<T>, key: T -> int)
  {
    forall i, j :: 0 <= i < j < |s| ==> key(s[i]) != key(s[j])
  }

  /** `findById`: the row with key `id`, or empty. */
  function Find<T(!new)>(s: seq<T>, key: T -> int, id: int): (r: Option<T>)
    ensures r.Some? ==> r.value in s && key(r.value) == id
    ensures r.None? <==> forall x :: x in s ==> key(x) != id
  {
    if s == [] then None
    else if key(s[0]) == id then Some(s[0])
    else Find(s[1..], key, id)
  }

  /** With unique keys, `findById` returns the one row that has the key. */
  lemma {:induction false} FindUnique<T(!new)>(s: seq<T>, key: T -> int, x: T)
    requires UniqueKeys(s, key) && x in s
    ensures Find(s, key, key(x)) == Some(x)
  {
    if s[0] != x {
      assert x in s[1..];
      FindUnique(s[1..], key, x);
    }
  }

  /** `save`: replaces the row with the same key, or appends a new one. */
  function Upsert<T(!new)>(s: seq<T>, x: T, key: T -> int): (r: seq<T>)
    ensures forall y :: y in r ==> y == x || y in s
    ensures (forall y :: y in s ==> key(y) != key(x)) ==> r == s + [x]
  {
    if s == [] then [x]
    else if key(s[0]) == key(x) then [x] + s[1..]
    else
      assert forall y :: y in s[1..] ==> y in s;
      [s[0]] + Upsert(s[1..], x, key)
  }

  /** After `save(x)`, `findById` of x's key returns x and every other key finds what it found before. */
  lemma {:induction false} UpsertFind<T(!new)>(s: seq<T>, x: T, key: T -> int, id: int)
    ensures Find(Upsert(s, x, key), key, id) == if id == key(x) then Some(x) else Find(s, key, id)
  {
    if s != [] && key(s[0]) != key(x) {
      UpsertFind(s[1..], x, key, id);
    }
  }

  /** `save` keeps the primary key unique. */
  lemma {:induction false} UpsertUnique<T(!new)>(s: seq<T>, x: T, key: T -> int)
    requires UniqueKeys(s, key)
    ensures UniqueKeys(Upsert(s, x, key), key)
  {
    var r := Upsert(s, x, key);
    if s == [] {
    } else if key(s[0]) == key(x) {
      forall i, j | 0 <= i < j < |r| ensures key(r[i]) != key(r[j]) {
        assert r[j] == s[j];
        if i > 0 { assert r[i] == s[i]; }
      }
    } else {
      UpsertUnique(s[1..], x, key);
      var rest := Upsert(s[1..], x, key);
      assert r == [s[0]] + rest;
      forall j | 0 <= j < |rest| ensures key(s[0]) != key(rest[j]) {
        assert rest[j] in rest;
        if rest[j] != x {
          var k :| 0 <= k < |s[1..]| && s[1..][k] == rest[j];
          assert s[k + 1] == rest[j];
        }
      }
    }
  }

  /** A row whose key is in a unique-key table occurs in it at most once. */
  lemma {:induction false} UniqueKeysCountAtMostOne<T(!new)>(s: seq<T>, key: T -> int, x: T)
    requires UniqueKeys(s, key)
    ensures multiset(s)[x] <= 1
  {
    if s != [] {
      assert s == [s[0]] + s[1..];
      UniqueKeysCountAtMostOne(s[1..], key, x);
      if s[0] == x {
        assert x !in s[1..] by {
          forall k | 1 <= k < |s| ensures s[k] != x {
            assert key(s[0]) != key(s[k]);
          }
        }
      }
    }
  }

  /** Two equal entries at different positions count twice. */
  lemma TwoPositionsCountTwice<T(!new)>(s: seq<T>, i: int, j: int)
    requires 0 <= i < j < |s| && s[i] == s[j]
    ensures multiset(s)[s[i]] >= 2
  {
    assert s == s[..j] + s[j..];
    assert s[i] in s[..j];
    assert s[j] in s[j..];
    assert multiset(s) == multiset(s[..j]) + multiset(s[j..]);
  }

  /** Any selection of rows from a unique-key table has unique keys: the `group by id` in the queries is a no-op. */
  lemma SubMultisetUniqueKeys<T(!new)>(r: seq<T>, s: seq<T>, key: T -> int)
    requires UniqueKeys(s, key)
    requires multiset(r) <= multiset(s)
    ensures UniqueKeys(r, key)
  {
    forall i, j | 0 <= i < j < |r| ensures key(r[i]) != key(r[j]) {
      if r[i] == r[j] {
        TwoPositionsCountTwice(r, i, j);
        UniqueKeysCountAtMostOne(s, key, r[i]);
        assert false;
      } else {
        assert r[i] in multiset(r) && r[j] in multiset(r);
        assert r[i] in s && r[j] in s;
        var a :| 0 <= a < |s| && s[a] == r[i];
        var b :| 0 <= b < |s| && s[b] == r[j];
        assert a != b;
        if a < b { assert key(s[a]) != key(s[b]); } else { assert key(s[b]) != key(s[a]); }
      }
    }
  }

  // ---------------------------------------------------------------- hash maps

  /** The predicate that keeps every row. */
  function AnyRow<T>(): T -> bool
  {
    (x: T) => true
  }

  /** `order` lists every key of `m` exactly once: one possible iteration
      order of a hash map, which the model takes as given. */
  ghost predicate IterationOrder<T>(m: map<int, T>, order: seq<int>)
  {
    (forall k :: k in m ==> k in order) &&
    (forall i :: 0 <= i < |order| ==> order[i] in m) &&
    (forall i, j :: 0 <= i < j < |order| ==> order[i] != order[j])
  }

  /** `map.values()` visited in the iteration order `order`. */
  function ValuesIn<T>(m: map<int, T>, order: seq<int>): (r: seq<T>)
    requires forall i :: 0 <= i < |order| ==> order[i] in m
    ensures |r| == |order|
    ensures forall i :: 0 <= i < |order| ==> r[i] == m[order[i]]
  {
    if order == [] then [] else [m[order[0]]] + ValuesIn(m, order[1..])
  }

  /** Every stored value is visited. */
  lemma ValuesInComplete<T>(m: map<int, T>, order: seq<int>, k: int)
    requires IterationOrder(m, order)
    requires k in m
    ensures m[k] in ValuesIn(m, order)
  {
    var i :| 0 <= i < |order| && order[i] == k;
    var all := ValuesIn(m, order);
    assert all[i] == m[k];
  }

  /** Each visited value is stored under its own key. */
  lemma ValuesInSound<T>(m: map<int, T>, order: seq<int>, key: T -> int)
    requires IterationOrder(m, order)
    requires forall k :: k in m ==> key(m[k]) == k
    ensures forall x :: x in ValuesIn(m, order) ==> key(x) in m && m[key(x)] == x
  {
    var all := ValuesIn(m, order);
    forall x | x in all ensures key(x) in m && m[key(x)] == x {
      var i :| 0 <= i < |all| && all[i] == x;
      assert x == m[order[i]];
    }
  }

  /** Each value is visited once: no two visited values carry the same key. */
  lemma ValuesInUnique<T(!new)>(m: map<int, T>, order: seq<int>, key: T -> int)
    requires IterationOrder(m, order)
    requires forall k :: k in m ==> key(m[k]) == k
    ensures UniqueKeys(ValuesIn(m, order), key)
  {
    var all := ValuesIn(m, order);
    forall i, j | 0 <= i < j < |all| ensures key(all[i]) != key(all[j]) {
      assert key(all[i]) == order[i] && key(all[j]) == order[j];
    }
  }

  /** `map.values().stream().filter(p)` over a map keyed by each value's own
      key: the stored values satisfying `p`, each exactly once, and nothing else. */
  lemma ValuesWhere<T(!new)>(m: map<int, T>, order: seq<int>, key: T -> int, p: T -> bool)
    requires IterationOrder(m, order)
    requires forall k :: k in m ==> key(m[k]) == k
    ensures forall k :: k in m ==> (m[k] in Filter(ValuesIn(m, order), p) <==> p(m[k]))
    ensures forall x :: x in Filter(ValuesIn(m, order), p) ==> key(x) in m && m[key(x)] == x && p(x)
    ensures UniqueKeys(Filter(ValuesIn(m, order), p), key)
  {
    var all := ValuesIn(m, order);
    var kept := Filter(all, p);
    forall k | k in m ensures m[k] in kept <==> p(m[k]) {
      ValuesInComplete(m, order, k);
    }
    ValuesInSound(m, order, key);
    ValuesInUnique(m, order, key);
    SubMultisetUniqueKeys(kept, all, key);
  }
}
