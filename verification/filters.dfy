/**
 * The list utilities of the public pages: search, allow-list filtering, sorting by a
 * named option, facet generation with counts, and pagination. Items are records of
 * dynamically typed field values.
 */
module Filters {
  import opened Wrappers
  import opened JsText
  import opened JsValue
  import Seqs

  type Item = Record

  /* ---------------------------------------------------------------- search */

  /** One field value matches the lower-cased term: strings case-insensitively, numbers through their decimal text. */
  predicate FieldMatches(v: Value, term: string) {
    match v
    case Str(s) => Contains(Lower(s), term)
    case Num(n) => Contains(IntToString(n), term)
    case _ => false
  }

  predicate MatchesSomeField(item: Item, term: string, fields: seq<string>) {
    exists f :: f in fields && FieldMatches(Get(item, f), term)
  }

  function SearchKeep(term: string, fields: seq<string>): Item -> bool {
    item => MatchesSomeField(item, term, fields)
  }

  /**
   * `searchItems`: a blank term returns the items as they are; otherwise the items some
   * listed field of which contains the lower-cased (untrimmed) term, in their original order.
   */
  function SearchItems(items: seq<Item>, searchTerm: string, searchFields: seq<string>): (r: seq<Item>)
    ensures IsBlank(searchTerm) ==> r == items
    ensures Seqs.SubsequenceOf(r, items)
    ensures !IsBlank(searchTerm) ==> forall x ::
      multiset(r)[x] == if MatchesSomeField(x, Lower(searchTerm), searchFields) then multiset(items)[x] else 0
  {
    TrimEmptyIffBlank(searchTerm);
    if Trim(searchTerm) == "" then
      SubsequenceOfSelf(items);
      items
    else
      var keep := SearchKeep(Lower(searchTerm), searchFields);
      Seqs.FilterIsSubsequence(items, keep);
      Seqs.FilterMultiset(items, keep);
      Seqs.Filter(items, keep)
  }

  lemma {:induction false} SubsequenceOfSelf<T>(s: seq<T>)
    ensures Seqs.SubsequenceOf(s, s)
  {
    if s != [] {
      SubsequenceOfSelf(s[1..]);
    }
  }

  /* ---------------------------------------------------------------- filter */

  /** The field value, a string or a number's decimal text, is one of the selected values. */
  predicate Allowed(v: Value, selected: seq<string>) {
    match v
    case Str(s) => s in selected
    case Num(n) => IntToString(n) in selected
    case _ => false
  }

  function AllowKeep(selected: seq<string>, field: string): Item -> bool {
    item => Allowed(Get(item, field), selected)
  }

  /**
   * `filterItems`: an empty allow-list keeps everything; otherwise exactly the items whose
   * field is in the list, in their original order.
   */
  function FilterItems(items: seq<Item>, selectedFilters: seq<string>, filterField: string): (r: seq<Item>)
    ensures selectedFilters == [] ==> r == items
    ensures Seqs.SubsequenceOf(r, items)
    ensures selectedFilters != [] ==> forall x ::
      multiset(r)[x] == if Allowed(Get(x, filterField), selectedFilters) then multiset(items)[x] else 0
  {
    if |selectedFilters| == 0 then
      SubsequenceOfSelf(items);
      items
    else
      var keep := AllowKeep(selectedFilters, filterField);
      Seqs.FilterIsSubsequence(items, keep);
      Seqs.FilterMultiset(items, keep);
      Seqs.Filter(items, keep)
  }

  /* ---------------------------------------------------------------- sort */

  datatype Direction = Asc | Desc

  /** A named sort option; a missing direction means ascending. */
  datatype SortOption = SortOption(labelText: string, value: string, direction: Option<Direction>)

  /** `sortOptions.find(opt => opt.value === sortBy)`, as the index of the option found. */
  function FindOption(options: seq<SortOption>, sortBy: string): (r: Option<nat>)
    ensures r.Some? ==> r.value < |options| && options[r.value].value == sortBy
    ensures r.Some? ==> forall j :: 0 <= j < r.value ==> options[j].value != sortBy
    ensures r.None? ==> forall j :: 0 <= j < |options| ==> options[j].value != sortBy
  {
    if options == [] then None
    else if options[0].value == sortBy then Some(0)
    else match FindOption(options[1..], sortBy)
      case None => None
      case Some(k) => Some(k + 1)
  }

  /**
   * `localeCompare`, modelled as lexicographic order on code points: negative, zero or
   * positive as `a` sorts before, equal to, or after `b`.
   */
  function LocaleCompare(a: string, b: string): (c: int)
    ensures -1 <= c <= 1
    ensures c == 0 <==> a == b
  {
    if a == [] && b == [] then 0
    else if a == [] then -1
    else if b == [] then 1
    else if a[0] < b[0] then -1
    else if a[0] > b[0] then 1
    else
      var c := LocaleCompare(a[1..], b[1..]);
      assert a == [a[0]] + a[1..] && b == [b[0]] + b[1..];
      c
  }

  lemma {:induction false} LocaleCompareAntisymmetric(a: string, b: string)
    ensures LocaleCompare(a, b) == -LocaleCompare(b, a)
  {
    if a != [] && b != [] && a[0] == b[0] {
      LocaleCompareAntisymmetric(a[1..], b[1..]);
    }
  }

  lemma {:induction false} LocaleCompareTransitive(a: string, b: string, c: string)
    requires LocaleCompare(a, b) <= 0 && LocaleCompare(b, c) <= 0
    ensures LocaleCompare(a, c) <= 0
  {
    if a != [] && b != [] && c != [] && a[0] == b[0] == c[0] {
      LocaleCompareTransitive(a[1..], b[1..], c[1..]);
    }
  }

  /** The comparator handed to `Array.prototype.sort`; pairs of different types compare equal. */
  function Compare(a: Item, b: Item, key: string, desc: bool): int {
    var av, bv := Get(a, key), Get(b, key);
    if av.Str? && bv.Str? then
      var c := LocaleCompare(av.s, bv.s);
      if desc then -c else c
    else if av.Num? && bv.Num? then
      var c := av.n - bv.n;
      if desc then -c else c
    else 0
  }

  lemma CompareAntisymmetric(a: Item, b: Item, key: string, desc: bool)
    ensures Compare(a, b, key, desc) == -Compare(b, a, key, desc)
  {
    if Get(a, key).Str? && Get(b, key).Str? {
      LocaleCompareAntisymmetric(Get(a, key).s, Get(b, key).s);
    }
  }

  /** Every item's field is a string, or every item's field is a number. */
  predicate Homogeneous(items: seq<Item>, key: string) {
    || (forall x :: x in items ==> Get(x, key).Str?)
    || (forall x :: x in items ==> Get(x, key).Num?)
  }

  lemma CompareTransitive(a: Item, b: Item, c: Item, key: string, desc: bool)
    requires Homogeneous([a, b, c], key)
    requires Compare(a, b, key, desc) <= 0 && Compare(b, c, key, desc) <= 0
    ensures Compare(a, c, key, desc) <= 0
  {
    assert a in [a, b, c] && b in [a, b, c] && c in [a, b, c];
    if Get(a, key).Str? {
      var sa, sb, sc := Get(a, key).s, Get(b, key).s, Get(c, key).s;
      if desc {
        LocaleCompareAntisymmetric(sa, sb);
        LocaleCompareAntisymmetric(sb, sc);
        LocaleCompareAntisymmetric(sa, sc);
        LocaleCompareTransitive(sc, sb, sa);
      } else {
        LocaleCompareTransitive(sa, sb, sc);
      }
    }
  }

  /** Sorted with respect to the comparator: no later item compares before an earlier one. */
  ghost predicate SortedBy(s: seq<Item>, key: string, desc: bool) {
    forall i, j :: 0 <= i < j < |s| ==> Compare(s[i], s[j], key, desc) <= 0
  }

  /** Places `x` after every item that does not compare after it (keeps equal items in order). */
  function Insert(sorted: seq<Item>, x: Item, key: string, desc: bool): (r: seq<Item>)
    ensures multiset(r) == multiset(sorted) + multiset{x}
  {
    if sorted == [] then [x]
    else if Compare(x, sorted[0], key, desc) < 0 then [x] + sorted
    else
      var rest := Insert(sorted[1..], x, key, desc);
      assert sorted == [sorted[0]] + sorted[1..];
      [sorted[0]] + rest
  }

  /** A stable sort by the comparator (insertion sort). */
  function SortBy(items: seq<Item>, key: string, desc: bool): (r: seq<Item>)
    ensures multiset(r) == multiset(items)
  {
    if items == [] then []
    else
      var r := Insert(SortBy(items[..|items| - 1], key, desc), items[|items| - 1], key, desc);
      assert items == items[..|items| - 1] + [items[|items| - 1]];
      r
  }

  /** Homogeneity passes to any sequence whose elements all come from a homogeneous one. */
  lemma HomogeneousWithin(s: seq<Item>, t: seq<Item>, key: string)
    requires Homogeneous(t, key)
    requires forall y :: y in s ==> y in t
    ensures Homogeneous(s, key)
  {
  }

  lemma InsertSortedFront(sorted: seq<Item>, x: Item, key: string, desc: bool)
    requires sorted != [] && Compare(x, sorted[0], key, desc) < 0
    requires SortedBy(sorted, key, desc)
    requires Homogeneous(sorted + [x], key)
    ensures SortedBy([x] + sorted, key, desc)
  {
    var r := [x] + sorted;
    forall j | 1 < j < |r| ensures Compare(x, r[j], key, desc) <= 0 {
      HomogeneousWithin([x, sorted[0], r[j]], sorted + [x], key);
      CompareTransitive(x, sorted[0], r[j], key, desc);
    }
  }

  lemma ConsSorted(y: Item, rest: seq<Item>, key: string, desc: bool)
    requires SortedBy(rest, key, desc)
    requires forall z :: z in rest ==> Compare(y, z, key, desc) <= 0
    ensures SortedBy([y] + rest, key, desc)
  {
    var r := [y] + rest;
    forall i, j | 0 <= i < j < |r| ensures Compare(r[i], r[j], key, desc) <= 0 {
      if i == 0 {
        assert r[j] in rest;
      } else {
        assert r[i] == rest[i - 1] && r[j] == rest[j - 1];
      }
    }
  }

  /** The head of a sorted list precedes everything the rest holds once `x` is added. */
  lemma HeadPrecedesInserted(sorted: seq<Item>, x: Item, rest: seq<Item>, key: string, desc: bool)
    requires sorted != [] && SortedBy(sorted, key, desc) && Compare(sorted[0], x, key, desc) <= 0
    requires multiset(rest) == multiset(sorted[1..]) + multiset{x}
    ensures forall z :: z in rest ==> Compare(sorted[0], z, key, desc) <= 0
  {
    var tail := sorted[1..];
    forall z | z in rest ensures Compare(sorted[0], z, key, desc) <= 0 {
      assert z in multiset(rest);
      if z != x {
        assert z in tail;
        var k :| 0 <= k < |tail| && tail[k] == z;
        assert sorted[k + 1] == z;
      }
    }
  }

  lemma {:induction false} InsertSorted(sorted: seq<Item>, x: Item, key: string, desc: bool)
    requires SortedBy(sorted, key, desc)
    requires Homogeneous(sorted + [x], key)
    ensures SortedBy(Insert(sorted, x, key, desc), key, desc)
  {
    if sorted == [] {
    } else if Compare(x, sorted[0], key, desc) < 0 {
      InsertSortedFront(sorted, x, key, desc);
    } else {
      var tail := sorted[1..];
      HomogeneousWithin(tail + [x], sorted + [x], key);
      InsertSorted(tail, x, key, desc);
      var rest := Insert(tail, x, key, desc);
      CompareAntisymmetric(x, sorted[0], key, desc);
      HeadPrecedesInserted(sorted, x, rest, key, desc);
      ConsSorted(sorted[0], rest, key, desc);
    }
  }

  lemma {:induction false} SortBySorted(items: seq<Item>, key: string, desc: bool)
    requires Homogeneous(items, key)
    ensures SortedBy(SortBy(items, key, desc), key, desc)
  {
    if items != [] {
      var init, last := items[..|items| - 1], items[|items| - 1];
      HomogeneousWithin(init, items, key);
      SortBySorted(init, key, desc);
      var s := SortBy(init, key, desc);
      forall y | y in s + [last] ensures y in items {
        if y != last { assert y in multiset(init); }
      }
      HomogeneousWithin(s + [last], items, key);
      InsertSorted(s, last, key, desc);
    }
  }

  /** When every pair compares equal (e.g. the field's types are mixed), sorting keeps the order. */
  lemma {:induction false} SortByKeepsEqualOrder(items: seq<Item>, key: string, desc: bool)
    requires forall i, j :: 0 <= i < |items| && 0 <= j < |items| ==> Compare(items[i], items[j], key, desc) == 0
    ensures SortBy(items, key, desc) == items
  {
    if items != [] {
      var init, last := items[..|items| - 1], items[|items| - 1];
      assert items == init + [last];
      forall i, j | 0 <= i < |init| && 0 <= j < |init|
        ensures Compare(init[i], init[j], key, desc) == 0
      {
        assert init[i] == items[i] && init[j] == items[j];
      }
      SortByKeepsEqualOrder(init, key, desc);
      forall i | 0 <= i < |init| ensures Compare(last, init[i], key, desc) >= 0 {
        assert init[i] == items[i];
      }
      InsertAtEnd(init, last, key, desc);
    }
  }

  /** The items that tie with `x` on the field (direction does not matter for a tie). */
  function TiesWith(x: Item, key: string): Item -> bool {
    (y: Item) => Compare(y, x, key, false) == 0
  }

  /** On a homogeneous field, two items that tie with a third tie with each other. */
  lemma TiesTransitive(y: Item, z: Item, x: Item, key: string, desc: bool)
    requires Homogeneous([y, x, z], key)
    requires Compare(y, x, key, false) == 0 && Compare(z, x, key, false) == 0
    ensures Compare(y, z, key, desc) == 0
  {
    CompareAntisymmetric(z, x, key, desc);
    CompareAntisymmetric(y, x, key, desc);
    CompareAntisymmetric(y, z, key, desc);
    CompareTransitive(y, x, z, key, desc);
    HomogeneousWithin([z, x, y], [y, x, z], key);
    CompareTransitive(z, x, y, key, desc);
  }

  /** An item that compares before `h` compares before everything `h` does not come after. */
  lemma StrictBefore(y: Item, h: Item, z: Item, key: string, desc: bool)
    requires Homogeneous([y, h, z], key)
    requires Compare(y, h, key, desc) < 0 && Compare(h, z, key, desc) <= 0
    ensures Compare(y, z, key, desc) < 0
  {
    CompareAntisymmetric(y, h, key, desc);
    CompareAntisymmetric(y, z, key, desc);
    if Compare(y, z, key, desc) >= 0 {
      HomogeneousWithin([h, z, y], [y, h, z], key);
      CompareTransitive(h, z, y, key, desc);
      assert false;
    }
  }

  /** When `y` goes in front of a sorted list, nothing in the list ties with `x` if `y` does. */
  lemma NoTiesAfterFront(sorted: seq<Item>, y: Item, x: Item, key: string, desc: bool)
    requires sorted != [] && SortedBy(sorted, key, desc) && Compare(y, sorted[0], key, desc) < 0
    requires Homogeneous(sorted + [y, x], key)
    ensures TiesWith(x, key)(y) ==> Seqs.Filter(sorted, TiesWith(x, key)) == []
  {
    var t := TiesWith(x, key);
    if t(y) {
      forall z | z in sorted ensures !t(z) {
        var k :| 0 <= k < |sorted| && sorted[k] == z;
        NoTieBehindFront(sorted, y, x, key, desc, k);
      }
      Seqs.FilterNoneKept(sorted, t);
    }
  }

  /** The same for one item of the list: it comes strictly after `y`, so they cannot both tie with `x`. */
  lemma NoTieBehindFront(sorted: seq<Item>, y: Item, x: Item, key: string, desc: bool, k: nat)
    requires k < |sorted| && SortedBy(sorted, key, desc) && Compare(y, sorted[0], key, desc) < 0
    requires Homogeneous(sorted + [y, x], key)
    ensures !(Compare(y, x, key, false) == 0 && Compare(sorted[k], x, key, false) == 0)
  {
    var z := sorted[k];
    assert z in sorted + [y, x] && sorted[0] in sorted + [y, x];
    HomogeneousWithin([y, sorted[0], z], sorted + [y, x], key);
    StrictBefore(y, sorted[0], z, key, desc);
    if Compare(y, x, key, false) == 0 && Compare(z, x, key, false) == 0 {
      HomogeneousWithin([y, x, z], sorted + [y, x], key);
      TiesTransitive(y, z, x, key, desc);
      assert false;
    }
  }

  /** Inserting `y` adds it after every item already tied with `x`, if it ties with `x` itself. */
  lemma {:induction false} FilterInsertTies(sorted: seq<Item>, y: Item, x: Item, key: string, desc: bool)
    requires SortedBy(sorted, key, desc)
    requires Homogeneous(sorted + [y, x], key)
    ensures Seqs.Filter(Insert(sorted, y, key, desc), TiesWith(x, key)) ==
      Seqs.Filter(sorted, TiesWith(x, key)) + if TiesWith(x, key)(y) then [y] else []
  {
    var t := TiesWith(x, key);
    var e := if t(y) then [y] else [];
    if sorted == [] {
      Seqs.FilterCons(y, [], t);
    } else if Compare(y, sorted[0], key, desc) < 0 {
      NoTiesAfterFront(sorted, y, x, key, desc);
      FilterInsertFront(sorted, y, key, desc, t);
    } else {
      var tail := sorted[1..];
      assert SortedBy(tail, key, desc) by {
        forall i, j | 0 <= i < j < |tail| ensures Compare(tail[i], tail[j], key, desc) <= 0 {
          assert tail[i] == sorted[i + 1] && tail[j] == sorted[j + 1];
        }
      }
      HomogeneousWithin(tail + [y, x], sorted + [y, x], key);
      FilterInsertTies(tail, y, x, key, desc);
      FilterInsertStep(sorted, y, key, desc, t, e);
    }
  }

  /** Inserting in front: only `y` is added, and nothing kept comes before it. */
  lemma FilterInsertFront(sorted: seq<Item>, y: Item, key: string, desc: bool, t: Item -> bool)
    requires sorted != [] && Compare(y, sorted[0], key, desc) < 0
    requires t(y) ==> Seqs.Filter(sorted, t) == []
    ensures Seqs.Filter(Insert(sorted, y, key, desc), t) == Seqs.Filter(sorted, t) + if t(y) then [y] else []
  {
    assert Insert(sorted, y, key, desc) == [y] + sorted;
    Seqs.FilterCons(y, sorted, t);
  }

  /** Inserting after the head: the head is kept (or not) in front of what the tail gives. */
  lemma FilterInsertStep(sorted: seq<Item>, y: Item, key: string, desc: bool, t: Item -> bool, e: seq<Item>)
    requires sorted != [] && Compare(y, sorted[0], key, desc) >= 0
    requires Seqs.Filter(Insert(sorted[1..], y, key, desc), t) == Seqs.Filter(sorted[1..], t) + e
    ensures Seqs.Filter(Insert(sorted, y, key, desc), t) == Seqs.Filter(sorted, t) + e
  {
    InsertKeepsHead(sorted, y, key, desc);
    Seqs.FilterCons(sorted[0], Insert(sorted[1..], y, key, desc), t);
    Seqs.FilterCons(sorted[0], sorted[1..], t);
    assert [sorted[0]] + sorted[1..] == sorted;
    Seqs.PrependThenAppend(Seqs.Filter(Insert(sorted, y, key, desc), t), Seqs.Filter(sorted, t),
      Seqs.Filter(Insert(sorted[1..], y, key, desc), t), Seqs.Filter(sorted[1..], t),
      if t(sorted[0]) then [sorted[0]] else [], e);
  }

  lemma InsertKeepsHead(sorted: seq<Item>, y: Item, key: string, desc: bool)
    requires sorted != [] && Compare(y, sorted[0], key, desc) >= 0
    ensures Insert(sorted, y, key, desc) == [sorted[0]] + Insert(sorted[1..], y, key, desc)
  {
  }

  /**
   * The sort is stable: the items tying with any one item of a homogeneous field keep
   * their input order.
   */
  lemma {:induction false} SortByStable(items: seq<Item>, x: Item, key: string, desc: bool)
    requires Homogeneous(items + [x], key)
    ensures Seqs.Filter(SortBy(items, key, desc), TiesWith(x, key)) == Seqs.Filter(items, TiesWith(x, key))
  {
    if items != [] {
      var init, last := items[..|items| - 1], items[|items| - 1];
      assert items == init + [last];
      HomogeneousWithin(init + [x], items + [x], key);
      HomogeneousWithin(init, items + [x], key);
      SortByStable(init, x, key, desc);
      SortBySorted(init, key, desc);
      var s := SortBy(init, key, desc);
      forall y | y in s + [last, x] ensures y in items + [x] {
        if y in s { assert y in multiset(init); }
      }
      HomogeneousWithin(s + [last, x], items + [x], key);
      FilterInsertTies(s, last, x, key, desc);
      Seqs.FilterSnoc(init, last, TiesWith(x, key));
    }
  }

  lemma {:induction false} InsertAtEnd(sorted: seq<Item>, x: Item, key: string, desc: bool)
    requires forall i :: 0 <= i < |sorted| ==> Compare(x, sorted[i], key, desc) >= 0
    ensures Insert(sorted, x, key, desc) == sorted + [x]
  {
    if sorted != [] {
      InsertAtEnd(sorted[1..], x, key, desc);
      assert sorted == [sorted[0]] + sorted[1..];
    }
  }

  predicate IsDescending(option: SortOption) {
    option.direction == Some(Desc)
  }

  /**
   * `sortItems`: unchanged when `sortBy` is empty or names no option; otherwise a sorted
   * permutation, under the first option with that name. The input sequence is a value
   * and is never modified.
   */
  function SortItems(items: seq<Item>, sortBy: string, sortOptions: seq<SortOption>): (r: seq<Item>)
    ensures sortBy == "" || FindOption(sortOptions, sortBy).None? ==> r == items
    ensures multiset(r) == multiset(items)
    ensures sortBy != "" && FindOption(sortOptions, sortBy).Some? && Homogeneous(items, sortBy) ==>
      SortedBy(r, sortBy, IsDescending(sortOptions[FindOption(sortOptions, sortBy).value]))
  {
    if sortBy == "" then items
    else match FindOption(sortOptions, sortBy)
      case None => items
      case Some(k) =>
        var desc := IsDescending(sortOptions[k]);
        assert Homogeneous(items, sortBy) ==> SortedBy(SortBy(items, sortBy, desc), sortBy, desc) by {
          if Homogeneous(items, sortBy) { SortBySorted(items, sortBy, desc); }
        }
        SortBy(items, sortBy, desc)
  }

  /** Numbers come out ascending, or descending under a `desc` option. */
  lemma SortItemsNumbersOrdered(items: seq<Item>, sortBy: string, sortOptions: seq<SortOption>)
    requires sortBy != "" && FindOption(sortOptions, sortBy).Some?
    requires forall x :: x in items ==> Get(x, sortBy).Num?
    ensures var r := SortItems(items, sortBy, sortOptions);
      var desc := IsDescending(sortOptions[FindOption(sortOptions, sortBy).value]);
      forall i, j :: 0 <= i < j < |r| ==>
        Get(r[i], sortBy).Num? && Get(r[j], sortBy).Num? &&
        if desc then Get(r[i], sortBy).n >= Get(r[j], sortBy).n else Get(r[i], sortBy).n <= Get(r[j], sortBy).n
  {
    var r := SortItems(items, sortBy, sortOptions);
    var desc := IsDescending(sortOptions[FindOption(sortOptions, sortBy).value]);
    forall i, j | 0 <= i < j < |r|
      ensures Get(r[i], sortBy).Num? && Get(r[j], sortBy).Num?
      ensures if desc then Get(r[i], sortBy).n >= Get(r[j], sortBy).n else Get(r[i], sortBy).n <= Get(r[j], sortBy).n
    {
      assert r[i] in multiset(items) && r[j] in multiset(items);
      assert Compare(r[i], r[j], sortBy, desc) <= 0;
    }
  }

  /** Strings come out in ascending `localeCompare` order, or descending under a `desc` option. */
  lemma SortItemsStringsOrdered(items: seq<Item>, sortBy: string, sortOptions: seq<SortOption>)
    requires sortBy != "" && FindOption(sortOptions, sortBy).Some?
    requires forall x :: x in items ==> Get(x, sortBy).Str?
    ensures var r := SortItems(items, sortBy, sortOptions);
      var desc := IsDescending(sortOptions[FindOption(sortOptions, sortBy).value]);
      forall i, j :: 0 <= i < j < |r| ==>
        Get(r[i], sortBy).Str? && Get(r[j], sortBy).Str? &&
        if desc then LocaleCompare(Get(r[i], sortBy).s, Get(r[j], sortBy).s) >= 0
        else LocaleCompare(Get(r[i], sortBy).s, Get(r[j], sortBy).s) <= 0
  {
    var r := SortItems(items, sortBy, sortOptions);
    var desc := IsDescending(sortOptions[FindOption(sortOptions, sortBy).value]);
    forall i, j | 0 <= i < j < |r|
      ensures Get(r[i], sortBy).Str? && Get(r[j], sortBy).Str?
      ensures if desc then LocaleCompare(Get(r[i], sortBy).s, Get(r[j], sortBy).s) >= 0
              else LocaleCompare(Get(r[i], sortBy).s, Get(r[j], sortBy).s) <= 0
    {
      assert r[i] in multiset(items) && r[j] in multiset(items);
      assert Compare(r[i], r[j], sortBy, desc) <= 0;
    }
  }

  /**
   * `sortItems` is stable: on a homogeneous field, the items that tie with any item keep
   * their input order (records sharing a subject or a grade stay as they came).
   */
  lemma SortItemsStable(items: seq<Item>, sortBy: string, sortOptions: seq<SortOption>, x: Item)
    requires x in items && Homogeneous(items, sortBy)
    ensures Seqs.Filter(SortItems(items, sortBy, sortOptions), TiesWith(x, sortBy)) == Seqs.Filter(items, TiesWith(x, sortBy))
  {
    if sortBy != "" && FindOption(sortOptions, sortBy).Some? {
      var desc := IsDescending(sortOptions[FindOption(sortOptions, sortBy).value]);
      HomogeneousWithin(items + [x], items, sortBy);
      SortByStable(items, x, sortBy, desc);
    }
  }

  /* ---------------------------------------------------------------- facets */

  /** A filter chip: a label, the value it selects and, for generated ones, how many items carry it. */
  datatype Filter = Filter(labelText: string, value: string, count: Option<nat>)

  /** `item[field]?.toString()`: the field's text, absent for `null` and `undefined`. */
  function KeyOf(item: Item, field: string): Option<string> {
    var v := Get(item, field);
    if Nullish(v) then None else Some(ToString(v))
  }

  function HasKey(field: string, key: string): Item -> bool {
    item => KeyOf(item, field) == Some(key)
  }

  /** How many items carry the value `key` in `field`. */
  function Count(items: seq<Item>, field: string, key: string): nat {
    |Seqs.Filter(items, HasKey(field, key))|
  }

  /** The distinct field texts, in order of first occurrence (what the `Set` holds). */
  function DistinctKeys(items: seq<Item>, field: string): seq<string> {
    if items == [] then []
    else
      var keys := DistinctKeys(items[..|items| - 1], field);
      var k := KeyOf(items[|items| - 1], field);
      if k.None? || k.value in keys then keys else keys + [k.value]
  }

  /** Index of the first item carrying `key`, or `|items|` when there is none. */
  function FirstIndex(items: seq<Item>, field: string, key: string): (i: nat)
    ensures i <= |items|
    ensures i < |items| ==> KeyOf(items[i], field) == Some(key)
    ensures forall j :: 0 <= j < i ==> KeyOf(items[j], field) != Some(key)
  {
    if items == [] then 0
    else if KeyOf(items[0], field) == Some(key) then 0
    else 1 + FirstIndex(items[1..], field, key)
  }

  /** `items.find(item => item[field]?.toString() === value)`. */
  function FirstWithKey(items: seq<Item>, field: string, key: string): Option<Item> {
    var i := FirstIndex(items, field, key);
    if i < |items| then Some(items[i]) else None
  }

  /**
   * The label of a generated filter: with a (truthy) label field, the first matching item's
   * label text, falling back to the value when that text is missing or empty.
   */
  function LabelFor(items: seq<Item>, field: string, labelField: Option<string>, value: string): string {
    if labelField.None? || labelField.value == "" then value
    else match FirstWithKey(items, field, value)
      case None => value
      case Some(item) =>
        var lv := Get(item, labelField.value);
        if Nullish(lv) || ToString(lv) == "" then value else ToString(lv)
  }

  /** What `generateFilters` returns: one filter per distinct value, with its label and count. */
  function Facets(items: seq<Item>, field: string, labelField: Option<string>): seq<Filter> {
    var keys := DistinctKeys(items, field);
    seq(|keys|, k requires 0 <= k < |keys| =>
      Filter(LabelFor(items, field, labelField, keys[k]), keys[k], Some(Count(items, field, keys[k]))))
  }

  lemma CountSnoc(items: seq<Item>, x: Item, field: string, key: string)
    ensures Count(items + [x], field, key) == Count(items, field, key) + if KeyOf(x, field) == Some(key) then 1 else 0
  {
    Seqs.FilterSnoc(items, x, HasKey(field, key));
  }

  /** A value is among the distinct keys exactly when some item carries it. */
  lemma {:induction false} DistinctKeysIffCounted(items: seq<Item>, field: string, key: string)
    ensures key in DistinctKeys(items, field) <==> Count(items, field, key) > 0
  {
    if items != [] {
      var init, last := items[..|items| - 1], items[|items| - 1];
      assert items == init + [last];
      DistinctKeysIffCounted(init, field, key);
      CountSnoc(init, last, field, key);
    }
  }

  /** No value is listed twice. */
  lemma {:induction false} DistinctKeysAreDistinct(items: seq<Item>, field: string)
    ensures forall i, j :: 0 <= i < j < |DistinctKeys(items, field)| ==>
      DistinctKeys(items, field)[i] != DistinctKeys(items, field)[j]
  {
    if items != [] {
      DistinctKeysAreDistinct(items[..|items| - 1], field);
    }
  }

  lemma {:induction false} FirstIndexSnoc(items: seq<Item>, x: Item, field: string, key: string)
    ensures FirstIndex(items + [x], field, key) ==
      if FirstIndex(items, field, key) < |items| then FirstIndex(items, field, key)
      else if KeyOf(x, field) == Some(key) then |items| else |items| + 1
  {
    if items == [] {
      assert [x][1..] == [];
    } else {
      assert (items + [x])[1..] == items[1..] + [x];
      FirstIndexSnoc(items[1..], x, field, key);
    }
  }

  /** A value already listed for a prefix first occurs at the same place after one more item. */
  lemma DistinctKeysFirstIndexSnoc(init: seq<Item>, last: Item, field: string)
    ensures var ks := DistinctKeys(init, field);
      forall i :: 0 <= i < |ks| ==> FirstIndex(init + [last], field, ks[i]) == FirstIndex(init, field, ks[i]) < |init|
  {
    var ks := DistinctKeys(init, field);
    forall i | 0 <= i < |ks| ensures FirstIndex(init + [last], field, ks[i]) == FirstIndex(init, field, ks[i]) < |init| {
      DistinctKeysIffCounted(init, field, ks[i]);
      CountPositiveHasIndex(init, field, ks[i]);
      FirstIndexSnoc(init, last, field, ks[i]);
    }
  }

  /** A value newly listed after one more item first occurs at that item. */
  lemma NewKeyFirstIndex(init: seq<Item>, last: Item, field: string)
    requires KeyOf(last, field).Some? && KeyOf(last, field).value !in DistinctKeys(init, field)
    ensures FirstIndex(init + [last], field, KeyOf(last, field).value) == |init|
  {
    var k := KeyOf(last, field).value;
    DistinctKeysIffCounted(init, field, k);
    FirstIndexSnoc(init, last, field, k);
    if FirstIndex(init, field, k) < |init| {
      CountPositiveFromIndex(init, field, k);
    }
  }

  /** Earlier listed values first occur earlier in the items. */
  lemma {:induction false} DistinctKeysInFirstOccurrenceOrder(items: seq<Item>, field: string)
    ensures var keys := DistinctKeys(items, field);
      forall i, j :: 0 <= i < j < |keys| ==>
        FirstIndex(items, field, keys[i]) < FirstIndex(items, field, keys[j]) < |items|
  {
    if items != [] {
      var init, last := items[..|items| - 1], items[|items| - 1];
      assert items == init + [last];
      DistinctKeysInFirstOccurrenceOrder(init, field);
      DistinctKeysFirstIndexSnoc(init, last, field);
      DistinctKeysSnoc(init, last, field);
      var keys, ks := DistinctKeys(items, field), DistinctKeys(init, field);
      forall i, j | 0 <= i < j < |keys|
        ensures FirstIndex(items, field, keys[i]) < FirstIndex(items, field, keys[j]) < |items|
      {
        assert keys[i] == ks[i];
        assert FirstIndex(items, field, keys[i]) == FirstIndex(init, field, ks[i]);
        if j < |ks| {
          assert keys[j] == ks[j];
          assert FirstIndex(items, field, keys[j]) == FirstIndex(init, field, ks[j]) < |init|;
        } else {
          NewKeyFirstIndex(init, last, field);
          assert keys[j] == KeyOf(last, field).value;
        }
      }
    }
  }

  lemma {:induction false} CountPositiveHasIndex(items: seq<Item>, field: string, key: string)
    requires Count(items, field, key) > 0
    ensures FirstIndex(items, field, key) < |items|
  {
    var f := Seqs.Filter(items, HasKey(field, key));
    assert f[0] in f;
    var i :| 0 <= i < |items| && items[i] == f[0];
    assert KeyOf(items[i], field) == Some(key);
  }

  lemma CountPositiveFromIndex(items: seq<Item>, field: string, key: string)
    requires FirstIndex(items, field, key) < |items|
    ensures Count(items, field, key) > 0
  {
    var i := FirstIndex(items, field, key);
    assert items[i] in Seqs.Filter(items, HasKey(field, key));
  }

  lemma DistinctKeysSnoc(items: seq<Item>, x: Item, field: string)
    ensures DistinctKeys(items + [x], field) ==
      var keys := DistinctKeys(items, field);
      var k := KeyOf(x, field);
      if k.None? || k.value in keys then keys else keys + [k.value]
  {
    assert (items + [x])[..|items|] == items;
  }

  /** After a prefix of the items: the ordered distinct values and the count of each. */
  ghost predicate Tallied(items: seq<Item>, field: string, keys: seq<string>, counts: map<string, nat>) {
    && keys == DistinctKeys(items, field)
    && (forall k :: k in counts <==> k in keys)
    && forall k :: k in counts ==> counts[k] == Count(items, field, k)
  }

  /** One more item adds its value to the distinct values when it is new. */
  lemma TallyKeysStep(items: seq<Item>, x: Item, field: string, keys: seq<string>, counts: map<string, nat>)
    requires Tallied(items, field, keys, counts)
    ensures var k := KeyOf(x, field);
      && (if k.None? || k.value in keys then keys else keys + [k.value]) == DistinctKeys(items + [x], field)
      && (k.Some? && k.value !in keys ==> k.value !in counts && Count(items, field, k.value) == 0)
  {
    DistinctKeysSnoc(items, x, field);
    var k := KeyOf(x, field);
    if k.Some? && k.value !in keys {
      DistinctKeysIffCounted(items, field, k.value);
    }
  }

  /** One more item extends the tally by its value, if it has one. */
  lemma TallyStep(items: seq<Item>, x: Item, field: string, keys: seq<string>, counts: map<string, nat>,
                  keys': seq<string>, counts': map<string, nat>)
    requires Tallied(items, field, keys, counts)
    requires KeyOf(x, field).None? ==> keys' == keys && counts' == counts
    requires KeyOf(x, field).Some? ==>
      var v := KeyOf(x, field).value;
      && keys' == (if v in keys then keys else keys + [v])
      && counts' == counts[v := (if v in counts then counts[v] else 0) + 1]
    ensures Tallied(items + [x], field, keys', counts')
  {
    TallyKeysStep(items, x, field, keys, counts);
    forall key | key in counts' ensures counts'[key] == Count(items + [x], field, key) {
      CountSnoc(items, x, field, key);
    }
  }

  /** Once every item is tallied, reading the filters off the tally gives the facets. */
  lemma TalliedFacets(items: seq<Item>, field: string, labelField: Option<string>, keys: seq<string>,
                      counts: map<string, nat>, filters: seq<Filter>)
    requires Tallied(items, field, keys, counts)
    requires |filters| == |keys|
    requires forall k :: 0 <= k < |keys| ==>
      keys[k] in counts && filters[k] == Filter(LabelFor(items, field, labelField, keys[k]), keys[k], Some(counts[keys[k]]))
    ensures filters == Facets(items, field, labelField)
  {
  }

  /**
   * `generateFilters`: one pass over the items fills the ordered set of distinct values
   * and the count map; the filters are then read off in insertion order.
   */
  method GenerateFilters(items: seq<Item>, field: string, labelField: Option<string>) returns (filters: seq<Filter>)
    ensures filters == Facets(items, field, labelField)
  {
    var uniqueValues: seq<string> := [];
    var valueCounts: map<string, nat> := map[];
    var i := 0;
    while i < |items|
      invariant 0 <= i <= |items|
      invariant Tallied(items[..i], field, uniqueValues, valueCounts)
    {
      ghost var keys, counts := uniqueValues, valueCounts;
      var value := Get(items[i], field);
      if !Nullish(value) {
        var stringValue := ToString(value);
        if stringValue !in uniqueValues {
          uniqueValues := uniqueValues + [stringValue];
        }
        valueCounts := valueCounts[stringValue := (if stringValue in valueCounts then valueCounts[stringValue] else 0) + 1];
      }
      assert items[..i + 1] == items[..i] + [items[i]];
      TallyStep(items[..i], items[i], field, keys, counts, uniqueValues, valueCounts);
      i := i + 1;
    }
    assert items[..i] == items;
    filters := seq(|uniqueValues|, k requires 0 <= k < |uniqueValues| && uniqueValues[k] in valueCounts =>
      Filter(LabelFor(items, field, labelField, uniqueValues[k]), uniqueValues[k], Some(valueCounts[uniqueValues[k]])));
    TalliedFacets(items, field, labelField, uniqueValues, valueCounts, filters);
  }

  /** Every generated filter's count is positive, and its label falls back to its value only as the code says. */
  lemma FacetsCountsPositive(items: seq<Item>, field: string, labelField: Option<string>)
    ensures forall f :: f in Facets(items, field, labelField) ==> f.count.Some? && f.count.value > 0
  {
    var keys := DistinctKeys(items, field);
    forall k | 0 <= k < |keys| ensures Count(items, field, keys[k]) > 0 {
      DistinctKeysIffCounted(items, field, keys[k]);
    }
  }

  /* ---------------------------------------------------------------- pagination */

  /** One page of a list, with the totals the pager shows. */
  datatype Page<T> = Page(items: seq<T>, totalPages: int, totalItems: nat)

  /** How `Array.prototype.slice` resolves a (possibly negative) index against a length. */
  function SliceIndex(i: int, len: nat): (k: nat)
    ensures k <= len
  {
    if i < 0 then (if len + i < 0 then 0 else len + i) else if i < len then i else len
  }

  /** `s.slice(start, end)`. */
  function Slice<T>(s: seq<T>, start: int, end: int): (r: seq<T>)
    ensures |r| <= |s|
    ensures |r| == if SliceIndex(start, |s|) < SliceIndex(end, |s|) then SliceIndex(end, |s|) - SliceIndex(start, |s|) else 0
    ensures forall i :: 0 <= i < |r| ==> r[i] == s[SliceIndex(start, |s|) + i]
  {
    var from, to := SliceIndex(start, |s|), SliceIndex(end, |s|);
    if from < to then s[from..to] else []
  }

  /** `Math.ceil(a / b)` for a positive divisor. */
  function CeilDiv(a: nat, b: int): (q: nat)
    requires b > 0
    ensures (q - 1) * b < a <= q * b
  {
    var q := a / b;
    assert a == q * b + a % b;
    if a % b == 0 then q else q + 1
  }

  /** A window of `width` positions starting anywhere yields at most `width` elements. */
  lemma SliceWindowLength<T>(s: seq<T>, start: int, width: nat)
    ensures |Slice(s, start, start + width)| <= width
  {
  }

  /** The arithmetic of page boundaries. */
  lemma PageBounds(currentPage: int, itemsPerPage: int, totalPages: nat)
    requires itemsPerPage > 0
    ensures (currentPage - 1) * itemsPerPage + itemsPerPage == currentPage * itemsPerPage
    ensures currentPage > totalPages ==> totalPages * itemsPerPage <= (currentPage - 1) * itemsPerPage
    ensures currentPage == 0 ==> (currentPage - 1) * itemsPerPage == -itemsPerPage
    ensures currentPage >= 1 ==> (currentPage - 1) * itemsPerPage >= 0
  {
    if currentPage > totalPages {
      MulLeft(totalPages, currentPage - 1, itemsPerPage);
    }
    if currentPage >= 1 {
      MulLeft(0, currentPage - 1, itemsPerPage);
    }
  }

  lemma MulLeft(a: int, b: int, c: nat)
    requires a <= b
    ensures a * c <= b * c
  {
  }

  /** A window that starts inside the sequence is the ordinary subsequence, cut at the end. */
  lemma SliceFrom<T>(s: seq<T>, start: int, end: int)
    requires 0 <= start < |s| && start <= end
    ensures Slice(s, start, end) == s[start..if end < |s| then end else |s|]
  {
  }

  /** A window that starts past the end, or ends at or before 0, is empty. */
  lemma SliceEmpty<T>(s: seq<T>, start: int, end: int)
    requires start >= |s| || end == 0
    ensures Slice(s, start, end) == []
  {
  }

  /**
   * `paginateItems`: the slice for the 1-based page, at most `itemsPerPage` long, with
   * the item count and `ceil(count / itemsPerPage)` pages.
   */
  function PaginateItems<T>(items: seq<T>, currentPage: int, itemsPerPage: int): (p: Page<T>)
    requires itemsPerPage > 0
    ensures p.totalItems == |items|
    ensures (p.totalPages - 1) * itemsPerPage < |items| <= p.totalPages * itemsPerPage
    ensures |p.items| <= itemsPerPage
    ensures currentPage >= 1 ==> p.items == Slice(items, (currentPage - 1) * itemsPerPage, currentPage * itemsPerPage)
    ensures currentPage > p.totalPages || currentPage == 0 ==> p.items == []
  {
    var totalItems := |items|;
    var totalPages := CeilDiv(totalItems, itemsPerPage);
    var startIndex := (currentPage - 1) * itemsPerPage;
    var endIndex := startIndex + itemsPerPage;
    var page := Slice(items, startIndex, endIndex);
    PageBounds(currentPage, itemsPerPage, totalPages);
    SliceWindowLength(items, startIndex, itemsPerPage);
    assert currentPage > totalPages || currentPage == 0 ==> page == [] by {
      if currentPage > totalPages || currentPage == 0 { SliceEmpty(items, startIndex, endIndex); }
    }
    Page(page, totalPages, totalItems)
  }

  /** A page that starts inside the list holds the items from its first index up to the next page's. */
  lemma PageIsWindow<T>(items: seq<T>, currentPage: int, itemsPerPage: int)
    requires itemsPerPage > 0 && currentPage >= 1
    requires (currentPage - 1) * itemsPerPage < |items|
    ensures 0 <= (currentPage - 1) * itemsPerPage <= currentPage * itemsPerPage
    ensures PaginateItems(items, currentPage, itemsPerPage).items ==
      items[(currentPage - 1) * itemsPerPage..if currentPage * itemsPerPage < |items| then currentPage * itemsPerPage else |items|]
  {
    PageBounds(currentPage, itemsPerPage, 0);
    SliceFrom(items, (currentPage - 1) * itemsPerPage, currentPage * itemsPerPage);
  }

  /** Pages 1 to n, concatenated. */
  function PagesUpTo<T>(items: seq<T>, itemsPerPage: int, n: nat): seq<T>
    requires itemsPerPage > 0
  {
    if n == 0 then [] else PagesUpTo(items, itemsPerPage, n - 1) + PaginateItems(items, n, itemsPerPage).items
  }

  function Min(a: int, b: int): int {
    if a < b then a else b
  }

  lemma {:induction false} PagesUpToIsPrefix<T>(items: seq<T>, itemsPerPage: int, n: nat)
    requires itemsPerPage > 0
    ensures 0 <= n * itemsPerPage
    ensures PagesUpTo(items, itemsPerPage, n) == items[..Min(n * itemsPerPage, |items|)]
  {
    PageBounds(n, itemsPerPage, 0);
    if n > 0 {
      PagesUpToIsPrefix(items, itemsPerPage, n - 1);
      NextPageExtends(items, itemsPerPage, n);
    }
  }

  /** Page `n` continues the prefix that pages 1 to `n - 1` cover. */
  lemma NextPageExtends<T>(items: seq<T>, itemsPerPage: int, n: nat)
    requires itemsPerPage > 0 && n > 0
    ensures 0 <= (n - 1) * itemsPerPage <= n * itemsPerPage
    ensures items[..Min((n - 1) * itemsPerPage, |items|)] + PaginateItems(items, n, itemsPerPage).items
      == items[..Min(n * itemsPerPage, |items|)]
  {
    PageBounds(n, itemsPerPage, 0);
    var lo, hi := (n - 1) * itemsPerPage, n * itemsPerPage;
    if lo >= |items| {
      SliceEmpty(items, lo, hi);
    } else {
      PageIsWindow(items, n, itemsPerPage);
      assert items[..lo] + items[lo..Min(hi, |items|)] == items[..Min(hi, |items|)];
    }
  }

  /** Pages 1 to `totalPages`, concatenated, give back the whole list. */
  lemma AllPagesConcatenate<T>(items: seq<T>, itemsPerPage: int)
    requires itemsPerPage > 0
    ensures PagesUpTo(items, itemsPerPage, PaginateItems(items, 1, itemsPerPage).totalPages) == items
  {
    var n := PaginateItems(items, 1, itemsPerPage).totalPages;
    PagesUpToIsPrefix(items, itemsPerPage, n);
  }

  /* ---------------------------------------------------------------- per-page presets */

  function AllFilter(labelText: string): Filter {
    Filter(labelText, "all", None)
  }

  /** The news page offers only the "all" filter. */
  function GetNewsFilters(news: seq<Item>): (r: seq<Filter>)
    ensures r == [Filter("Все новости", "all", None)]
  {
    [AllFilter("Все новости")]
  }

  /** Without a label field, a generated filter is labelled by its own value. */
  lemma FacetsUnlabelled(items: seq<Item>, field: string)
    ensures var keys := DistinctKeys(items, field);
      && |Facets(items, field, None)| == |keys|
      && forall k :: 0 <= k < |keys| ==>
        Facets(items, field, None)[k] == Filter(keys[k], keys[k], Some(Count(items, field, keys[k])))
  {
  }

  /** "All teachers", then one filter per subject, labelled by the subject itself. */
  function GetTeacherFilters(teachers: seq<Item>): (r: seq<Filter>)
    ensures var keys := DistinctKeys(teachers, "subjectRu");
      && |r| == 1 + |keys|
      && r[0] == Filter("Все учителя", "all", None)
      && forall k :: 0 <= k < |keys| ==> r[k + 1] == Filter(keys[k], keys[k], Some(Count(teachers, "subjectRu", keys[k])))
  {
    var subjects := Facets(teachers, "subjectRu", None);
    FacetsUnlabelled(teachers, "subjectRu");
    var r := [AllFilter("Все учителя")] + subjects;
    assert forall k :: 0 <= k < |subjects| ==> r[k + 1] == subjects[k];
    r
  }

  /** "All classes", then one filter per grade, labelled "<grade> класс". */
  function GetClassFilters(classes: seq<Item>): (r: seq<Filter>)
    ensures var keys := DistinctKeys(classes, "grade");
      && |r| == 1 + |keys|
      && r[0] == Filter("Все классы", "all", None)
      && forall k :: 0 <= k < |keys| ==> r[k + 1] == Filter(keys[k] + " класс", keys[k], Some(Count(classes, "grade", keys[k])))
  {
    var grades := Facets(classes, "grade", None);
    FacetsUnlabelled(classes, "grade");
    [AllFilter("Все классы")] + seq(|grades|, k requires 0 <= k < |grades| => grades[k].(labelText := grades[k].labelText + " класс"))
  }

  /** "All lessons", then the subject filters, then the class filters labelled "Класс <id>". */
  function GetScheduleFilters(schedule: seq<Item>): (r: seq<Filter>)
    ensures var subjects := DistinctKeys(schedule, "subjectRu");
      var classes := DistinctKeys(schedule, "classId");
      && |r| == 1 + |subjects| + |classes|
      && r[0] == Filter("Все занятия", "all", None)
      && (forall k :: 0 <= k < |subjects| ==>
            r[1 + k] == Filter(subjects[k], subjects[k], Some(Count(schedule, "subjectRu", subjects[k]))))
      && (forall k :: 0 <= k < |classes| ==>
            r[1 + |subjects| + k] == Filter("Класс " + classes[k], classes[k], Some(Count(schedule, "classId", classes[k]))))
  {
    var subjects := Facets(schedule, "subjectRu", None);
    var classes := Facets(schedule, "classId", None);
    FacetsUnlabelled(schedule, "subjectRu");
    FacetsUnlabelled(schedule, "classId");
    var relabelled := seq(|classes|, k requires 0 <= k < |classes| => classes[k].(labelText := "Класс " + classes[k].labelText));
    var r := [AllFilter("Все занятия")] + subjects + relabelled;
    assert forall k :: 0 <= k < |subjects| ==> r[1 + k] == subjects[k];
    assert forall k :: 0 <= k < |relabelled| ==> r[1 + |subjects| + k] == relabelled[k];
    r
  }

  /** The news options: the two date entries share the value `createdAt`; every entry has a direction. */
  function GetNewsSortOptions(): (r: seq<SortOption>)
    ensures !DistinctValues(r)
    ensures forall i :: 0 <= i < |r| ==> r[i].direction.Some?
  {
    var r := [ SortOption("По дате (новые)", "createdAt", Some(Desc)),
      SortOption("По дате (старые)", "createdAt", Some(Asc)),
      SortOption("По заголовку", "titleRu", Some(Asc)) ];
    assert r[0].value == r[1].value;
    r
  }

  /** The teacher options: distinct values, all ascending. */
  function GetTeacherSortOptions(): (r: seq<SortOption>)
    ensures DistinctValues(r)
    ensures forall i :: 0 <= i < |r| ==> r[i].direction == Some(Asc)
  {
    var r := [ SortOption("По имени", "nameRu", Some(Asc)),
      SortOption("По предмету", "subjectRu", Some(Asc)),
      SortOption("По дате рождения", "birthday", Some(Asc)) ];
    assert r[0].value[0] == 'n' && r[1].value[0] == 's' && r[2].value[0] == 'b';
    r
  }

  /** The class options: distinct values, all ascending. */
  function GetClassSortOptions(): (r: seq<SortOption>)
    ensures DistinctValues(r)
    ensures forall i :: 0 <= i < |r| ==> r[i].direction == Some(Asc)
  {
    var r := [ SortOption("По номеру класса", "grade", Some(Asc)),
      SortOption("По букве", "letter", Some(Asc)) ];
    assert r[0].value[0] == 'g' && r[1].value[0] == 'l';
    r
  }

  /** The schedule options: distinct values, all ascending. */
  function GetScheduleSortOptions(): (r: seq<SortOption>)
    ensures DistinctValues(r)
    ensures forall i :: 0 <= i < |r| ==> r[i].direction == Some(Asc)
  {
    var r := [ SortOption("По дате", "date", Some(Asc)),
      SortOption("По времени", "startTime", Some(Asc)),
      SortOption("По предмету", "subjectRu", Some(Asc)) ];
    assert r[0].value != r[1].value by { assert |r[0].value| == 4 && |r[1].value| == 9; }
    assert r[0].value[0] == 'd' && r[2].value[0] == 's';
    assert r[1].value[1] == 't' && r[2].value[1] == 'u';
    r
  }

  /**
   * Among the news options, `createdAt` always resolves to the descending entry: the
   * ascending "oldest first" entry can never be chosen.
   */
  lemma NewsDateSortIsAlwaysDescending(items: seq<Item>)
    ensures FindOption(GetNewsSortOptions(), "createdAt") == Some(0)
    ensures forall sortBy :: FindOption(GetNewsSortOptions(), sortBy) != Some(1)
    ensures SortItems(items, "createdAt", GetNewsSortOptions()) == SortBy(items, "createdAt", true)
  {
    var opts := GetNewsSortOptions();
    forall sortBy ensures FindOption(opts, sortBy) != Some(1) {
      assert opts[0].value == opts[1].value;
    }
  }

  /** No two options share a `value`. */
  predicate DistinctValues(options: seq<SortOption>) {
    forall i, j :: 0 <= i < j < |options| ==> options[i].value != options[j].value
  }

  /** In a list without shared values, each option is found by its own value. */
  lemma {:induction false} FindOptionOfDistinct(options: seq<SortOption>, i: nat)
    requires DistinctValues(options) && i < |options|
    ensures FindOption(options, options[i].value) == Some(i)
  {
    var r := FindOption(options, options[i].value);
    assert r.Some?;
    assert options[r.value].value == options[i].value;
  }

  /** Every option of a list can be chosen by its `value` exactly when no two options share one. */
  lemma AllOptionsReachableIffDistinct(options: seq<SortOption>)
    ensures (forall i :: 0 <= i < |options| ==> FindOption(options, options[i].value) == Some(i)) <==> DistinctValues(options)
  {
    if DistinctValues(options) {
      forall i | 0 <= i < |options|
        ensures FindOption(options, options[i].value) == Some(i)
      {
        FindOptionOfDistinct(options, i);
      }
    } else {
      var i, j :| 0 <= i < j < |options| && options[i].value == options[j].value;
      assert FindOption(options, options[j].value) != Some(j);
    }
  }
}
