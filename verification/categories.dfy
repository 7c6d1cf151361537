/**
 * get_unique_categories.py: the distinct category names of a decoded law
 * file, stripped of surrounding whitespace and listed in Python's string
 * order (code point by code point, a proper prefix first).
 *
 * The file is read by `json.load`; this module starts from the decoded
 * value. Printing the list and its length is left to the caller: the
 * model returns the sorted list, whose length is the printed total.
 */
module Categories {
  import opened Json
  import Text

  // ---------------------------------------------------------------------
  // The items to scan.

  /**
   * What one value of a root dictionary adds to `items`: the elements of
   * a list (`items.extend(value)`), a dictionary itself
   * (`items.append(value)`), anything else nothing.
   */
  function Contribution(v: Value): seq<Value> {
    match v
    case Array(xs) => xs
    case Object(_) => [v]
    case _ => []
  }

  predicate Contributes(v: Value, x: Value) {
    (v.Array? && x in v.items) || (v.Object? && x == v)
  }

  /** The contributions of the root dictionary's values, in key order. */
  function ValueItems(fields: Fields): seq<Value> {
    if |fields| == 0 then []
    else ValueItems(fields[..|fields| - 1]) + Contribution(fields[|fields| - 1].1)
  }

  /** `items`: a list root is scanned as it is, a dictionary root through its values. */
  function Items(data: Value): seq<Value> {
    match data
    case Array(xs) => xs
    case Object(fields) => ValueItems(fields)
    case _ => []
  }

  lemma {:induction false} ValueItemsMembers(fields: Fields, x: Value)
    ensures x in ValueItems(fields) <==> exists i :: 0 <= i < |fields| && Contributes(fields[i].1, x)
  {
    if |fields| > 0 {
      var n := |fields| - 1;
      var front := fields[..n];
      ValueItemsMembers(front, x);
      assert forall i :: 0 <= i < n ==> front[i] == fields[i];
      var v := fields[n].1;
      assert x in Contribution(v) <==> Contributes(v, x);
    }
  }

  /** Exactly the list elements of a list root; the list values' elements and the dictionary values of a dictionary root. */
  lemma ItemsMembers(data: Value, x: Value)
    ensures x in Items(data)
      <==> (|| (data.Array? && x in data.items)
            || (data.Object? && exists i :: 0 <= i < |data.fields| && Contributes(data.fields[i].1, x)))
  {
    if data.Object? {
      ValueItemsMembers(data.fields, x);
    }
  }

  // ---------------------------------------------------------------------
  // The categories of one item.

  const CategoriesKey := "categories"

  /** `cat.strip()` of every string element of a list, in order. */
  function StrippedStrings(xs: seq<Value>): seq<string> {
    if |xs| == 0 then []
    else
      var x := xs[|xs| - 1];
      StrippedStrings(xs[..|xs| - 1]) + (if x.String? then [Text.Strip(x.s)] else [])
  }

  /**
   * The names one item adds: none unless it is a dictionary with a truthy
   * `categories`; a list adds its stripped string elements, a string adds
   * itself stripped, any other value nothing.
   */
  function ItemCategories(item: Value): seq<string> {
    if !item.Object? then []
    else
      var c := Get(item.fields, CategoriesKey);
      if c.None? || !Truthy(c.value) then []
      else
        match c.value
        case Array(xs) => StrippedStrings(xs)
        case String(s) => [Text.Strip(s)]
        case _ => []
  }

  /** An item names `c`, read off the file's structure rather than the loop. */
  predicate Names(item: Value, c: string) {
    && item.Object?
    && var v := Get(item.fields, CategoriesKey);
    && v.Some?
    && (|| (v.value.String? && v.value.s != "" && c == Text.Strip(v.value.s))
        || (v.value.Array? && exists j :: 0 <= j < |v.value.items| && v.value.items[j].String? && c == Text.Strip(v.value.items[j].s)))
  }

  lemma {:induction false} StrippedStringsMembers(xs: seq<Value>, c: string)
    ensures c in StrippedStrings(xs) <==> exists j :: 0 <= j < |xs| && xs[j].String? && c == Text.Strip(xs[j].s)
  {
    if |xs| > 0 {
      var n := |xs| - 1;
      StrippedStringsMembers(xs[..n], c);
      assert forall j :: 0 <= j < n ==> xs[..n][j] == xs[j];
    }
  }

  /** An item contributes exactly the names it carries; an empty string or list contributes none. */
  lemma ItemCategoriesMembers(item: Value, c: string)
    ensures c in ItemCategories(item) <==> Names(item, c)
  {
    if item.Object? {
      var v := Get(item.fields, CategoriesKey);
      if v.Some? && v.value.Array? {
        StrippedStringsMembers(v.value.items, c);
      }
    }
  }

  /** The lists `f` gives for the elements of `xs`, joined in order. */
  function FlatMap<X, Y>(xs: seq<X>, f: X -> seq<Y>): seq<Y> {
    if |xs| == 0 then []
    else FlatMap(xs[..|xs| - 1], f) + f(xs[|xs| - 1])
  }

  lemma {:induction false} FlatMapMembers<X, Y>(xs: seq<X>, f: X -> seq<Y>, y: Y)
    ensures y in FlatMap(xs, f) <==> exists k :: 0 <= k < |xs| && y in f(xs[k])
  {
    if |xs| > 0 {
      var n := |xs| - 1;
      var front := xs[..n];
      FlatMapMembers(front, f, y);
      if y in FlatMap(front, f) {
        var k :| 0 <= k < n && y in f(front[k]);
        assert front[k] == xs[k];
      }
      if exists k :: 0 <= k < |xs| && y in f(xs[k]) {
        var k :| 0 <= k < |xs| && y in f(xs[k]);
        if k < n {
          assert front[k] == xs[k];
        }
      }
    }
  }

  function AllCategories(items: seq<Value>): seq<string> {
    FlatMap(items, ItemCategories)
  }

  lemma AllCategoriesMembers(items: seq<Value>, c: string)
    ensures c in AllCategories(items) <==> exists k :: 0 <= k < |items| && c in ItemCategories(items[k])
  {
    FlatMapMembers(items, ItemCategories, c);
  }

  // ---------------------------------------------------------------------
  // Python's string order.

  /** `a < b` on `str`: compare code points left to right; a proper prefix comes first. */
  predicate Less(a: string, b: string)
    decreases |a|
  {
    if |a| == 0 then |b| > 0
    else |b| > 0 && (a[0] < b[0] || (a[0] == b[0] && Less(a[1..], b[1..])))
  }

  lemma {:induction false} LessIrreflexive(a: string)
    ensures !Less(a, a)
    decreases |a|
  {
    if |a| > 0 {
      LessIrreflexive(a[1..]);
    }
  }

  lemma {:induction false} LessTransitive(a: string, b: string, c: string)
    requires Less(a, b) && Less(b, c)
    ensures Less(a, c)
    decreases |a|
  {
    if |a| > 0 && a[0] == b[0] && b[0] == c[0] {
      LessTransitive(a[1..], b[1..], c[1..]);
    }
  }

  lemma {:induction false} LessTotal(a: string, b: string)
    ensures a == b || Less(a, b) || Less(b, a)
    decreases |a|
  {
    if |a| > 0 && |b| > 0 && a[0] == b[0] {
      LessTotal(a[1..], b[1..]);
      if a[1..] == b[1..] {
        assert a == [a[0]] + a[1..] && b == [b[0]] + b[1..];
      }
    }
  }

  lemma LessAsymmetric(a: string, b: string)
    requires Less(a, b)
    ensures !Less(b, a)
  {
    if Less(b, a) {
      LessTransitive(a, b, a);
      LessIrreflexive(a);
    }
  }

  /** Sorted in Python's order with no repetitions. */
  predicate StrictlySorted(s: seq<string>) {
    forall i, j :: 0 <= i < j < |s| ==> Less(s[i], s[j])
  }

  // ---------------------------------------------------------------------
  // `sorted(list(unique_categories))`.

  /** Adds `c` to a sorted list of distinct names unless it is there already. */
  function Insert(s: seq<string>, c: string): (r: seq<string>)
    requires StrictlySorted(s)
    ensures StrictlySorted(r)
    ensures forall x :: x in r <==> x in s || x == c
  {
    if |s| == 0 then [c]
    else if c == s[0] then s
    else if Less(c, s[0]) then
      assert forall j :: 0 < j < |s| ==> Less(c, s[j]) by {
        forall j | 0 < j < |s| ensures Less(c, s[j]) {
          LessTransitive(c, s[0], s[j]);
        }
      }
      [c] + s
    else
      LessTotal(c, s[0]);
      var t := Insert(s[1..], c);
      assert forall x :: x in t ==> Less(s[0], x) by {
        forall x | x in t ensures Less(s[0], x) {
          if x != c {
            var j :| 0 <= j < |s[1..]| && s[1..][j] == x;
            assert s[j + 1] == x;
          }
        }
      }
      [s[0]] + t
  }

  /** The names of `cs`, each once, in Python's order. */
  function SortUnique(cs: seq<string>): (r: seq<string>)
    ensures StrictlySorted(r)
    ensures forall x :: x in r <==> x in cs
  {
    if |cs| == 0 then []
    else
      var front := SortUnique(cs[..|cs| - 1]);
      assert forall x :: x in cs <==> x in cs[..|cs| - 1] || x == cs[|cs| - 1] by {
        assert cs == cs[..|cs| - 1] + [cs[|cs| - 1]];
      }
      Insert(front, cs[|cs| - 1])
  }

  /** Lists with the same members are empty together. */
  lemma SameEmptiness(a: seq<string>, b: seq<string>)
    requires forall x :: x in a <==> x in b
    ensures |a| == 0 <==> |b| == 0
  {
    if |a| > 0 {
      assert a[0] in b;
    }
    if |b| > 0 {
      assert b[0] in a;
    }
  }

  /** Two sorted listings without repetitions of the same names are the same list. */
  lemma {:induction false} StrictlySortedUnique(a: seq<string>, b: seq<string>)
    requires StrictlySorted(a) && StrictlySorted(b)
    requires forall x :: x in a <==> x in b
    ensures a == b
    decreases |a|
  {
    SameEmptiness(a, b);
    if |a| > 0 {
      assert a[0] in b;
      assert |b| > 0 && b[0] in a;
      SameFirst(a, b);
      StrictlySortedTail(a);
      StrictlySortedTail(b);
      forall x ensures x in a[1..] <==> x in b[1..] {
        assert x in a <==> x == a[0] || x in a[1..] by {
          assert a == [a[0]] + a[1..];
        }
        assert x in b <==> x == b[0] || x in b[1..] by {
          assert b == [b[0]] + b[1..];
        }
      }
      StrictlySortedUnique(a[1..], b[1..]);
      assert a == [a[0]] + a[1..] && b == [b[0]] + b[1..];
    }
  }

  /** Two sorted listings without repetitions of the same names start with the same name. */
  lemma SameFirst(a: seq<string>, b: seq<string>)
    requires StrictlySorted(a) && StrictlySorted(b) && 0 < |a| && 0 < |b|
    requires a[0] in b && b[0] in a
    ensures a[0] == b[0]
  {
    var k :| 0 <= k < |b| && b[k] == a[0];
    var m :| 0 <= m < |a| && a[m] == b[0];
    if k > 0 && m > 0 {
      assert Less(b[0], a[0]) && Less(a[0], b[0]);
      LessAsymmetric(a[0], b[0]);
    }
  }

  /** A sorted list without repetitions has as many entries as distinct names. */
  lemma {:induction false} StrictlySortedCount(s: seq<string>)
    requires StrictlySorted(s)
    ensures |s| == |set x | x in s|
  {
    if |s| > 0 {
      var t := s[1..];
      StrictlySortedTail(s);
      StrictlySortedCount(t);
      assert (set x | x in s) == (set x | x in t) + {s[0]} by {
        assert s == [s[0]] + t;
      }
    }
  }

  /** Dropping the first name keeps the list sorted, and the first name does not recur. */
  lemma StrictlySortedTail(s: seq<string>)
    requires StrictlySorted(s) && 0 < |s|
    ensures StrictlySorted(s[1..]) && s[0] !in s[1..]
  {
    var t := s[1..];
    forall i, j | 0 <= i < j < |t| ensures Less(t[i], t[j]) {
      assert t[i] == s[i + 1] && t[j] == s[j + 1];
    }
    if s[0] in t {
      var i :| 0 <= i < |t| && t[i] == s[0];
      assert Less(s[0], s[i + 1]);
      LessIrreflexive(s[0]);
    }
  }

  /** The set `unique_categories` the loop builds. */
  function CategorySet(data: Value): set<string> {
    set c | c in AllCategories(Items(data))
  }

  /** `sorted(list(unique_categories))`. */
  function UniqueCategories(data: Value): (r: seq<string>)
    ensures StrictlySorted(r)
    ensures forall c :: c in r <==> c in CategorySet(data)
  {
    SortUnique(AllCategories(Items(data)))
  }

  /** The output lists exactly the names some scanned item carries. */
  lemma UniqueCategoriesMembers(data: Value, c: string)
    ensures c in UniqueCategories(data) <==> exists k :: 0 <= k < |Items(data)| && Names(Items(data)[k], c)
  {
    var items := Items(data);
    AllCategoriesMembers(items, c);
    forall k | 0 <= k < |items| ensures c in ItemCategories(items[k]) <==> Names(items[k], c) {
      ItemCategoriesMembers(items[k], c);
    }
  }

  /**
   * The output is THE sorted listing of the set: any sorted list without
   * repetitions of the same names equals it, however often and in
   * whatever order the names occur in the file.
   */
  lemma UniqueCategoriesIsSortedSet(data: Value, t: seq<string>)
    requires StrictlySorted(t)
    requires forall c :: c in t <==> c in CategorySet(data)
    ensures UniqueCategories(data) == t
  {
    StrictlySortedUnique(UniqueCategories(data), t);
  }

  /** A name one list of items yields is yielded by any list holding the same items. */
  lemma AllCategoriesFromSameItems(xs: seq<Value>, ys: seq<Value>, c: string)
    requires forall x :: x in xs ==> x in ys
    requires c in AllCategories(xs)
    ensures c in AllCategories(ys)
  {
    AllCategoriesMembers(xs, c);
    var k :| 0 <= k < |xs| && c in ItemCategories(xs[k]);
    assert xs[k] in ys;
    var j :| 0 <= j < |ys| && ys[j] == xs[k];
    AllCategoriesMembers(ys, c);
  }

  /**
   * The output does not depend on the order of the items or on how often
   * one occurs: roots scanning the same items give the same list.
   */
  lemma UniqueCategoriesOrderFree(a: Value, b: Value)
    requires forall x :: x in Items(a) <==> x in Items(b)
    ensures UniqueCategories(a) == UniqueCategories(b)
  {
    forall c | c in UniqueCategories(a) ensures c in UniqueCategories(b) {
      AllCategoriesFromSameItems(Items(a), Items(b), c);
    }
    forall c | c in UniqueCategories(b) ensures c in UniqueCategories(a) {
      AllCategoriesFromSameItems(Items(b), Items(a), c);
    }
    StrictlySortedUnique(UniqueCategories(a), UniqueCategories(b));
  }

  /** Adding a name the sorted list already holds changes nothing, as `set.add` does. */
  lemma InsertPresent(s: seq<string>, c: string)
    requires StrictlySorted(s) && c in s
    ensures Insert(s, c) == s
  {
    StrictlySortedUnique(Insert(s, c), s);
  }

  /** `len(unique_categories)`, the printed total, is the length of the printed list. */
  lemma UniqueCategoriesCount(data: Value)
    ensures |UniqueCategories(data)| == |CategorySet(data)|
  {
    var r := UniqueCategories(data);
    StrictlySortedCount(r);
    assert (set x | x in r) == CategorySet(data);
  }

  /** No printed name begins or ends with whitespace. */
  lemma UniqueCategoriesStripped(data: Value)
    ensures forall c :: c in UniqueCategories(data) ==> Text.IsStripped(c)
  {
    forall c | c in UniqueCategories(data) ensures Text.IsStripped(c) {
      UniqueCategoriesMembers(data, c);
      var k :| 0 <= k < |Items(data)| && Names(Items(data)[k], c);
    }
  }

  /** Three laws: a list of names with padding, a repeat and a number; a single name; an empty string. */
  const FirstLaw := Object([(CategoriesKey, Array([String("b "), String("a"), Number(7)]))])
  const SecondLaw := Object([(CategoriesKey, String("a"))])
  const ThirdLaw := Object([(CategoriesKey, String(""))])

  lemma FirstLawNames()
    ensures ItemCategories(FirstLaw) == ["b", "a"]
  {
    Text.StripOfStripped("a");
    assert Text.Strip("b ") == "b" by {
      assert Text.LeadCount("b ") == 0;
    }
    var xs := [String("b "), String("a"), Number(7)];
    assert StrippedStrings(xs) == StrippedStrings(xs[..2]) + [];
    assert StrippedStrings(xs[..2]) == StrippedStrings(xs[..1]) + ["a"];
    assert StrippedStrings(xs[..1]) == StrippedStrings([]) + ["b"];
  }

  lemma LawsNames()
    ensures AllCategories([FirstLaw, SecondLaw, ThirdLaw]) == ["b", "a", "a"]
  {
    var items := [FirstLaw, SecondLaw, ThirdLaw];
    FirstLawNames();
    Text.StripOfStripped("a");
    assert ItemCategories(SecondLaw) == ["a"];
    assert ItemCategories(ThirdLaw) == [];
    assert items[..2][..1] == items[..1] == [FirstLaw];
    assert FlatMap(items[..1], ItemCategories) == FlatMap([], ItemCategories) + ["b", "a"];
    assert FlatMap(items[..2], ItemCategories) == FlatMap(items[..1], ItemCategories) + ["a"];
    assert FlatMap(items, ItemCategories) == FlatMap(items[..2], ItemCategories) + [];
  }

  /**
   * A dictionary root holding a list of laws: the list's dictionaries are
   * scanned, a repeated name is listed once, padding is stripped, and a
   * non-string element and an empty `categories` string add nothing.
   */
  lemma LawsListExample()
    ensures UniqueCategories(Object([("laws", Array([FirstLaw, SecondLaw, ThirdLaw]))])) == ["a", "b"]
  {
    var items := [FirstLaw, SecondLaw, ThirdLaw];
    var data := Object([("laws", Array(items))]);
    assert Items(data) == items by {
      assert ValueItems(data.fields) == ValueItems([]) + Contribution(Array(items));
    }
    LawsNames();
    assert Less("a", "b");
    UniqueCategoriesIsSortedSet(data, ["a", "b"]);
  }
}
