/** Sorting a list of pairs and dropping its repetitions, as `std::sort`, `std::unique` and `erase` do. */
module UniqueItems {

  /** The number of a type and a path. */
  type Item = (nat, string)

  // ---------- The order ----------

  /** Strings are compared character by character. */
  predicate StringLess(a: string, b: string) {
    b != [] && (a == [] || a[0] < b[0] || (a[0] == b[0] && StringLess(a[1..], b[1..])))
  }

  lemma {:induction false} StringOrder(a: string, b: string)
    ensures !(StringLess(a, b) && StringLess(b, a)) && (a == b ==> !StringLess(a, b))
    ensures a != b ==> StringLess(a, b) || StringLess(b, a)
  {
    if a != [] && b != [] && a[0] == b[0] {
      StringOrder(a[1..], b[1..]);
      assert a == [a[0]] + a[1..] && b == [b[0]] + b[1..];
    }
  }

  /** The order of a dictionary: at the first difference the smaller character decides, and a beginning comes before the whole. */
  lemma {:induction false} StringLessIff(a: string, b: string)
    ensures StringLess(a, b) <==> exists k :: FirstDifference(a, b, k)
  {
    if a != [] && b != [] && a[0] == b[0] {
      StringLessIff(a[1..], b[1..]);
      if k :| FirstDifference(a[1..], b[1..], k) {
        assert a[..k + 1] == [a[0]] + a[1..][..k] && b[..k + 1] == [b[0]] + b[1..][..k];
        assert FirstDifference(a, b, k + 1);
      }
      if k :| FirstDifference(a, b, k) {
        assert a[1..][..k - 1] == a[..k][1..] && b[1..][..k - 1] == b[..k][1..];
        assert FirstDifference(a[1..], b[1..], k - 1);
      }
    } else if b != [] {
      assert a == [] || a[0] < b[0] ==> FirstDifference(a, b, 0);
      forall k | 0 < k <= |a| && k < |b|
        ensures a[..k] != b[..k]
      {
        assert a[..k][0] == a[0] && b[..k][0] == b[0];
      }
    }
  }

  predicate FirstDifference(a: string, b: string, k: int) {
    0 <= k <= |a| && k < |b| && a[..k] == b[..k] && (k < |a| ==> a[k] < b[k])
  }

  lemma {:induction false} StringLessTransitive(a: string, b: string, c: string)
    requires StringLess(a, b) && StringLess(b, c)
    ensures StringLess(a, c)
  {
    if a != [] && a[0] == b[0] == c[0] {
      StringLessTransitive(a[1..], b[1..], c[1..]);
    }
  }

  /** Types are compared by their numbers, and only then the paths. */
  predicate ItemLess(x: Item, y: Item) {
    x.0 < y.0 || (x.0 == y.0 && StringLess(x.1, y.1))
  }

  lemma ItemOrder(x: Item, y: Item)
    ensures !(ItemLess(x, y) && ItemLess(y, x)) && (x == y ==> !ItemLess(x, y))
    ensures x != y ==> ItemLess(x, y) || ItemLess(y, x)
  {
    StringOrder(x.1, y.1);
  }

  lemma ItemLessTransitive(x: Item, y: Item, z: Item)
    requires ItemLess(x, y) && ItemLess(y, z)
    ensures ItemLess(x, z)
  {
    if x.0 == y.0 == z.0 {
      StringLessTransitive(x.1, y.1, z.1);
    }
  }

  predicate StrictlySorted(items: seq<Item>) {
    forall i, j :: 0 <= i < j < |items| ==> ItemLess(items[i], items[j])
  }

  predicate Sorted(items: seq<Item>) {
    forall i, j :: 0 <= i < j < |items| ==> items[i] == items[j] || ItemLess(items[i], items[j])
  }

  // ---------- Sorting and dropping repetitions ----------

  function Insert(x: Item, items: seq<Item>): seq<Item> {
    if items == [] || ItemLess(x, items[0]) then [x] + items else [items[0]] + Insert(x, items[1..])
  }

  function SortItems(items: seq<Item>): seq<Item> {
    if items == [] then [] else Insert(items[0], SortItems(items[1..]))
  }

  /** Of equal neighbours only the first is kept. */
  function Unique(items: seq<Item>): seq<Item> {
    if |items| <= 1 then items
    else if items[0] == items[1] then Unique(items[1..])
    else [items[0]] + Unique(items[1..])
  }

  /** Nothing in the list comes before `x`. */
  predicate Leads(x: Item, items: seq<Item>) {
    forall y :: y in items ==> x == y || ItemLess(x, y)
  }

  lemma LeadsSorted(x: Item, items: seq<Item>)
    requires Sorted(items) && Leads(x, items)
    ensures Sorted([x] + items)
  {
  }

  lemma SortedLeads(x: Item, items: seq<Item>)
    requires Sorted(items) && items != [] && ItemLess(x, items[0])
    ensures Leads(x, items)
  {
    forall y | y in items
      ensures ItemLess(x, y)
    {
      var j :| 0 <= j < |items| && items[j] == y;
      if j > 0 && y != items[0] {
        ItemLessTransitive(x, items[0], y);
      }
    }
  }

  lemma {:induction false} InsertKeeps(x: Item, items: seq<Item>)
    requires Sorted(items)
    ensures Sorted(Insert(x, items)) && multiset(Insert(x, items)) == multiset(items) + multiset{x}
  {
    if items == [] {
    } else if ItemLess(x, items[0]) {
      SortedLeads(x, items);
      LeadsSorted(x, items);
    } else {
      var rest := items[1..];
      InsertKeeps(x, rest);
      assert items == [items[0]] + rest;
      ItemOrder(x, items[0]);
      InsertLeads(items[0], x, rest);
      LeadsSorted(items[0], Insert(x, rest));
    }
  }

  lemma InsertLeads(first: Item, x: Item, rest: seq<Item>)
    requires Leads(first, rest) && (first == x || ItemLess(first, x))
    requires multiset(Insert(x, rest)) == multiset(rest) + multiset{x}
    ensures Leads(first, Insert(x, rest))
  {
    forall y | y in Insert(x, rest)
      ensures first == y || ItemLess(first, y)
    {
      assert y in multiset(Insert(x, rest));
    }
  }

  lemma {:induction false} SortItemsSorts(items: seq<Item>)
    ensures Sorted(SortItems(items)) && multiset(SortItems(items)) == multiset(items)
  {
    if items != [] {
      SortItemsSorts(items[1..]);
      InsertKeeps(items[0], SortItems(items[1..]));
      assert items == [items[0]] + items[1..];
    }
  }

  lemma {:induction false} UniqueStrict(items: seq<Item>)
    requires Sorted(items)
    ensures StrictlySorted(Unique(items)) && forall x :: x in Unique(items) <==> x in items
  {
    if |items| > 1 {
      var rest := items[1..];
      UniqueStrict(rest);
      assert items == [items[0]] + rest;
      if items[0] != items[1] {
        forall y | y in Unique(rest)
          ensures ItemLess(items[0], y)
        {
          var j :| 0 <= j < |rest| && rest[j] == y;
          assert y == items[j + 1];
          if j > 0 && items[1] != items[j + 1] {
            ItemLessTransitive(items[0], items[1], y);
          }
        }
      }
    }
  }

  ghost predicate SameItems(a: seq<Item>, b: seq<Item>) {
    forall x :: x in a <==> x in b
  }

  /** What Uniquefy makes of its argument: the same items, each once and in order. */
  ghost predicate IsUniquefied(t: seq<Item>, items: seq<Item>) {
    StrictlySorted(t) && SameItems(t, items)
  }

  /** Its argument is a copy of the caller's list. The original returns nothing: `t` is the local container at its end. */
  method Uniquefy(items: seq<Item>) returns (t: seq<Item>)
    ensures IsUniquefied(t, items)
  {
    t := SortItems(items);
    t := Unique(t);
    SortItemsSorts(items);
    UniqueStrict(SortItems(items));
    forall x
      ensures x in t <==> x in items
    {
      assert x in SortItems(items) <==> x in multiset(SortItems(items));
      assert x in items <==> x in multiset(items);
    }
  }

  lemma FirstOnce(a: seq<Item>)
    requires a != [] && StrictlySorted(a)
    ensures StrictlySorted(a[1..]) && forall x :: x in a[1..] <==> x in a && x != a[0]
  {
    ItemOrder(a[0], a[0]);
    assert a == [a[0]] + a[1..];
  }

  lemma SameFirst(a: seq<Item>, b: seq<Item>)
    requires StrictlySorted(a) && StrictlySorted(b) && SameItems(a, b) && a != [] && b != []
    ensures a[0] == b[0]
  {
    assert a[0] in a && b[0] in b;
    var i :| 0 <= i < |b| && b[i] == a[0];
    var j :| 0 <= j < |a| && a[j] == b[0];
    ItemOrder(a[0], b[0]);
  }

  lemma HasItems(a: seq<Item>)
    ensures a == [] <==> forall x :: x !in a
  {
    assert a != [] ==> a[0] in a;
  }

  lemma {:induction false} StrictlySortedUnique(a: seq<Item>, b: seq<Item>)
    requires StrictlySorted(a) && StrictlySorted(b) && SameItems(a, b)
    ensures a == b
  {
    HasItems(a);
    HasItems(b);
    if a != [] && b != [] {
      SameFirst(a, b);
      FirstOnce(a);
      FirstOnce(b);
      StrictlySortedUnique(a[1..], b[1..]);
      assert a == [a[0]] + a[1..] && b == [b[0]] + b[1..];
    }
  }

  /** A list is what Uniquefy would make of it exactly if it is strictly sorted. */
  lemma UniquefiedIff(t: seq<Item>, items: seq<Item>)
    requires IsUniquefied(t, items)
    ensures t == items <==> StrictlySorted(items)
  {
    if StrictlySorted(items) {
      StrictlySortedUnique(t, items);
    }
  }
}
