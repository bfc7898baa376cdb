/** Label dictionaries, and the sorted tuples that stand for them in cache keys. */
module LabelSets {
  import opened Strings

  /** One item of a label dictionary; a dictionary is its items in insertion order. */
  datatype Item = Item(name: string, value: string)
  type Labels = map<string, string>

  predicate DistinctLabels(items: seq<Item>)
  {
    forall i, j :: 0 <= i < j < |items| ==> items[i].name != items[j].name
  }

  /** `dict(items)` */
  function AsMap(items: seq<Item>): Labels
  {
    if items == [] then map[]
    else AsMap(items[..|items| - 1])[items[|items| - 1].name := items[|items| - 1].value]
  }

  /** Tuples compare by label, then by value. */
  predicate ItemLess(a: Item, b: Item)
  {
    Less(a.name, b.name) || (a.name == b.name && Less(a.value, b.value))
  }

  function Insert(item: Item, sorted: seq<Item>): seq<Item>
  {
    if sorted == [] || ItemLess(item, sorted[0]) then [item] + sorted else [sorted[0]] + Insert(item, sorted[1..])
  }

  /** `sorted(labels.items())` */
  function SortItems(items: seq<Item>): seq<Item>
  {
    if items == [] then [] else Insert(items[0], SortItems(items[1..]))
  }

  ghost predicate AscendingNames(items: seq<Item>)
  {
    forall i, j :: 0 <= i < j < |items| ==> Less(items[i].name, items[j].name)
  }

  /** A dictionary is determined by its items. */
  lemma {:induction false} AsMapAt(items: seq<Item>, name: string, value: string)
    requires DistinctLabels(items)
    ensures (name in AsMap(items) && AsMap(items)[name] == value) <==> Item(name, value) in items
  {
    if items != [] {
      var init, last := items[..|items| - 1], items[|items| - 1];
      AsMapAt(init, name, value);
      assert items == init + [last];
      assert forall i :: 0 <= i < |init| ==> init[i].name != last.name;
    }
  }

  lemma {:induction false} InsertKeepsItems(item: Item, sorted: seq<Item>)
    ensures multiset(Insert(item, sorted)) == multiset(sorted) + multiset{item}
  {
    if sorted != [] && !ItemLess(item, sorted[0]) {
      InsertKeepsItems(item, sorted[1..]);
      assert sorted == [sorted[0]] + sorted[1..];
    }
  }

  lemma AscendingCons(item: Item, sorted: seq<Item>)
    requires AscendingNames(sorted) && (sorted == [] || Less(item.name, sorted[0].name))
    ensures AscendingNames([item] + sorted)
  {
    forall i | 0 <= i < |sorted| ensures Less(item.name, sorted[i].name) {
      if i > 0 {
        LessTransitive(item.name, sorted[0].name, sorted[i].name);
      }
    }
  }

  lemma {:induction false} InsertSpec(item: Item, sorted: seq<Item>)
    requires AscendingNames(sorted) && forall i :: 0 <= i < |sorted| ==> sorted[i].name != item.name
    ensures AscendingNames(Insert(item, sorted))
    ensures Insert(item, sorted)[0] == if sorted == [] || ItemLess(item, sorted[0]) then item else sorted[0]
  {
    if sorted == [] || ItemLess(item, sorted[0]) {
      AscendingCons(item, sorted);
    } else {
      LessTrichotomy(item.name, sorted[0].name);
      InsertSpec(item, sorted[1..]);
      AscendingCons(sorted[0], Insert(item, sorted[1..]));
    }
  }

  lemma {:induction false} SortSpec(items: seq<Item>)
    requires DistinctLabels(items)
    ensures AscendingNames(SortItems(items)) && multiset(SortItems(items)) == multiset(items)
  {
    if items != [] {
      SortSpec(items[1..]);
      var sorted := SortItems(items[1..]);
      assert items == [items[0]] + items[1..];
      forall i | 0 <= i < |sorted| ensures sorted[i].name != items[0].name {
        assert sorted[i] in multiset(items[1..]);
      }
      InsertSpec(items[0], sorted);
      InsertKeepsItems(items[0], sorted);
    }
  }

  lemma FirstIsLeast(a: seq<Item>, b: seq<Item>)
    requires AscendingNames(a) && AscendingNames(b) && a != [] && b != [] && forall x :: x in a <==> x in b
    ensures a[0] == b[0]
  {
    assert a[0] in b && b[0] in a;
    var i :| 0 <= i < |b| && b[i] == a[0];
    var j :| 0 <= j < |a| && a[j] == b[0];
    LessTrichotomy(a[0].name, b[0].name);
  }

  lemma RestWithoutFirst(a: seq<Item>)
    requires AscendingNames(a) && a != []
    ensures forall x :: x in a[1..] <==> x in a && x != a[0]
  {
    forall x ensures x in a[1..] <==> x in a && x != a[0] {
      LessTrichotomy(a[0].name, a[0].name);
      assert a == [a[0]] + a[1..];
      if x in a[1..] {
        var i :| 0 <= i < |a| - 1 && a[1..][i] == x;
        assert a[i + 1] == x;
      }
    }
  }

  /** There is only one way to list a dictionary in ascending order. */
  lemma {:induction false} AscendingIsUnique(a: seq<Item>, b: seq<Item>)
    requires AscendingNames(a) && AscendingNames(b) && forall x :: x in a <==> x in b
    ensures a == b
  {
    assert a != [] ==> a[0] in b;
    assert b != [] ==> b[0] in a;
    if a != [] {
      FirstIsLeast(a, b);
      assert forall x :: x in a[1..] <==> x in b[1..] by {
        RestWithoutFirst(a);
        RestWithoutFirst(b);
      }
      AscendingIsUnique(a[1..], b[1..]);
      assert a == [a[0]] + a[1..] && b == [b[0]] + b[1..];
    }
  }

  lemma AscendingIsDistinct(items: seq<Item>)
    requires AscendingNames(items)
    ensures DistinctLabels(items)
  {
    forall i, j | 0 <= i < j < |items| ensures items[i].name != items[j].name {
      LessTrichotomy(items[i].name, items[j].name);
    }
  }

  lemma SameElements(a: seq<Item>, b: seq<Item>)
    requires multiset(a) == multiset(b)
    ensures forall x :: x in a <==> x in b
  {
    forall x ensures x in a <==> x in b {
      assert x in a <==> x in multiset(a);
      assert x in b <==> x in multiset(b);
    }
  }

  lemma SubMap(a: seq<Item>, b: seq<Item>)
    requires DistinctLabels(a) && DistinctLabels(b) && forall x :: x in a ==> x in b
    ensures forall l :: l in AsMap(a) ==> l in AsMap(b) && AsMap(a)[l] == AsMap(b)[l]
  {
    forall l | l in AsMap(a) ensures l in AsMap(b) && AsMap(a)[l] == AsMap(b)[l] {
      AsMapAt(a, l, AsMap(a)[l]);
      AsMapAt(b, l, AsMap(a)[l]);
    }
  }

  /** Equal dictionaries hold the same items. */
  lemma MapDeterminesItems(a: seq<Item>, b: seq<Item>)
    requires DistinctLabels(a) && DistinctLabels(b)
    ensures AsMap(a) == AsMap(b) <==> forall x :: x in a <==> x in b
  {
    if AsMap(a) == AsMap(b) {
      forall x: Item ensures x in a <==> x in b {
        AsMapAt(a, x.name, x.value);
        AsMapAt(b, x.name, x.value);
      }
    } else if forall x :: x in a <==> x in b {
      SubMap(a, b);
      SubMap(b, a);
      assert false;
    }
  }

  /** Sorting loses nothing: the key's labels are the dictionary again. */
  lemma SortedIsSameMap(items: seq<Item>)
    requires DistinctLabels(items)
    ensures AsMap(SortItems(items)) == AsMap(items)
  {
    SortSpec(items);
    AscendingIsDistinct(SortItems(items));
    SameElements(SortItems(items), items);
    MapDeterminesItems(SortItems(items), items);
  }

  /** Keys do not depend on insertion order, and do tell different dictionaries apart. */
  lemma SameKeyIffSameLabels(a: seq<Item>, b: seq<Item>)
    requires DistinctLabels(a) && DistinctLabels(b)
    ensures SortItems(a) == SortItems(b) <==> AsMap(a) == AsMap(b)
  {
    SortedIsSameMap(a);
    SortedIsSameMap(b);
    if AsMap(a) == AsMap(b) {
      MapDeterminesItems(a, b);
      SortSpec(a);
      SortSpec(b);
      SameElements(SortItems(a), a);
      SameElements(SortItems(b), b);
      AscendingIsUnique(SortItems(a), SortItems(b));
    }
  }
}
