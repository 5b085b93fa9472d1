/** The order of the disc index: items sorted by start sector, then by
    their place in the type hierarchy (files above videos above audio),
    then with the more encompassing item first. */
module DiscOrder {

  /** The kinds typeHierarchyLevel tells apart. */
  datatype Category = Iso9660File | StrVideoStream | AudioStream | OtherItem

  /** A disc item's Java class: two items have the same class exactly when
      their ItemClass values are equal (an audio subclass is one class,
      whatever its name, inside the AudioStream category). */
  datatype ItemClass = ItemClass(name: string, category: Category)

  /** What the index needs of a disc item. */
  datatype Item = Item(cls: ItemClass, startSector: int, endSector: int)

  /** typeHierarchyLevel. */
  function TypeHierarchyLevel(item: Item): (r: int)
    ensures 1 <= r <= 4
    ensures r == 1 <==> item.cls.category == Iso9660File
    ensures r == 2 <==> item.cls.category == StrVideoStream
    ensures r == 3 <==> item.cls.category == AudioStream
    ensures r == 4 <==> item.cls.category == OtherItem
  {
    match item.cls.category
    case Iso9660File => 1
    case StrVideoStream => 2
    case AudioStream => 3
    case OtherItem => 4
  }

  /** Misc.intCompare: the sign of a - b as -1, 0 or 1 (the helper itself
      is not part of this model). */
  function IntCompare(a: int, b: int): (r: int)
    ensures r == -1 <==> a < b
    ensures r == 0 <==> a == b
    ensures r == 1 <==> a > b
  {
    if a < b then -1 else if a > b then 1 else 0
  }

  /** SORT_BY_SECTOR_HIERARHCY. Items of the same class defer to their
      natural order, `natural` (compareTo, not part of this model). */
  function Compare(o1: Item, o2: Item, natural: (Item, Item) -> int): int
  {
    if o1.cls == o2.cls then natural(o1, o2)
    else if o1.startSector < o2.startSector then -1
    else if o1.startSector > o2.startSector then 1
    else if TypeHierarchyLevel(o1) < TypeHierarchyLevel(o2) then -1
    else if TypeHierarchyLevel(o1) > TypeHierarchyLevel(o2) then 1
    else IntCompare(o2.endSector, o1.endSector)
  }

  function Sign(x: int): int
  {
    if x < 0 then -1 else if x > 0 then 1 else 0
  }

  /** On items of different classes the comparator is antisymmetric. */
  lemma CompareAntisymmetric(a: Item, b: Item, natural: (Item, Item) -> int)
    requires a.cls != b.cls
    ensures Sign(Compare(a, b, natural)) == -Sign(Compare(b, a, natural))
  {
  }

  /** Items of different classes compare as the triple (start sector,
      hierarchy level, minus end sector), lexicographically. */
  lemma CompareLexicographic(a: Item, b: Item, natural: (Item, Item) -> int)
    requires a.cls != b.cls
    ensures Compare(a, b, natural) < 0 <==>
              a.startSector < b.startSector ||
              (a.startSector == b.startSector && TypeHierarchyLevel(a) < TypeHierarchyLevel(b)) ||
              (a.startSector == b.startSector && TypeHierarchyLevel(a) == TypeHierarchyLevel(b) && a.endSector > b.endSector)
    ensures Compare(a, b, natural) == 0 <==>
              a.startSector == b.startSector && TypeHierarchyLevel(a) == TypeHierarchyLevel(b) && a.endSector == b.endSector
  {
  }

  /** On different-class items the comparator is transitive as well (the
      same-class branch, left to compareTo, can break transitivity across
      classes, so no claim is made for the whole order). */
  lemma CompareTransitiveAcrossClasses(a: Item, b: Item, c: Item, natural: (Item, Item) -> int)
    requires a.cls != b.cls && b.cls != c.cls && a.cls != c.cls
    requires Compare(a, b, natural) < 0 && Compare(b, c, natural) < 0
    ensures Compare(a, c, natural) < 0
  {
    CompareLexicographic(a, b, natural);
    CompareLexicographic(b, c, natural);
    CompareLexicographic(a, c, natural);
  }

  /** What Collections.sort is taken to deliver: adjacent items in
      comparator order. */
  predicate SortedBy(items: seq<Item>, natural: (Item, Item) -> int)
  {
    forall i :: 0 <= i < |items| - 1 ==> Compare(items[i], items[i + 1], natural) <= 0
  }
}
