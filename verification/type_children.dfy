/**
 * The getTypeChildren query of CMIS 1.0 (section 2.2.2.3 of the OASIS
 * specification) as the registry answers it: one page of the direct
 * children of a type, or of the two base roots when no type is named.
 */
module TypeChildren {
  import opened Wrappers
  import opened CmisModel
  import opened TypeManager

  /** `Integer.MAX_VALUE`, the page size when none is given. */
  const INT_MAX: int := 0x7fff_ffff

  /** A page of type definitions; an unset field is `None`. */
  datatype TypeList = TypeList(list: seq<TypeDefinition>, hasMoreItems: Option<bool>, numItems: Option<int>)

  /** The children a page loop kept, and what was left of its skip counter. */
  datatype Page<T> = Page(items: seq<T>, skipLeft: nat)

  function Min(a: int, b: int): int {
    if a < b then a else b
  }

  /** A missing or negative skip count skips nothing. */
  function SkipOf(skipCount: Option<int>): nat {
    if skipCount.None? || skipCount.value < 0 then 0 else skipCount.value
  }

  /** A missing page size is the largest int. */
  function MaxOf(maxItems: Option<int>): int {
    if maxItems.None? then INT_MAX else maxItems.value
  }

  /**
   * The loop over a type's children: while the skip counter is positive it
   * is decremented and the child passed over; otherwise the child is kept,
   * the page budget decremented, and the loop stops when the budget is
   * spent. The kept children are the window after the first `skip`, at
   * most `max` long; the counter is left positive only when it outlasted
   * every child.
   */
  function Paginate<T>(items: seq<T>, skip: nat, max: int): (p: Page<T>)
    requires max >= 1
    ensures var from := Min(skip, |items|);
            && p.items == items[from..from + Min(max, |items| - from)]
            && p.skipLeft == skip - from
    decreases |items|
  {
    if |items| == 0 then Page([], skip)
    else if skip > 0 then Paginate(items[1..], skip - 1, max)
    else if max == 1 then Page([items[0]], 0)
    else
      var rest := Paginate(items[1..], 0, max - 1);
      assert [items[0]] + items[1..][..Min(max - 1, |items| - 1)] == items[..Min(max, |items|)];
      Page([items[0]] + rest.items, rest.skipLeft)
  }

  /** The kept children, index by index: the `i`th is the child `i` places after the skip. */
  lemma PageWindow<T>(items: seq<T>, skip: nat, max: int)
    requires max >= 1
    ensures var p := Paginate(items, skip, max);
            var from := Min(skip, |items|);
            && |p.items| == Min(max, |items| - from)
            && forall i :: 0 <= i < |p.items| ==> p.items[i] == items[from + i]
  {
  }

  /**
   * The page of base roots: the folder type unless one item is skipped,
   * then the document type unless two are skipped or the budget is spent.
   * That is the window after `skip` of [folder, document], at most `max` long.
   */
  function RootPage(reg: Registry, skip: nat, max: int): (r: seq<TypeDefinition>)
    requires Valid(reg)
    requires max >= 1
    ensures var roots := [reg.types[FOLDER_TYPE_ID].definition, reg.types[DOCUMENT_TYPE_ID].definition];
            var from := Min(skip, 2);
            r == roots[from..from + Min(max, 2 - from)]
  {
    var folder := if skip < 1 then [reg.types[FOLDER_TYPE_ID].definition] else [];
    var budget := if skip < 1 then max - 1 else max;
    folder + (if skip < 2 && budget > 0 then [reg.types[DOCUMENT_TYPE_ID].definition] else [])
  }

  function Definitions(reg: Registry, ids: seq<string>): (r: seq<TypeDefinition>)
    requires forall i :: 0 <= i < |ids| ==> ids[i] in reg.types
    ensures |r| == |ids|
    ensures forall i :: 0 <= i < |ids| ==> r[i] == reg.types[ids[i]].definition
  {
    seq(|ids|, i requires 0 <= i < |ids| => reg.types[ids[i]].definition)
  }

  function ShownAll(ts: seq<TypeDefinition>, includePropertyDefinitions: bool): (r: seq<TypeDefinition>)
    ensures |r| == |ts|
    ensures forall i :: 0 <= i < |ts| ==> r[i] == Shown(ts[i], includePropertyDefinitions)
  {
    seq(|ts|, i requires 0 <= i < |ts| => Shown(ts[i], includePropertyDefinitions))
  }

  /** The children of a registered type, in registration order. */
  function ChildrenOf(reg: Registry, typeId: string): (cs: seq<string>)
    requires Valid(reg)
    requires typeId in reg.types
    ensures forall i :: 0 <= i < |cs| ==> cs[i] in reg.types
    ensures forall i :: 0 <= i < |cs| ==> reg.types[cs[i]].definition.parentTypeId == Some(typeId)
  {
    var cs := reg.types[typeId].children;
    assert forall i :: 0 <= i < |cs| ==> Linked(reg, typeId, cs[i]);
    cs
  }

  /** The page of base roots, with `numItems` 2 and `hasMoreItems` against the skip asked for. */
  function RootChildren(reg: Registry, includePropertyDefinitions: bool, skip: nat, max: int): (r: TypeList)
    requires Valid(reg)
    requires max >= 1
    ensures var from := Min(skip, 2);
            var roots := [reg.types[FOLDER_TYPE_ID].definition, reg.types[DOCUMENT_TYPE_ID].definition];
            && r.list == ShownAll(roots[from..from + Min(max, 2 - from)], includePropertyDefinitions)
            && r.numItems == Some(2)
            && r.hasMoreItems == Some(|r.list| + skip < 2)
  {
    var page := RootPage(reg, skip, max);
    TypeList(ShownAll(page, includePropertyDefinitions), Some(|page| + skip < 2), Some(2))
  }

  /**
   * The page of a type's children, with `numItems` the child count and
   * `hasMoreItems` against what the loop left of the skip counter.
   */
  function ChildPage(reg: Registry, typeId: string, includePropertyDefinitions: bool, skip: nat, max: int)
    : (r: TypeList)
    requires Valid(reg)
    requires typeId in reg.types
    requires max >= 1
    ensures var cs := reg.types[typeId].children;
            var from := Min(skip, |cs|);
            && |r.list| == Min(max, |cs| - from)
            && (forall i :: 0 <= i < |r.list| ==>
                  r.list[i] == Shown(reg.types[cs[from + i]].definition, includePropertyDefinitions))
            && r.numItems == Some(|cs|)
            && r.hasMoreItems == Some(|r.list| + (skip - from) < |cs|)
  {
    var cs := ChildrenOf(reg, typeId);
    var page := Paginate(cs, skip, max);
    PageWindow(cs, skip, max);
    TypeList(ShownAll(Definitions(reg, page.items), includePropertyDefinitions),
             Some(|page.items| + page.skipLeft < |cs|), Some(|cs|))
  }

  /**
   * One page of children. A page size below one gives an empty list with
   * both counters unset. With no type id the page is taken from the two
   * base roots, `numItems` is 2 and `hasMoreItems` says whether the page
   * plus the skip falls short of 2. An unknown or childless type gives an
   * empty list with both counters unset. Otherwise the page is the window
   * of the children after `skip`, at most the page size long, `numItems` is
   * the child count, and `hasMoreItems` compares the page plus what is
   * left of the skip counter after the loop with the child count. Without
   * property definitions every returned definition has an empty property map.
   */
  function GetTypeChildren(reg: Registry, typeId: Option<string>, includePropertyDefinitions: bool,
                           maxItems: Option<int>, skipCount: Option<int>): (r: TypeList)
    requires Valid(reg)
    ensures MaxOf(maxItems) < 1 ==> r == TypeList([], None, None)
    ensures |r.list| <= if MaxOf(maxItems) < 1 then 0 else MaxOf(maxItems)
    ensures !includePropertyDefinitions ==> forall i :: 0 <= i < |r.list| ==> r.list[i].properties == map[]
    ensures MaxOf(maxItems) >= 1 && typeId.None? ==>
              r == RootChildren(reg, includePropertyDefinitions, SkipOf(skipCount), MaxOf(maxItems))
    ensures typeId.Some? && (typeId.value !in reg.types || reg.types[typeId.value].children == []) ==>
              r == TypeList([], None, None)
    ensures MaxOf(maxItems) >= 1 && typeId.Some? && typeId.value in reg.types
              && reg.types[typeId.value].children != [] ==>
              r == ChildPage(reg, typeId.value, includePropertyDefinitions, SkipOf(skipCount), MaxOf(maxItems))
  {
    var skip := SkipOf(skipCount);
    var max := MaxOf(maxItems);
    if max < 1 then TypeList([], None, None)
    else if typeId.None? then RootChildren(reg, includePropertyDefinitions, skip, max)
    else if typeId.value !in reg.types || reg.types[typeId.value].children == [] then
      TypeList([], None, None)
    else ChildPage(reg, typeId.value, includePropertyDefinitions, skip, max)
  }

  /**
   * The page of children never exceeds the page size nor what remains
   * after the skip, and `hasMoreItems` is set exactly when the page plus the
   * leftover skip falls short of the child count.
   */
  lemma ChildPageBounds(reg: Registry, typeId: string, skipCount: Option<int>, maxItems: Option<int>)
    requires Valid(reg)
    requires typeId in reg.types && reg.types[typeId].children != []
    ensures var r := GetTypeChildren(reg, Some(typeId), true, maxItems, skipCount);
            var n := |reg.types[typeId].children|;
            var k := |r.list|;
            && (MaxOf(maxItems) >= 1 ==> k <= MaxOf(maxItems))
            && k <= (if n - SkipOf(skipCount) < 0 then 0 else n - SkipOf(skipCount))
            && (MaxOf(maxItems) >= 1 && SkipOf(skipCount) <= n ==>
                  r.hasMoreItems == Some(k < n))
  {
    var r := GetTypeChildren(reg, Some(typeId), true, maxItems, skipCount);
    if MaxOf(maxItems) >= 1 {
      assert r == ChildPage(reg, typeId, true, SkipOf(skipCount), MaxOf(maxItems));
    }
  }

  /**
   * The leftover skip in the child branch: when the skip reaches the last
   * child and no page size is given, the page ends with the last child,
   * yet `hasMoreItems` is true.
   */
  lemma HasMoreItemsAfterLastChild(reg: Registry, typeId: string)
    requires Valid(reg)
    requires typeId in reg.types && |reg.types[typeId].children| >= 2
    ensures var n := |reg.types[typeId].children|;
            var r := GetTypeChildren(reg, Some(typeId), true, None, Some(n - 1));
            && |r.list| == 1
            && r.list[0] == reg.types[reg.types[typeId].children[n - 1]].definition
            && (n - 1) + |r.list| == n
            && r.hasMoreItems == Some(true)
  {
  }

  /**
   * The child page with `hasMoreItems` as CMIS and the root branch define
   * it: the page plus the skip asked for falls short of the child count.
   */
  function GetTypeChildrenIntended(reg: Registry, typeId: Option<string>, includePropertyDefinitions: bool,
                                   maxItems: Option<int>, skipCount: Option<int>): (r: TypeList)
    requires Valid(reg)
    ensures r.list == GetTypeChildren(reg, typeId, includePropertyDefinitions, maxItems, skipCount).list
    ensures r.numItems == GetTypeChildren(reg, typeId, includePropertyDefinitions, maxItems, skipCount).numItems
    ensures r.hasMoreItems == if r.numItems.Some? then Some(|r.list| + SkipOf(skipCount) < r.numItems.value) else None
  {
    var r := GetTypeChildren(reg, typeId, includePropertyDefinitions, maxItems, skipCount);
    if typeId.Some? && r.numItems.Some? then
      r.(hasMoreItems := Some(|r.list| + SkipOf(skipCount) < r.numItems.value))
    else r
  }

  /**
   * With the corrected flag, `hasMoreItems` is true exactly when some child
   * follows the returned page.
   */
  lemma IntendedHasMoreItemsMeansChildFollows(reg: Registry, typeId: string, includePropertyDefinitions: bool,
                                              maxItems: Option<int>, skipCount: Option<int>)
    requires Valid(reg)
    requires typeId in reg.types && reg.types[typeId].children != []
    requires MaxOf(maxItems) >= 1
    ensures var r := GetTypeChildrenIntended(reg, Some(typeId), includePropertyDefinitions, maxItems, skipCount);
            var n := |reg.types[typeId].children|;
            r.hasMoreItems == Some(Min(SkipOf(skipCount), n) + |r.list| < n)
  {
    var g := GetTypeChildren(reg, Some(typeId), includePropertyDefinitions, maxItems, skipCount);
    var n := |reg.types[typeId].children|;
    assert g == ChildPage(reg, typeId, includePropertyDefinitions, SkipOf(skipCount), MaxOf(maxItems));
    assert |g.list| == Min(MaxOf(maxItems), n - Min(SkipOf(skipCount), n));
    assert g.numItems == Some(n);
    var r := GetTypeChildrenIntended(reg, Some(typeId), includePropertyDefinitions, maxItems, skipCount);
    assert r.hasMoreItems == Some(|g.list| + SkipOf(skipCount) < n);
  }
}
