/**
 * The getTypeDescendants query of CMIS 1.0 (section 2.2.2.4 of the OASIS
 * specification): the subtree below a type, cut at a depth.
 */
module TypeDescendants {
  import opened Wrappers
  import opened CmisModel
  import opened TypeManager

  /** A node of a returned tree; a leaf has no children. */
  datatype TypeContainer = TypeContainer(definition: TypeDefinition, children: seq<TypeContainer>)

  const DEPTH_ZERO_MESSAGE := "Depth must not be 0!"

  /**
   * Copies the stored subtree below `typeId`. A node at remaining depth 0 is
   * a leaf; below it the children follow in registration order with the
   * depth one less, a negative depth staying unbounded. The root carries
   * the requested type and each child container the stored child.
   */
  function Walk(reg: Registry, typeId: string, depth: int, includePropertyDefinitions: bool): (c: TypeContainer)
    requires Valid(reg)
    requires typeId in reg.types
    ensures c.definition == Shown(reg.types[typeId].definition, includePropertyDefinitions)
    ensures c.definition.id == typeId
    ensures depth == 0 ==> c.children == []
    ensures depth != 0 ==> |c.children| == |reg.types[typeId].children|
    ensures depth != 0 ==> forall i :: 0 <= i < |c.children| ==>
              c.children[i].definition.id == reg.types[typeId].children[i]
    decreases reg.nextRank - reg.types[typeId].rank
  {
    var node := reg.types[typeId];
    var shown := Shown(node.definition, includePropertyDefinitions);
    if depth == 0 then TypeContainer(shown, [])
    else
      var below := if depth < 0 then -1 else depth - 1;
      assert forall i :: 0 <= i < |node.children| ==> Linked(reg, typeId, node.children[i]);
      TypeContainer(shown, seq(|node.children|, i requires 0 <= i < |node.children| =>
                                 Walk(reg, node.children[i], below, includePropertyDefinitions)))
  }

  /**
   * The descendants of a type, or of both base roots when no type is named.
   * A zero depth is refused; a missing depth means unbounded; property
   * definitions are included only when explicitly requested; an unknown
   * type gives an empty list.
   */
  function GetTypesDescendants(reg: Registry, typeId: Option<string>, depth: Option<int>,
                               includePropertyDefinitions: Option<bool>)
    : (r: Result<seq<TypeContainer>, CmisError>)
    requires Valid(reg)
    ensures depth == Some(0) <==> r.Failure?
    ensures r.Failure? ==> r.error == InvalidArgument(DEPTH_ZERO_MESSAGE)
    ensures r.Success? && typeId.None? ==>
              |r.value| == 2
              && r.value[0].definition.id == FOLDER_TYPE_ID
              && r.value[1].definition.id == DOCUMENT_TYPE_ID
    ensures r.Success? && typeId.Some? ==>
              (|r.value| == 1 <==> typeId.value in reg.types)
              && (typeId.value !in reg.types ==> r.value == [])
              && (typeId.value in reg.types ==> r.value[0].definition.id == typeId.value)
  {
    var d := if depth.None? then -1 else depth.value;
    if d == 0 then Failure(InvalidArgument(DEPTH_ZERO_MESSAGE))
    else
      var ipd := includePropertyDefinitions == Some(true);
      if typeId.None? then
        Success([Walk(reg, FOLDER_TYPE_ID, d, ipd), Walk(reg, DOCUMENT_TYPE_ID, d, ipd)])
      else if typeId.value in reg.types then
        Success([Walk(reg, typeId.value, d, ipd)])
      else Success([])
  }

  /** The tree is at most `h` levels deep below its root. */
  predicate HeightAtMost(c: TypeContainer, h: nat)
    decreases c
  {
    c.children == [] || (h > 0 && forall i :: 0 <= i < |c.children| ==> HeightAtMost(c.children[i], h - 1))
  }

  /** Every definition in the tree has an empty property map. */
  predicate PropertiesCleared(c: TypeContainer)
    decreases c
  {
    c.definition.properties == map[] && forall i :: 0 <= i < |c.children| ==> PropertiesCleared(c.children[i])
  }

  /**
   * A tree cut at `depth` levels below its root (unbounded when negative),
   * with property definitions dropped unless asked for: the reference
   * meaning of a depth-limited answer, independent of the registry.
   */
  function Prune(t: TypeContainer, depth: int, includePropertyDefinitions: bool): TypeContainer
    decreases t
  {
    TypeContainer(
      Shown(t.definition, includePropertyDefinitions),
      if depth == 0 then []
      else seq(|t.children|, i requires 0 <= i < |t.children| =>
                 Prune(t.children[i], if depth < 0 then -1 else depth - 1, includePropertyDefinitions)))
  }

  /** The whole stored subtree below a type, property definitions included. */
  function Subtree(reg: Registry, typeId: string): TypeContainer
    requires Valid(reg)
    requires typeId in reg.types
  {
    Walk(reg, typeId, -1, true)
  }

  /**
   * The walk at any depth is the stored subtree cut at that depth, with
   * property definitions dropped unless asked for.
   */
  lemma {:induction false} WalkIsPrunedSubtree(reg: Registry, typeId: string, depth: int,
                                               includePropertyDefinitions: bool)
    requires Valid(reg)
    requires typeId in reg.types
    ensures Walk(reg, typeId, depth, includePropertyDefinitions)
            == Prune(Subtree(reg, typeId), depth, includePropertyDefinitions)
    decreases reg.nextRank - reg.types[typeId].rank
  {
    var w := Walk(reg, typeId, depth, includePropertyDefinitions);
    var full := Subtree(reg, typeId);
    var p := Prune(full, depth, includePropertyDefinitions);
    if depth != 0 {
      var cs := reg.types[typeId].children;
      var below := if depth < 0 then -1 else depth - 1;
      assert |w.children| == |p.children| == |cs|;
      forall i | 0 <= i < |cs| ensures w.children[i] == p.children[i] {
        assert Linked(reg, typeId, cs[i]);
        assert w.children[i] == Walk(reg, cs[i], below, includePropertyDefinitions);
        assert full.children[i] == Subtree(reg, cs[i]);
        WalkIsPrunedSubtree(reg, cs[i], below, includePropertyDefinitions);
      }
    }
  }

  /** A tree cut at a positive depth is at most that deep. */
  lemma {:induction false} PruneHeight(t: TypeContainer, depth: int, includePropertyDefinitions: bool)
    requires depth > 0
    ensures HeightAtMost(Prune(t, depth, includePropertyDefinitions), depth)
    decreases t
  {
    var p := Prune(t, depth, includePropertyDefinitions);
    forall i | 0 <= i < |p.children| ensures HeightAtMost(p.children[i], depth - 1) {
      if depth - 1 > 0 {
        PruneHeight(t.children[i], depth - 1, includePropertyDefinitions);
      } else {
        assert p.children[i] == Prune(t.children[i], 0, includePropertyDefinitions);
      }
    }
  }

  /** Cutting at a negative depth and keeping properties leaves a tree as it is. */
  lemma {:induction false} PruneUnbounded(t: TypeContainer, depth: int)
    requires depth < 0
    ensures Prune(t, depth, true) == t
    decreases t
  {
    var p := Prune(t, depth, true);
    forall i | 0 <= i < |t.children| ensures p.children[i] == t.children[i] {
      PruneUnbounded(t.children[i], -1);
    }
  }

  /** Cutting without property definitions clears every node's property map. */
  lemma {:induction false} PruneClearsProperties(t: TypeContainer, depth: int)
    ensures PropertiesCleared(Prune(t, depth, false))
    decreases t
  {
    var p := Prune(t, depth, false);
    forall i | 0 <= i < |p.children| ensures PropertiesCleared(p.children[i]) {
      PruneClearsProperties(t.children[i], if depth < 0 then -1 else depth - 1);
    }
  }

  /**
   * Each tree a successful descendants query returns is a stored subtree
   * cut at the requested depth: at most that deep when positive, the whole
   * subtree when negative, and with every property map cleared unless
   * property definitions were requested.
   */
  lemma DescendantsAreCutSubtrees(reg: Registry, typeId: Option<string>, depth: Option<int>,
                                  includePropertyDefinitions: Option<bool>, k: nat)
    requires Valid(reg)
    requires GetTypesDescendants(reg, typeId, depth, includePropertyDefinitions).Success?
    requires k < |GetTypesDescendants(reg, typeId, depth, includePropertyDefinitions).value|
    ensures var c := GetTypesDescendants(reg, typeId, depth, includePropertyDefinitions).value[k];
            var d := if depth.None? then -1 else depth.value;
            var anchor := if typeId.None? then [FOLDER_TYPE_ID, DOCUMENT_TYPE_ID][k] else typeId.value;
            && anchor in reg.types
            && c == Prune(Subtree(reg, anchor), d, includePropertyDefinitions == Some(true))
            && (d > 0 ==> HeightAtMost(c, d))
            && (d < 0 && includePropertyDefinitions == Some(true) ==> c == Subtree(reg, anchor))
            && (includePropertyDefinitions != Some(true) ==> PropertiesCleared(c))
  {
    var d := if depth.None? then -1 else depth.value;
    var ipd := includePropertyDefinitions == Some(true);
    var anchor := if typeId.None? then [FOLDER_TYPE_ID, DOCUMENT_TYPE_ID][k] else typeId.value;
    var c := GetTypesDescendants(reg, typeId, depth, includePropertyDefinitions).value[k];
    assert anchor in reg.types && c == Walk(reg, anchor, d, ipd);
    WalkIsPrunedSubtree(reg, anchor, d, ipd);
    if d > 0 {
      PruneHeight(Subtree(reg, anchor), d, ipd);
    }
    if d < 0 {
      PruneUnbounded(Subtree(reg, anchor), d);
    }
    PruneClearsProperties(Subtree(reg, anchor), d);
  }
}
