/**
 * The render-prop exemption `isControllerRenderProp`: a function sitting in a
 * JSX expression container that is either the `render` attribute of a
 * `Controller`, a child of one of the children-render-prop elements, or one of
 * the render attributes of one of the render-prop elements.
 */
module RenderPropExemption {
  import opened Wrappers
  import opened SyntaxTree

  /** Elements whose children may be a render function. */
  const ChildrenRenderPropComponents: seq<string> :=
    ["Field", "FastField", "Connect", "Query", "Mutation", "Subscription"]

  /** Attribute names that conventionally carry a render function. */
  const RenderPropNames: seq<string> :=
    ["render", "children", "renderItem", "renderContent", "renderOption"]

  /** Elements whose attributes may carry a render function. */
  const RenderPropComponents: seq<string> :=
    ["Controller", "Field", "FastField", "Connect", "Query", "Mutation"]

  /** `list.includes(value)` where `value` may be `undefined`. */
  predicate Includes(list: seq<string>, value: Option<string>) {
    value.Some? && value.value in list
  }

  /** The function's parent is a `JSXExpressionContainer`. */
  predicate InContainer(t: Tree, i: nat)
    requires ValidTree(t) && i < |t|
  {
    KindIs(t, Parent(t, i), JSXExpressionContainer)
  }

  /** The container is the value of an attribute of an opening element. */
  predicate InAttribute(t: Tree, i: nat)
    requires ValidTree(t) && i < |t|
  {
    var p := Parent(t, i);
    InContainer(t, i) && KindIs(t, ParentOf(t, p), JSXAttribute)
      && KindIs(t, ParentOf(t, ParentOf(t, p)), JSXOpeningElement)
  }

  /** `node.parent.parent.name?.name`: the attribute's name. */
  function AttributeName(t: Tree, i: nat): Option<string>
    requires ValidTree(t) && i < |t|
  {
    NameOf(t, RefFieldOf(t, ParentOf(t, Parent(t, i)), "name"))
  }

  /** `node.parent.parent.parent.name?.name`: the opening element's name. */
  function AttributeElementName(t: Tree, i: nat): Option<string>
    requires ValidTree(t) && i < |t|
  {
    NameOf(t, RefFieldOf(t, ParentOf(t, ParentOf(t, Parent(t, i))), "name"))
  }

  /** `node.parent.parent.openingElement?.name?.name`: the enclosing element's name. */
  function ChildElementName(t: Tree, i: nat): Option<string>
    requires ValidTree(t) && i < |t|
  {
    var oe := RefFieldOf(t, ParentOf(t, Parent(t, i)), "openingElement");
    NameOf(t, RefFieldOf(t, oe, "name"))
  }

  /** First check: the `render` attribute of a `Controller`. */
  predicate ControllerRenderCheck(t: Tree, i: nat)
    requires ValidTree(t) && i < |t|
  {
    var p := Parent(t, i);
    && KindIs(t, p, JSXExpressionContainer)
    && KindIs(t, ParentOf(t, p), JSXAttribute)
    && AttributeName(t, i) == Some("render")
    && KindIs(t, ParentOf(t, ParentOf(t, p)), JSXOpeningElement)
    && AttributeElementName(t, i) == Some("Controller")
  }

  /**
   * Second check: a child container of a `JSXElement` whose opening element's
   * name is in the children list (the truthiness test on the name is implied
   * by the membership test, as no listed name is empty).
   */
  predicate ChildrenRenderCheck(t: Tree, i: nat)
    requires ValidTree(t) && i < |t|
  {
    var p := Parent(t, i);
    && KindIs(t, p, JSXExpressionContainer)
    && KindIs(t, ParentOf(t, p), JSXElement)
    && Includes(ChildrenRenderPropComponents, ChildElementName(t, i))
  }

  /** Third check: a listed attribute name on a listed element. */
  predicate AttributeRenderCheck(t: Tree, i: nat)
    requires ValidTree(t) && i < |t|
  {
    && InAttribute(t, i)
    && Includes(RenderPropNames, AttributeName(t, i))
    && Includes(RenderPropComponents, AttributeElementName(t, i))
  }

  /** `isControllerRenderProp(node)`. */
  predicate IsControllerRenderProp(t: Tree, i: nat)
    requires ValidTree(t) && i < |t|
  {
    ControllerRenderCheck(t, i) || ChildrenRenderCheck(t, i) || AttributeRenderCheck(t, i)
  }

  /** The first check is a special case of the third, so dropping it changes nothing. */
  lemma ControllerCheckSubsumed(t: Tree, i: nat)
    requires ValidTree(t) && i < |t|
    ensures ControllerRenderCheck(t, i) ==> AttributeRenderCheck(t, i)
    ensures IsControllerRenderProp(t, i) <==> ChildrenRenderCheck(t, i) || AttributeRenderCheck(t, i)
  {
    if ControllerRenderCheck(t, i) {
      assert "render" in RenderPropNames;
      assert "Controller" in RenderPropComponents;
    }
  }

  /**
   * The exemption holds exactly in the two positions: a child of a listed
   * element, or a listed attribute of a listed element; in particular it never
   * holds outside a `JSXExpressionContainer`, nor for an element whose name is
   * not a plain identifier.
   */
  lemma ExemptPositions(t: Tree, i: nat)
    requires ValidTree(t) && i < |t|
    ensures IsControllerRenderProp(t, i) ==> InContainer(t, i)
    ensures IsControllerRenderProp(t, i) <==>
      || (InContainer(t, i) && KindIs(t, ParentOf(t, Parent(t, i)), JSXElement)
          && ChildElementName(t, i).Some? && ChildElementName(t, i).value in ChildrenRenderPropComponents)
      || (InAttribute(t, i)
          && AttributeName(t, i).Some? && AttributeName(t, i).value in RenderPropNames
          && AttributeElementName(t, i).Some? && AttributeElementName(t, i).value in RenderPropComponents)
  {
    ControllerCheckSubsumed(t, i);
  }

  /** `Subscription` exempts through the children position only, never through an attribute. */
  lemma SubscriptionOnlyAsChildren(t: Tree, i: nat)
    requires ValidTree(t) && i < |t|
    requires AttributeElementName(t, i) == Some("Subscription")
    ensures !ControllerRenderCheck(t, i) && !AttributeRenderCheck(t, i)
  {
    assert "Subscription" !in RenderPropComponents;
  }
}
