/**
 * The ESTree syntax tree the rule inspects, as an arena.  A node is a record
 * holding its type, its own properties in key order (as a `for...in` loop
 * visits them), the index of its parent and its `[start, end)` range in the
 * source text.  Properties holding nodes hold arena indices; the parent link
 * is kept apart from the properties, as ESLint adds it to every node.
 */
module SyntaxTree {
  import opened Wrappers
  import opened SourceText

  /** The node types the rule tells apart; every other ESTree type is `Other`. */
  datatype Kind =
    | FunctionDeclaration
    | ArrowFunctionExpression
    | CallExpression
    | MemberExpression
    | Identifier
    | VariableDeclarator
    | ObjectPattern
    | BlockStatement
    | JSXElement
    | JSXOpeningElement
    | JSXAttribute
    | JSXExpressionContainer
    | JSXIdentifier
    | Other(typeName: string)

  /** The node's `type` string. */
  function TypeName(k: Kind): string {
    match k
    case FunctionDeclaration => "FunctionDeclaration"
    case ArrowFunctionExpression => "ArrowFunctionExpression"
    case CallExpression => "CallExpression"
    case MemberExpression => "MemberExpression"
    case Identifier => "Identifier"
    case VariableDeclarator => "VariableDeclarator"
    case ObjectPattern => "ObjectPattern"
    case BlockStatement => "BlockStatement"
    case JSXElement => "JSXElement"
    case JSXOpeningElement => "JSXOpeningElement"
    case JSXAttribute => "JSXAttribute"
    case JSXExpressionContainer => "JSXExpressionContainer"
    case JSXIdentifier => "JSXIdentifier"
    case Other(name) => name
  }

  /** `Other` never carries the type string of a named kind. */
  predicate CanonicalKind(k: Kind) {
    k.Other? ==>
      k.typeName !in {"FunctionDeclaration", "ArrowFunctionExpression", "CallExpression", "MemberExpression",
        "Identifier", "VariableDeclarator", "ObjectPattern", "BlockStatement", "JSXElement",
        "JSXOpeningElement", "JSXAttribute", "JSXExpressionContainer", "JSXIdentifier"}
  }

  /** `type.startsWith('JSX')`: a node of the markup grammar. */
  predicate IsJSXType(k: Kind) {
    StartsWith(TypeName(k), "JSX")
  }

  /**
   * A property value: one node, an array of nodes (`null` holes of an array, which
   * no search enters, are left out), a string, or any other primitive.
   */
  datatype Value = Node(ref: nat) | NodeList(refs: seq<nat>) | Str(s: string) | Scalar

  datatype Field = Field(key: string, value: Value)

  datatype NodeRec = NodeRec(kind: Kind, fields: seq<Field>, parent: Option<nat>, start: nat, end: nat)

  type Tree = seq<NodeRec>

  /** The value refers to node `c`. */
  predicate Holds(v: Value, c: nat) {
    match v
    case Node(x) => x == c
    case NodeList(cs) => c in cs
    case _ => false
  }

  /** Every node the value refers to lies strictly between `lo` and `hi`. */
  predicate RefsBetween(v: Value, lo: nat, hi: nat)
    ensures RefsBetween(v, lo, hi) ==> forall c: nat :: Holds(v, c) ==> lo < c < hi
  {
    match v
    case Node(x) => lo < x < hi
    case NodeList(cs) => forall k :: 0 <= k < |cs| ==> lo < cs[k] < hi
    case _ => true
  }

  /**
   * Node `i` is well placed: its parent comes before it, every node it holds
   * comes after it, and its kind is canonical.
   */
  predicate NodeOk(t: Tree, i: nat)
    requires i < |t|
  {
    && (t[i].parent.Some? ==> t[i].parent.value < i)
    && (forall k :: 0 <= k < |t[i].fields| ==> RefsBetween(t[i].fields[k].value, i, |t|))
    && CanonicalKind(t[i].kind)
  }

  /** A finite tree in pre-order: parent links point back, child links point forward. */
  predicate ValidTree(t: Tree) {
    forall i :: 0 <= i < |t| ==> NodeOk(t, i)
  }

  /** Every node's range lies inside the source text. */
  predicate RangesIn(t: Tree, src: string) {
    forall i :: 0 <= i < |t| ==> t[i].start <= t[i].end <= |src|
  }

  /** The value of the first property named `key`, if there is one. */
  function Lookup(fs: seq<Field>, key: string): (r: Option<Value>)
    ensures r.Some? ==> exists k :: 0 <= k < |fs| && fs[k] == Field(key, r.value)
    ensures r.None? ==> forall k :: 0 <= k < |fs| ==> fs[k].key != key
  {
    if fs == [] then None
    else if fs[0].key == key then Some(fs[0].value)
    else
      var r := Lookup(fs[1..], key);
      assert r.Some? ==> exists k :: 0 <= k < |fs[1..]| && fs[1..][k] == Field(key, r.value);
      r
  }

  /** `node[key]` when it holds a node. */
  function RefField(t: Tree, i: nat, key: string): (r: Option<nat>)
    requires ValidTree(t) && i < |t|
    ensures r.Some? ==> i < r.value < |t|
  {
    match Lookup(t[i].fields, key)
    case Some(Node(c)) =>
      assert NodeOk(t, i);
      assert Holds(Node(c), c);
      Some(c)
    case _ => None
  }

  /** `node?.[key]` when it holds a node. */
  function RefFieldOf(t: Tree, n: Option<nat>, key: string): (r: Option<nat>)
    requires ValidTree(t) && (n.Some? ==> n.value < |t|)
    ensures r.Some? ==> n.Some? && n.value < r.value < |t|
  {
    if n.Some? then RefField(t, n.value, key) else None
  }

  /** `node[key]` when it holds an array of nodes; absent, it reads as empty. */
  function ListField(t: Tree, i: nat, key: string): (r: seq<nat>)
    requires ValidTree(t) && i < |t|
    ensures forall k :: 0 <= k < |r| ==> i < r[k] < |t|
  {
    match Lookup(t[i].fields, key)
    case Some(NodeList(cs)) =>
      assert NodeOk(t, i);
      assert forall k :: 0 <= k < |cs| ==> Holds(NodeList(cs), cs[k]);
      cs
    case _ => []
  }

  /** `node?.[key]` when it holds a string. */
  function StrFieldOf(t: Tree, n: Option<nat>, key: string): Option<string>
    requires n.Some? ==> n.value < |t|
  {
    if n.None? then None
    else match Lookup(t[n.value].fields, key)
      case Some(Str(s)) => Some(s)
      case _ => None
  }

  /** `node?.name` as a string: the name of an `Identifier` or a `JSXIdentifier`. */
  function NameOf(t: Tree, n: Option<nat>): Option<string>
    requires n.Some? ==> n.value < |t|
  {
    StrFieldOf(t, n, "name")
  }

  /** `node.parent`. */
  function Parent(t: Tree, i: nat): (r: Option<nat>)
    requires ValidTree(t) && i < |t|
    ensures r.Some? ==> r.value < i
  {
    assert NodeOk(t, i);
    t[i].parent
  }

  /** `node?.parent`. */
  function ParentOf(t: Tree, n: Option<nat>): (r: Option<nat>)
    requires ValidTree(t) && (n.Some? ==> n.value < |t|)
    ensures r.Some? ==> n.Some? && r.value < n.value
  {
    if n.Some? then Parent(t, n.value) else None
  }

  /** `node?.type === k`. */
  predicate KindIs(t: Tree, n: Option<nat>, k: Kind)
    requires n.Some? ==> n.value < |t|
  {
    n.Some? && t[n.value].kind == k
  }

  /** `sourceCode.getText(node)`. */
  function Text(t: Tree, src: string, i: nat): (s: string)
    requires RangesIn(t, src) && i < |t|
    ensures |s| == t[i].end - t[i].start
  {
    src[t[i].start..t[i].end]
  }
}
