/**
 * The component classifier `isReactComponent`.  The rules apply in order:
 * a declared name starting with a lower-case letter rules the function out;
 * an arrow passed directly to a call is a component iff the callee is a
 * wrapper; an arrow with a declarator ancestor initialised by a wrapper call
 * is a component; otherwise the function is a component iff its body
 * contains markup.
 */
module ComponentClassifier {
  import opened Wrappers
  import opened SyntaxTree
  import opened JsxPresence
  import opened WrapperDetector

  /**
   * The declared name: a declaration's own `id`, the variable an arrow is
   * assigned to, or the variable a call taking the arrow is assigned to.
   */
  function DeclaredName(t: Tree, i: nat): (name: Option<string>)
    requires ValidTree(t) && i < |t|
    ensures name.Some? ==> t[i].kind == FunctionDeclaration || t[i].kind == ArrowFunctionExpression
    ensures t[i].kind == FunctionDeclaration ==> name == NameOf(t, RefField(t, i, "id"))
    ensures t[i].kind == ArrowFunctionExpression && KindIs(t, Parent(t, i), VariableDeclarator) ==>
      name == NameOf(t, RefFieldOf(t, Parent(t, i), "id"))
    ensures && t[i].kind == ArrowFunctionExpression && KindIs(t, Parent(t, i), CallExpression)
            && KindIs(t, ParentOf(t, Parent(t, i)), VariableDeclarator) ==>
      name == NameOf(t, RefFieldOf(t, ParentOf(t, Parent(t, i)), "id"))
    ensures && t[i].kind == ArrowFunctionExpression && !KindIs(t, Parent(t, i), VariableDeclarator)
            && !(KindIs(t, Parent(t, i), CallExpression) && KindIs(t, ParentOf(t, Parent(t, i)), VariableDeclarator)) ==>
      name.None?
  {
    if t[i].kind == FunctionDeclaration then NameOf(t, RefField(t, i, "id"))
    else if t[i].kind == ArrowFunctionExpression then
      var p := Parent(t, i);
      if KindIs(t, p, VariableDeclarator) then NameOf(t, RefFieldOf(t, p, "id"))
      else if KindIs(t, p, CallExpression) && KindIs(t, ParentOf(t, p), VariableDeclarator) then
        NameOf(t, RefFieldOf(t, ParentOf(t, p), "id"))
      else None
    else None
  }

  /** `/^[a-z]/.test(name)`. */
  predicate StartsLowercase(name: string) {
    |name| > 0 && 'a' <= name[0] <= 'z'
  }

  /** The arrow `i` is passed to (or called as) a call expression. */
  predicate ArrowInCall(t: Tree, i: nat)
    requires ValidTree(t) && i < |t|
  {
    t[i].kind == ArrowFunctionExpression && KindIs(t, Parent(t, i), CallExpression)
  }

  /** What `isReactComponent(node)` answers. */
  predicate IsComponent(t: Tree, i: nat)
    requires ValidTree(t) && i < |t|
  {
    var name := DeclaredName(t, i);
    if name.Some? && StartsLowercase(name.value) then false
    else if ArrowInCall(t, i) then CallWrapper(t, Parent(t, i)).Some?
    else if t[i].kind == ArrowFunctionExpression && AncestorWrapper(t, Parent(t, i)).Some? then true
    else HasJSXInNode(t, RefField(t, i, "body"))
  }

  /** `isReactComponent(node)`, with its step-by-step name and its ancestor loop. */
  method IsReactComponent(t: Tree, i: nat) returns (r: bool)
    requires ValidTree(t) && i < |t|
    ensures r == IsComponent(t, i)
  {
    var name: Option<string> := None;
    if t[i].kind == FunctionDeclaration {
      name := NameOf(t, RefField(t, i, "id"));
    } else if t[i].kind == ArrowFunctionExpression {
      var p := Parent(t, i);
      if KindIs(t, p, VariableDeclarator) {
        name := NameOf(t, RefFieldOf(t, p, "id"));
      } else if KindIs(t, p, CallExpression) && KindIs(t, ParentOf(t, p), VariableDeclarator) {
        name := NameOf(t, RefFieldOf(t, ParentOf(t, p), "id"));
      }
    }
    assert name == DeclaredName(t, i);

    if name.Some? && StartsLowercase(name.value) {
      return false;
    }

    if t[i].kind == ArrowFunctionExpression && KindIs(t, Parent(t, i), CallExpression) {
      var callee := RefFieldOf(t, Parent(t, i), "callee");
      var wrapper := CalleeWrapper(t, callee);
      return wrapper.Some?;
    }

    if t[i].kind == ArrowFunctionExpression {
      var found := WalkForWrapper(t, Parent(t, i));
      if found.Some? {
        return true;
      }
    }

    r := HasJSXInNode(t, RefField(t, i, "body"));
  }

  /** A lower-case declared name overrides every wrapper and every markup check. */
  lemma LowercaseNameIsNotComponent(t: Tree, i: nat)
    requires ValidTree(t) && i < |t|
    requires DeclaredName(t, i).Some? && StartsLowercase(DeclaredName(t, i).value)
    ensures !IsComponent(t, i)
  {
  }

  /**
   * An arrow passed to a call, without a lower-case name, is a component iff the
   * callee is `memo`, `forwardRef`, `React.memo` or `React.forwardRef`; any other
   * callee rules it out however much markup its body holds.
   */
  lemma DirectCallRule(t: Tree, i: nat)
    requires ValidTree(t) && i < |t| && ArrowInCall(t, i)
    requires !(DeclaredName(t, i).Some? && StartsLowercase(DeclaredName(t, i).value))
    ensures IsComponent(t, i) <==> DirectWrapper(t, i).Some?
    ensures IsComponent(t, i) ==> HocInfoOf(t, i).Some? && HocInfoOf(t, i).value.wrapper in WrapperNames
  {
  }

  /**
   * Any other arrow, without a lower-case name, is a component iff `getHOCInfo`
   * finds a wrapper or its body contains markup.
   */
  lemma ArrowWalkRule(t: Tree, i: nat)
    requires ValidTree(t) && i < |t|
    requires t[i].kind == ArrowFunctionExpression && !ArrowInCall(t, i)
    requires !(DeclaredName(t, i).Some? && StartsLowercase(DeclaredName(t, i).value))
    ensures IsComponent(t, i) <==> HocInfoOf(t, i).Some? || HasJSXInNode(t, RefField(t, i, "body"))
    ensures HocInfoOf(t, i) == AncestorWrapper(t, Parent(t, i))
  {
  }

  /**
   * A declaration skips both wrapper checks: it is a component iff its name is
   * absent or not lower-case and its body contains markup.
   */
  lemma FunctionDeclarationRule(t: Tree, i: nat)
    requires ValidTree(t) && i < |t| && t[i].kind == FunctionDeclaration
    ensures var name := NameOf(t, RefField(t, i, "id"));
      IsComponent(t, i) <==>
        !(name.Some? && StartsLowercase(name.value)) && HasJSXInNode(t, RefField(t, i, "body"))
  {
  }
}
