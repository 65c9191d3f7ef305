/**
 * The wrapper detector `getHOCInfo`: is a function the argument of `memo`,
 * `forwardRef`, `React.memo` or `React.forwardRef`, either directly or through
 * a `VariableDeclarator` ancestor whose initializer is such a call?  The
 * ancestor walk is a `while` loop over parent links, proved against the
 * recursive definition `AncestorWrapper`, and `AncestorWrapper` is proved to
 * pick the nearest matching declarator on the ancestor chain.
 */
module WrapperDetector {
  import opened Wrappers
  import opened SyntaxTree

  /** The recognised wrapper names, matched exactly and case-sensitively. */
  const WrapperNames: seq<string> := ["memo", "forwardRef"]

  /** The namespace object the qualified form must use. */
  const ReactNamespace: string := "React"

  /** `{ type, isReactNamed }`: which wrapper, and whether it was written `React.<name>`. */
  datatype HocInfo = HocInfo(wrapper: string, isReactNamed: bool)

  /**
   * The callee test shared by every check: a bare identifier in the wrapper
   * list, or a member expression `React.<name>` with the name in the list.
   */
  function CalleeWrapper(t: Tree, callee: Option<nat>): (r: Option<HocInfo>)
    requires ValidTree(t) && (callee.Some? ==> callee.value < |t|)
    ensures r.Some? ==> r.value.wrapper in WrapperNames
    ensures r.Some? && !r.value.isReactNamed ==>
      KindIs(t, callee, Identifier) && NameOf(t, callee) == Some(r.value.wrapper)
    ensures r.Some? && r.value.isReactNamed ==>
      && KindIs(t, callee, MemberExpression)
      && NameOf(t, RefFieldOf(t, callee, "object")) == Some(ReactNamespace)
      && NameOf(t, RefFieldOf(t, callee, "property")) == Some(r.value.wrapper)
    ensures KindIs(t, callee, Identifier) && NameOf(t, callee).Some? && NameOf(t, callee).value in WrapperNames ==>
      r == Some(HocInfo(NameOf(t, callee).value, false))
    ensures && KindIs(t, callee, MemberExpression)
            && NameOf(t, RefFieldOf(t, callee, "object")) == Some(ReactNamespace)
            && NameOf(t, RefFieldOf(t, callee, "property")).Some?
            && NameOf(t, RefFieldOf(t, callee, "property")).value in WrapperNames ==>
      r == Some(HocInfo(NameOf(t, RefFieldOf(t, callee, "property")).value, true))
  {
    if callee.None? then None
    else if KindIs(t, callee, Identifier) && NameOf(t, callee).Some? && NameOf(t, callee).value in WrapperNames then
      Some(HocInfo(NameOf(t, callee).value, false))
    else if KindIs(t, callee, MemberExpression) then
      var obj := RefFieldOf(t, callee, "object");
      var prop := RefFieldOf(t, callee, "property");
      if obj.Some? && prop.Some? && NameOf(t, obj) == Some(ReactNamespace)
         && NameOf(t, prop).Some? && NameOf(t, prop).value in WrapperNames
      then Some(HocInfo(NameOf(t, prop).value, true))
      else None
    else None
  }

  /** Node `n` is a call whose callee is a wrapper. */
  function CallWrapper(t: Tree, n: Option<nat>): Option<HocInfo>
    requires ValidTree(t) && (n.Some? ==> n.value < |t|)
  {
    if KindIs(t, n, CallExpression) then CalleeWrapper(t, RefFieldOf(t, n, "callee")) else None
  }

  /** The direct check: the function's parent is a wrapper call. */
  function DirectWrapper(t: Tree, i: nat): Option<HocInfo>
    requires ValidTree(t) && i < |t|
  {
    CallWrapper(t, Parent(t, i))
  }

  /** One step of the walk: `k` is a `VariableDeclarator` whose `init` is a wrapper call. */
  function DeclaratorWrapper(t: Tree, k: nat): Option<HocInfo>
    requires ValidTree(t) && k < |t|
  {
    if t[k].kind == VariableDeclarator then CallWrapper(t, RefField(t, k, "init")) else None
  }

  /** The walk from `cur` up to the root: the first declarator step that matches. */
  function AncestorWrapper(t: Tree, cur: Option<nat>): Option<HocInfo>
    requires ValidTree(t) && (cur.Some? ==> cur.value < |t|)
    decreases if cur.Some? then cur.value + 1 else 0
  {
    if cur.None? then None
    else if DeclaratorWrapper(t, cur.value).Some? then DeclaratorWrapper(t, cur.value)
    else AncestorWrapper(t, Parent(t, cur.value))
  }

  /** What `getHOCInfo(node)` returns: the direct match, else the walk from the parent. */
  function HocInfoOf(t: Tree, i: nat): Option<HocInfo>
    requires ValidTree(t) && i < |t|
  {
    if DirectWrapper(t, i).Some? then DirectWrapper(t, i) else AncestorWrapper(t, Parent(t, i))
  }

  /** The `while (current)` loop of the ancestor walk. */
  method WalkForWrapper(t: Tree, start: Option<nat>) returns (r: Option<HocInfo>)
    requires ValidTree(t) && (start.Some? ==> start.value < |t|)
    ensures r == AncestorWrapper(t, start)
  {
    var current: Option<nat> := start;
    while current.Some?
      invariant current.Some? ==> current.value < |t|
      invariant AncestorWrapper(t, current) == AncestorWrapper(t, start)
      decreases if current.Some? then current.value + 1 else 0
    {
      var found := DeclaratorWrapper(t, current.value);
      if found.Some? {
        return found;
      }
      current := Parent(t, current.value);
    }
    return None;
  }

  /** `getHOCInfo(node)`. */
  method GetHOCInfo(t: Tree, i: nat) returns (r: Option<HocInfo>)
    requires ValidTree(t) && i < |t|
    ensures r == HocInfoOf(t, i)
  {
    var direct := DirectWrapper(t, i);
    if direct.Some? {
      return direct;
    }
    r := WalkForWrapper(t, Parent(t, i));
  }

  /** The ancestor chain from `cur` up to the root, nearest first. */
  function Ancestors(t: Tree, cur: Option<nat>): (chain: seq<nat>)
    requires ValidTree(t) && (cur.Some? ==> cur.value < |t|)
    ensures forall k :: 0 <= k < |chain| ==> chain[k] < |t|
    decreases if cur.Some? then cur.value + 1 else 0
  {
    if cur.None? then [] else [cur.value] + Ancestors(t, Parent(t, cur.value))
  }

  /**
   * The walk answers the nearest declarator on the chain whose initializer is
   * a wrapper call, skipping every declarator that does not match, and answers
   * nothing iff no declarator on the chain matches.
   */
  lemma AncestorWrapperNearest(t: Tree, cur: Option<nat>)
    requires ValidTree(t) && (cur.Some? ==> cur.value < |t|)
    ensures var chain := Ancestors(t, cur);
      AncestorWrapper(t, cur).None? <==>
        forall k :: 0 <= k < |chain| ==> DeclaratorWrapper(t, chain[k]).None?
    ensures var chain := Ancestors(t, cur);
      AncestorWrapper(t, cur).Some? ==>
        exists j :: 0 <= j < |chain| && DeclaratorWrapper(t, chain[j]) == AncestorWrapper(t, cur)
          && forall k :: 0 <= k < j ==> DeclaratorWrapper(t, chain[k]).None?
  {
    AncestorWrapperNoneIff(t, cur);
    if AncestorWrapper(t, cur).Some? {
      AncestorWrapperFirst(t, cur);
    }
  }

  /** The walk answers nothing iff no declarator on the chain matches. */
  lemma {:induction false} AncestorWrapperNoneIff(t: Tree, cur: Option<nat>)
    requires ValidTree(t) && (cur.Some? ==> cur.value < |t|)
    ensures var chain := Ancestors(t, cur);
      AncestorWrapper(t, cur).None? <==>
        forall k :: 0 <= k < |chain| ==> DeclaratorWrapper(t, chain[k]).None?
    decreases if cur.Some? then cur.value + 1 else 0
  {
    if cur.Some? {
      if DeclaratorWrapper(t, cur.value).Some? {
        NearestIsHere(t, cur.value);
      } else {
        var up := Parent(t, cur.value);
        SkipNonMatching(t, cur.value);
        AncestorWrapperNoneIff(t, up);
        var chain := Ancestors(t, cur);
        var rest := Ancestors(t, up);
        assert forall k :: 1 <= k < |chain| ==> chain[k] == rest[k - 1];
        if AncestorWrapper(t, up).None? {
          assert forall k :: 0 <= k < |chain| ==> DeclaratorWrapper(t, chain[k]).None?;
        } else {
          var k :| 0 <= k < |rest| && DeclaratorWrapper(t, rest[k]).Some?;
          assert chain[k + 1] == rest[k];
        }
      }
    }
  }

  /** A walk that answers finds the first matching declarator on the chain. */
  lemma {:induction false} AncestorWrapperFirst(t: Tree, cur: Option<nat>)
    requires ValidTree(t) && (cur.Some? ==> cur.value < |t|) && AncestorWrapper(t, cur).Some?
    ensures var chain := Ancestors(t, cur);
      exists j :: 0 <= j < |chain| && DeclaratorWrapper(t, chain[j]) == AncestorWrapper(t, cur)
        && forall k :: 0 <= k < j ==> DeclaratorWrapper(t, chain[k]).None?
    decreases if cur.Some? then cur.value + 1 else 0
  {
    var c := cur.value;
    var chain := Ancestors(t, cur);
    if DeclaratorWrapper(t, c).Some? {
      NearestIsHere(t, c);
      assert DeclaratorWrapper(t, chain[0]) == AncestorWrapper(t, cur);
    } else {
      var up := Parent(t, c);
      SkipNonMatching(t, c);
      AncestorWrapperFirst(t, up);
      var rest := Ancestors(t, up);
      var j :| 0 <= j < |rest| && DeclaratorWrapper(t, rest[j]) == AncestorWrapper(t, up)
        && forall k :: 0 <= k < j ==> DeclaratorWrapper(t, rest[k]).None?;
      FirstMatchShifts(t, c, rest, j);
      assert chain == [c] + rest;
      assert DeclaratorWrapper(t, chain[j + 1]) == AncestorWrapper(t, cur);
    }
  }

  /** Putting a declarator that does not match in front of a chain moves its first match one place on. */
  lemma FirstMatchShifts(t: Tree, c: nat, rest: seq<nat>, j: nat)
    requires ValidTree(t) && c < |t| && forall k :: 0 <= k < |rest| ==> rest[k] < |t|
    requires DeclaratorWrapper(t, c).None?
    requires j < |rest| && forall k :: 0 <= k < j ==> DeclaratorWrapper(t, rest[k]).None?
    ensures var chain := [c] + rest;
      && chain[j + 1] == rest[j]
      && forall k :: 0 <= k < j + 1 ==> DeclaratorWrapper(t, chain[k]).None?
  {
    var chain := [c] + rest;
    forall k | 0 <= k < j + 1
      ensures DeclaratorWrapper(t, chain[k]).None?
    {
      if k > 0 {
        assert chain[k] == rest[k - 1];
      }
    }
  }

  /** A declarator that does not match passes the walk on to its parent. */
  lemma SkipNonMatching(t: Tree, c: nat)
    requires ValidTree(t) && c < |t| && DeclaratorWrapper(t, c).None?
    ensures AncestorWrapper(t, Some(c)) == AncestorWrapper(t, Parent(t, c))
    ensures Ancestors(t, Some(c)) == [c] + Ancestors(t, Parent(t, c))
  {
  }

  /** A matching declarator answers the walk from itself, as the first element of its chain. */
  lemma NearestIsHere(t: Tree, c: nat)
    requires ValidTree(t) && c < |t| && DeclaratorWrapper(t, c).Some?
    ensures var chain := Ancestors(t, Some(c));
      && AncestorWrapper(t, Some(c)) == DeclaratorWrapper(t, c)
      && |chain| > 0 && chain[0] == c
  {
  }

  /**
   * `getHOCInfo` answers null iff neither the parent call nor any declarator
   * ancestor matches; when it answers, the wrapper is `memo` or `forwardRef`.
   */
  lemma HocInfoNullIff(t: Tree, i: nat)
    requires ValidTree(t) && i < |t|
    ensures var chain := Ancestors(t, Parent(t, i));
      HocInfoOf(t, i).None? <==>
        DirectWrapper(t, i).None? && forall k :: 0 <= k < |chain| ==> DeclaratorWrapper(t, chain[k]).None?
    ensures HocInfoOf(t, i).Some? ==> HocInfoOf(t, i).value.wrapper in {"memo", "forwardRef"}
  {
    AncestorWrapperNearest(t, Parent(t, i));
    if HocInfoOf(t, i).Some? {
      var h := HocInfoOf(t, i).value;
      if DirectWrapper(t, i).None? {
        var chain := Ancestors(t, Parent(t, i));
        var j :| 0 <= j < |chain| && DeclaratorWrapper(t, chain[j]) == AncestorWrapper(t, Parent(t, i))
          && forall k :: 0 <= k < j ==> DeclaratorWrapper(t, chain[k]).None?;
        assert h.wrapper in WrapperNames;
      }
      assert h.wrapper in WrapperNames;
    }
  }
}
