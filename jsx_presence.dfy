/**
 * The markup detector `hasJSXInNode`: a depth-first search through every
 * property of a node except `parent`, `range` and `loc`, answering true at the
 * first node whose type starts with "JSX".  The search is written the way the
 * source runs it (left to right, stopping at the first hit) and is proved equal
 * to two reference definitions: a one-level "some child contains markup", and
 * "some descent path from the node ends at a markup node".
 */
module JsxPresence {
  import opened Wrappers
  import opened SyntaxTree

  /** The keys the search skips. */
  predicate IsMetaKey(key: string) {
    key == "parent" || key == "range" || key == "loc"
  }

  /** Every node the properties `fs` refer to comes after `i` in the arena. */
  ghost predicate FieldsAfter(t: Tree, i: nat, fs: seq<Field>) {
    forall k :: 0 <= k < |fs| ==> RefsBetween(fs[k].value, i, |t|)
  }

  /** `hasJSXInNode(astNode)`; an absent node has no markup. */
  predicate HasJSXInNode(t: Tree, n: Option<nat>)
    requires ValidTree(t) && (n.Some? ==> n.value < |t|)
  {
    n.Some? && HasJSXAt(t, n.value)
  }

  /** The search from node `i`: its own type first, then its properties in order. */
  predicate HasJSXAt(t: Tree, i: nat)
    requires ValidTree(t) && i < |t|
    decreases |t| - i, 2
  {
    IsJSXType(t[i].kind) || (assert NodeOk(t, i); ScanFields(t, i, t[i].fields))
  }

  /** The `for...in` loop over the properties `fs` of node `i`. */
  predicate ScanFields(t: Tree, i: nat, fs: seq<Field>)
    requires ValidTree(t) && i < |t| && FieldsAfter(t, i, fs)
    decreases |t| - i, 1, |fs|
  {
    if fs == [] then false
    else if IsMetaKey(fs[0].key) then ScanFields(t, i, fs[1..])
    else
      assert RefsBetween(fs[0].value, i, |t|);
      match fs[0].value
      case Node(c) => HasJSXAt(t, c) || ScanFields(t, i, fs[1..])
      case NodeList(cs) => ScanItems(t, i, cs) || ScanFields(t, i, fs[1..])
      case _ => ScanFields(t, i, fs[1..])
  }

  /** The `for...of` loop over the array items `cs` of a property of node `i`. */
  predicate ScanItems(t: Tree, i: nat, cs: seq<nat>)
    requires ValidTree(t) && i < |t| && forall k :: 0 <= k < |cs| ==> i < cs[k] < |t|
    decreases |t| - i, 0, |cs|
  {
    cs != [] && (HasJSXAt(t, cs[0]) || ScanItems(t, i, cs[1..]))
  }

  /** Node `c` is reached from node `i` through a property the search visits. */
  ghost predicate ChildOf(t: Tree, i: nat, c: nat)
    requires i < |t|
  {
    exists k :: 0 <= k < |t[i].fields| && !IsMetaKey(t[i].fields[k].key) && Holds(t[i].fields[k].value, c)
  }

  /** Some child of `i` contains markup. */
  ghost predicate SomeChildHasJSX(t: Tree, i: nat)
    requires ValidTree(t) && i < |t|
  {
    exists c: nat :: c < |t| && ChildOf(t, i, c) && HasJSXAt(t, c)
  }

  lemma ChildAfter(t: Tree, i: nat, c: nat)
    requires ValidTree(t) && i < |t| && ChildOf(t, i, c)
    ensures i < c < |t|
  {
    var k :| 0 <= k < |t[i].fields| && !IsMetaKey(t[i].fields[k].key) && Holds(t[i].fields[k].value, c);
    assert NodeOk(t, i);
    assert RefsBetween(t[i].fields[k].value, i, |t|);
  }

  /** The item loop answers whether some item contains markup. */
  lemma {:induction false} ScanItemsExists(t: Tree, i: nat, cs: seq<nat>)
    requires ValidTree(t) && i < |t| && forall k :: 0 <= k < |cs| ==> i < cs[k] < |t|
    ensures ScanItems(t, i, cs) <==> exists j :: 0 <= j < |cs| && HasJSXAt(t, cs[j])
  {
    if cs != [] {
      ScanItemsExists(t, i, cs[1..]);
      if ScanItems(t, i, cs[1..]) {
        var j :| 0 <= j < |cs[1..]| && HasJSXAt(t, cs[1..][j]);
        assert HasJSXAt(t, cs[j + 1]);
      }
      if j :| 0 <= j < |cs| && HasJSXAt(t, cs[j]) {
        if j > 0 {
          assert cs[1..][j - 1] == cs[j];
        }
      }
    }
  }

  /** Property `k` of `fs` is visited and holds node `c`, which contains markup. */
  ghost predicate VisitedHit(t: Tree, fs: seq<Field>, k: int, c: nat)
    requires ValidTree(t)
  {
    0 <= k < |fs| && !IsMetaKey(fs[k].key) && Holds(fs[k].value, c) && c < |t| && HasJSXAt(t, c)
  }

  /** The property loop answers whether some visited property reaches markup. */
  lemma ScanFieldsExists(t: Tree, i: nat, fs: seq<Field>)
    requires ValidTree(t) && i < |t| && FieldsAfter(t, i, fs)
    ensures ScanFields(t, i, fs) <==> exists k, c: nat :: VisitedHit(t, fs, k, c)
  {
    if ScanFields(t, i, fs) {
      ScanFieldsFinds(t, i, fs);
    }
    if k, c: nat :| VisitedHit(t, fs, k, c) {
      HitMakesScanSucceed(t, i, fs, k, c);
    }
  }

  /** A successful property loop has a visited property reaching markup. */
  lemma {:induction false} ScanFieldsFinds(t: Tree, i: nat, fs: seq<Field>)
    requires ValidTree(t) && i < |t| && FieldsAfter(t, i, fs) && ScanFields(t, i, fs)
    ensures exists k, c: nat :: VisitedHit(t, fs, k, c)
  {
    var tail := fs[1..];
    assert RefsBetween(fs[0].value, i, |t|);
    if !IsMetaKey(fs[0].key) && fs[0].value.Node? && HasJSXAt(t, fs[0].value.ref) {
      assert VisitedHit(t, fs, 0, fs[0].value.ref);
    } else if !IsMetaKey(fs[0].key) && fs[0].value.NodeList? && ScanItems(t, i, fs[0].value.refs) {
      var cs := fs[0].value.refs;
      ScanItemsExists(t, i, cs);
      var j :| 0 <= j < |cs| && HasJSXAt(t, cs[j]);
      assert VisitedHit(t, fs, 0, cs[j]);
    } else {
      assert FieldsAfter(t, i, tail);
      assert ScanFields(t, i, tail);
      ScanFieldsFinds(t, i, tail);
      var k, c: nat :| VisitedHit(t, tail, k, c);
      assert fs[k + 1] == tail[k];
      assert VisitedHit(t, fs, k + 1, c);
    }
  }

  /** A visited property reaching markup makes the property loop succeed. */
  lemma {:induction false} HitMakesScanSucceed(t: Tree, i: nat, fs: seq<Field>, k: nat, c: nat)
    requires ValidTree(t) && i < |t| && FieldsAfter(t, i, fs) && VisitedHit(t, fs, k, c)
    ensures ScanFields(t, i, fs)
    decreases k
  {
    assert RefsBetween(fs[0].value, i, |t|);
    var tail := fs[1..];
    if k == 0 {
      if fs[0].value.NodeList? {
        var cs := fs[0].value.refs;
        ScanItemsExists(t, i, cs);
        var j :| 0 <= j < |cs| && cs[j] == c;
        assert HasJSXAt(t, cs[j]);
      }
    } else {
      assert tail[k - 1] == fs[k];
      assert FieldsAfter(t, i, tail);
      HitMakesScanSucceed(t, i, tail, k - 1, c);
    }
  }

  /**
   * The search from `i` succeeds iff `i` is itself a markup node or some child
   * reached through a property other than `parent`, `range` and `loc` contains
   * markup; children of a markup node are never needed.
   */
  lemma HasJSXAtChildren(t: Tree, i: nat)
    requires ValidTree(t) && i < |t|
    ensures HasJSXAt(t, i) <==> IsJSXType(t[i].kind) || SomeChildHasJSX(t, i)
  {
    assert NodeOk(t, i);
    var fs := t[i].fields;
    ScanFieldsExists(t, i, fs);
    if ScanFields(t, i, fs) {
      var k, c: nat :| VisitedHit(t, fs, k, c);
      assert ChildOf(t, i, c);
    }
    if SomeChildHasJSX(t, i) {
      var c: nat :| c < |t| && ChildOf(t, i, c) && HasJSXAt(t, c);
      var k :| 0 <= k < |fs| && !IsMetaKey(fs[k].key) && Holds(fs[k].value, c);
      assert VisitedHit(t, fs, k, c);
    }
  }

  /** `p` walks from parent to child through visited properties. */
  ghost predicate IsDescent(t: Tree, p: seq<nat>) {
    && |p| >= 1
    && (forall k :: 0 <= k < |p| ==> p[k] < |t|)
    && (forall k :: 0 <= k < |p| - 1 ==> ChildOf(t, p[k], p[k + 1]))
  }

  /** Some descent from `i`, through nodes of any type, ends at a markup node. */
  ghost predicate ReachesJSX(t: Tree, i: nat) {
    exists p :: IsDescent(t, p) && p[0] == i && IsJSXType(t[p[|p| - 1]].kind)
  }

  /** A step from `i` to the first node of a descent ending at markup gives a descent from `i` ending there. */
  lemma DescentCons(t: Tree, i: nat, q: seq<nat>)
    requires i < |t| && IsDescent(t, q) && ChildOf(t, i, q[0]) && IsJSXType(t[q[|q| - 1]].kind)
    ensures ReachesJSX(t, i)
  {
    var p := [i] + q;
    forall k | 0 <= k < |p| - 1 ensures ChildOf(t, p[k], p[k + 1]) {
      if k > 0 {
        assert p[k] == q[k - 1] && p[k + 1] == q[k];
      }
    }
    assert p[|p| - 1] == q[|q| - 1];
    assert IsDescent(t, p) && p[0] == i;
  }

  /** A markup node reaches markup by the descent holding only itself. */
  lemma DescentSelf(t: Tree, i: nat)
    requires i < |t| && IsJSXType(t[i].kind)
    ensures ReachesJSX(t, i)
  {
    assert IsDescent(t, [i]);
  }

  /** A successful search has a descent from `i` to a markup node as its witness. */
  lemma {:induction false} HasJSXReaches(t: Tree, i: nat)
    requires ValidTree(t) && i < |t| && HasJSXAt(t, i)
    ensures ReachesJSX(t, i)
    decreases |t| - i
  {
    HasJSXAtChildren(t, i);
    if IsJSXType(t[i].kind) {
      DescentSelf(t, i);
    } else {
      var c: nat :| c < |t| && ChildOf(t, i, c) && HasJSXAt(t, c);
      ChildAfter(t, i, c);
      HasJSXReaches(t, c);
      var q :| IsDescent(t, q) && q[0] == c && IsJSXType(t[q[|q| - 1]].kind);
      DescentCons(t, i, q);
    }
  }

  /** Any descent from `i` ending at a markup node makes the search succeed. */
  lemma {:induction false} ReachesHasJSX(t: Tree, i: nat, p: seq<nat>)
    requires ValidTree(t) && i < |t|
    requires IsDescent(t, p) && p[0] == i && IsJSXType(t[p[|p| - 1]].kind)
    ensures HasJSXAt(t, i)
    decreases |p|
  {
    if |p| > 1 {
      var c := p[1];
      assert ChildOf(t, i, c);
      ChildAfter(t, i, c);
      var q := p[1..];
      assert forall k :: 0 <= k < |q| - 1 ==> ChildOf(t, q[k], q[k + 1]) by {
        forall k | 0 <= k < |q| - 1 ensures ChildOf(t, q[k], q[k + 1]) {
          assert q[k] == p[k + 1] && q[k + 1] == p[k + 2];
        }
      }
      assert IsDescent(t, q);
      ReachesHasJSX(t, c, q);
      HasJSXAtChildren(t, i);
    }
  }

  /**
   * The search succeeds iff markup is reachable: it does not stop at nested
   * functions, so markup inside an inner callback counts for the outer body.
   */
  lemma HasJSXIffReachable(t: Tree, i: nat)
    requires ValidTree(t) && i < |t|
    ensures HasJSXAt(t, i) <==> ReachesJSX(t, i)
  {
    if HasJSXAt(t, i) {
      HasJSXReaches(t, i);
    }
    if ReachesJSX(t, i) {
      var p :| IsDescent(t, p) && p[0] == i && IsJSXType(t[p[|p| - 1]].kind);
      ReachesHasJSX(t, i, p);
    }
  }
}
