/**
 * The rule `force-destructure-props`: its two visitors.  An arrow function
 * that is a component, is not an exempt render prop, and takes one or two
 * parameters the first of which is an object pattern gets one problem on that
 * pattern; a function declaration likewise, without the exemption.  Anything
 * else gets none.
 */
module ForceDestructureProps {
  import opened Wrappers
  import opened SourceText
  import opened SyntaxTree
  import opened ComponentClassifier
  import opened RenderPropExemption
  import opened FixSynthesis
  import opened ProblemReport

  /** The parameter a visitor reports: the first of one or two, when it is an object pattern. */
  function ReportTarget(t: Tree, i: nat): (r: Option<nat>)
    requires ValidTree(t) && i < |t|
    ensures r.Some? ==> r.value in ListField(t, i, "params")
    ensures r.Some? ==> r.value == ListField(t, i, "params")[0] && t[r.value].kind == ObjectPattern
  {
    var params := ListField(t, i, "params");
    if (|params| == 1 || |params| == 2) && t[params[0]].kind == ObjectPattern then Some(params[0]) else None
  }

  /** The problem reported for parameter `p`, with the fix attached when it is not withheld. */
  function ReportFor(t: Tree, src: string, i: nat, p: nat): Report
    requires ValidTree(t) && i < |t| && FunctionLayout(t, src, i, p)
  {
    Report(p, NoDestructuringInParams, if CanAutofixAsWritten(t, src, i) then Some(FixEdits(t, src, i, p)) else None)
  }

  /** The problems the `ArrowFunctionExpression` visitor reports for node `i`. */
  function ArrowReports(t: Tree, src: string, i: nat): seq<Report>
    requires ValidTree(t) && i < |t| && FunctionShape(t, src, i)
  {
    if IsComponent(t, i) && !IsControllerRenderProp(t, i) && ReportTarget(t, i).Some? then
      [ReportFor(t, src, i, ReportTarget(t, i).value)]
    else []
  }

  /** The problems the `FunctionDeclaration` visitor reports for node `i`. */
  function DeclarationReports(t: Tree, src: string, i: nat): seq<Report>
    requires ValidTree(t) && i < |t| && FunctionShape(t, src, i)
  {
    if IsComponent(t, i) && ReportTarget(t, i).Some? then [ReportFor(t, src, i, ReportTarget(t, i).value)] else []
  }

  /** `ArrowFunctionExpression(node)`: the problems it reports, in order. */
  method VisitArrowFunction(t: Tree, src: string, i: nat) returns (reports: seq<Report>)
    requires ValidTree(t) && i < |t| && t[i].kind == ArrowFunctionExpression && FunctionShape(t, src, i)
    ensures reports == ArrowReports(t, src, i)
  {
    reports := [];
    var component := IsReactComponent(t, i);
    if component {
      if IsControllerRenderProp(t, i) {
        return;
      }
      var params := ListField(t, i, "params");
      if |params| == 1 {
        var param := params[0];
        if t[param].kind == ObjectPattern {
          var r := ReportIfDestructured(t, src, i, param);
          reports := reports + [r];
        }
      } else if |params| == 2 {
        var firstParam := params[0];
        if t[firstParam].kind == ObjectPattern {
          var r := ReportIfDestructured(t, src, i, firstParam);
          reports := reports + [r];
        }
      }
    }
  }

  /** `FunctionDeclaration(node)`: the problems it reports, in order. */
  method VisitFunctionDeclaration(t: Tree, src: string, i: nat) returns (reports: seq<Report>)
    requires ValidTree(t) && i < |t| && t[i].kind == FunctionDeclaration && FunctionShape(t, src, i)
    ensures reports == DeclarationReports(t, src, i)
  {
    reports := [];
    var component := IsReactComponent(t, i);
    if component {
      var params := ListField(t, i, "params");
      if |params| == 1 && t[params[0]].kind == ObjectPattern {
        var r := ReportIfDestructured(t, src, i, params[0]);
        reports := reports + [r];
      } else if |params| == 2 && t[params[0]].kind == ObjectPattern {
        var r := ReportIfDestructured(t, src, i, params[0]);
        reports := reports + [r];
      }
    }
  }

  /**
   * An arrow function gets a problem exactly when it is a component, is not an
   * exempt render prop, and has one or two parameters the first of which is an
   * object pattern; then it gets one, on that first parameter, with the rule's
   * message, carrying a fix unless the body is an object literal in parentheses.
   */
  lemma ArrowReportedIff(t: Tree, src: string, i: nat)
    requires ValidTree(t) && i < |t| && FunctionShape(t, src, i)
    ensures var params := ListField(t, i, "params");
      && |ArrowReports(t, src, i)| <= 1
      && (|ArrowReports(t, src, i)| == 1 <==>
            IsComponent(t, i) && !IsControllerRenderProp(t, i)
            && (|params| == 1 || |params| == 2) && t[params[0]].kind == ObjectPattern)
      && (|ArrowReports(t, src, i)| == 1 ==>
            && ArrowReports(t, src, i)[0].node == params[0]
            && ArrowReports(t, src, i)[0].messageId == NoDestructuringInParams
            && (ArrowReports(t, src, i)[0].fix.Some? <==> CanAutofixAsWritten(t, src, i)))
  {
  }

  /**
   * A declaration gets a problem exactly when it is a component with one or two
   * parameters the first of which is an object pattern; the render-prop
   * exemption plays no part, and a declaration's problem always carries a fix.
   */
  lemma DeclarationReportedIff(t: Tree, src: string, i: nat)
    requires ValidTree(t) && i < |t| && FunctionShape(t, src, i)
    ensures var params := ListField(t, i, "params");
      && |DeclarationReports(t, src, i)| <= 1
      && (|DeclarationReports(t, src, i)| == 1 <==>
            IsComponent(t, i) && (|params| == 1 || |params| == 2) && t[params[0]].kind == ObjectPattern)
      && (|DeclarationReports(t, src, i)| == 1 ==>
            && DeclarationReports(t, src, i)[0].node == params[0]
            && DeclarationReports(t, src, i)[0].messageId == NoDestructuringInParams
            && (t[i].kind == FunctionDeclaration ==> DeclarationReports(t, src, i)[0].fix.Some?))
  {
    if t[i].kind == FunctionDeclaration {
      BlockBodyAlwaysFixed(t, src, i);
    }
  }

  /** An exempt render prop is never reported, whatever its parameters. */
  lemma RenderPropNotReported(t: Tree, src: string, i: nat)
    requires ValidTree(t) && i < |t| && FunctionShape(t, src, i)
    requires IsControllerRenderProp(t, i)
    ensures ArrowReports(t, src, i) == []
  {
  }

  /** A function with no parameter, or with three or more, is never reported. */
  lemma ParameterCountOutOfRange(t: Tree, src: string, i: nat)
    requires ValidTree(t) && i < |t| && FunctionShape(t, src, i)
    requires |ListField(t, i, "params")| == 0 || |ListField(t, i, "params")| >= 3
    ensures ArrowReports(t, src, i) == [] && DeclarationReports(t, src, i) == []
  {
  }

  /**
   * A problem reported on the parameter `p` of an arrow function or a
   * declaration carries, when it carries a fix, two edits that do not overlap:
   * `props` in place of the pattern, then a body edit declaring the pattern
   * from `props`.
   */
  lemma ReportedFixIsWellFormed(t: Tree, src: string, i: nat, p: nat)
    requires ValidTree(t) && i < |t| && FunctionLayout(t, src, i, p)
    requires t[i].kind == ArrowFunctionExpression || t[i].kind == FunctionDeclaration
    ensures var r := ReportFor(t, src, i, p);
      r.fix.Some? ==>
        var fixes := r.fix.value;
        && |fixes| == 2 && !Overlap(fixes[0], fixes[1])
        && fixes[0] == TextEdit(t[p].start, t[p].end, "props" + AnnotationText(t, src, p))
        && exists j :: OccursAt(fixes[1].text, Declaration(DestructuringPattern(t, src, p)), j)
  {
    FixEditsDisjoint(t, src, i, p);
    BodyEditDeclaresPattern(t, src, i, p);
  }
}
