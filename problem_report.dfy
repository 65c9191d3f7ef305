/**
 * The reporter `reportIfDestructured`: one problem on the destructuring
 * parameter, with the autofix attached unless the fix would break the code.
 *
 * The code as written withholds the fix only for an object literal in
 * parentheses, `({ a }) => ({ ... })`.  Any other parenthesised expression
 * body that is not markup, such as `({ a }) => (a ? <A /> : <B />)`, gets the
 * fix that rewraps the expression between the parentheses, which reads back as
 * an object literal holding a statement.  `CanAutofixAsWritten` is that test,
 * and the reporter uses it; `CanAutofix` is the evidently intended test, which
 * also withholds the fix in that case.
 */
module ProblemReport {
  import opened Wrappers
  import opened SourceText
  import opened SyntaxTree
  import opened FixSynthesis

  /** The message id of the rule's one message. */
  const NoDestructuringInParams: string := "noDestructuringInParams"

  /** `context.report({ node, messageId, fix })`; the fix is absent when autofix is withheld. */
  datatype Report = Report(node: nat, messageId: string, fix: Option<seq<TextEdit>>)

  /** The arrow function `i` has an expression body, not a block. */
  predicate ExpressionBody(t: Tree, src: string, i: nat)
    requires ValidTree(t) && i < |t| && FunctionShape(t, src, i)
  {
    t[i].kind == ArrowFunctionExpression && t[RefField(t, i, "body").value].kind != BlockStatement
  }

  /** The text before the body ends with `(` and the body's text starts with `{`: an object literal in parentheses. */
  predicate ParenthesizedObject(full: string, body: string) {
    EndsWith(BeforeBody(full, body), "(") && StartsWith(body, "{")
  }

  /** The body is a parenthesised expression other than markup, which the fix would rewrap inside the parentheses. */
  predicate ParenthesizedRewrap(t: Tree, src: string, i: nat)
    requires ValidTree(t) && i < |t| && FunctionShape(t, src, i)
  {
    var b := RefField(t, i, "body").value;
    ExpressionBody(t, src, i) && !IsJSXType(t[b].kind) && HasParentheses(Text(t, src, i), Text(t, src, b))
  }

  /** `canAutofix` as written: false only for an object literal body in parentheses. */
  predicate CanAutofixAsWritten(t: Tree, src: string, i: nat)
    requires ValidTree(t) && i < |t| && FunctionShape(t, src, i)
  {
    var b := RefField(t, i, "body").value;
    !(ExpressionBody(t, src, i) && ParenthesizedObject(Text(t, src, i), Text(t, src, b)))
  }

  /** `canAutofix` as evidently intended: also false for every other body the fix would rewrap inside parentheses. */
  predicate CanAutofix(t: Tree, src: string, i: nat)
    requires ValidTree(t) && i < |t| && FunctionShape(t, src, i)
  {
    CanAutofixAsWritten(t, src, i) && !ParenthesizedRewrap(t, src, i)
  }

  /** `reportIfDestructured(context, node, param)`: the problem it reports. */
  method ReportIfDestructured(t: Tree, src: string, i: nat, p: nat) returns (report: Report)
    requires ValidTree(t) && i < |t| && FunctionLayout(t, src, i, p)
    ensures report.node == p && report.messageId == NoDestructuringInParams
    ensures report.fix.Some? <==> CanAutofixAsWritten(t, src, i)
    ensures report.fix.Some? ==> report.fix.value == FixEdits(t, src, i, p)
  {
    var canAutofix := AutofixAllowed(t, src, i);
    if canAutofix {
      var fixes := CreateFix(t, src, i, p);
      report := Report(p, NoDestructuringInParams, Some(fixes));
    } else {
      report := Report(p, NoDestructuringInParams, None);
    }
  }

  /** The `canAutofix` flag: cleared for an object literal body in parentheses. */
  method AutofixAllowed(t: Tree, src: string, i: nat) returns (canAutofix: bool)
    requires ValidTree(t) && i < |t| && FunctionShape(t, src, i)
    ensures canAutofix <==> CanAutofixAsWritten(t, src, i)
  {
    canAutofix := true;
    var b := RefField(t, i, "body").value;
    if t[i].kind == ArrowFunctionExpression && t[b].kind != BlockStatement {
      var fullText := Text(t, src, i);
      var bodyText := Text(t, src, b);
      var beforeBody := Slice(fullText, 0, IndexOf(fullText, bodyText, 0));
      if EndsWith(beforeBody, "(") && StartsWith(bodyText, "{") {
        canAutofix := false;
      }
    }
  }

  /** A declaration's or a block-bodied arrow's fix is never withheld. */
  lemma BlockBodyAlwaysFixed(t: Tree, src: string, i: nat)
    requires ValidTree(t) && i < |t| && FunctionShape(t, src, i)
    requires t[i].kind == FunctionDeclaration || t[RefField(t, i, "body").value].kind == BlockStatement
    ensures CanAutofixAsWritten(t, src, i) && CanAutofix(t, src, i)
  {
  }

  /** When the body's text does not occur earlier in the function's text, the search finds the body itself. */
  lemma BodyFoundInPlace(t: Tree, src: string, i: nat, b: nat)
    requires RangesIn(t, src) && i < |t| && b < |t|
    requires t[i].start <= t[b].start && t[b].end <= t[i].end
    requires forall j :: 0 <= j < t[b].start - t[i].start ==> !OccursAt(Text(t, src, i), Text(t, src, b), j)
    ensures IndexOf(Text(t, src, i), Text(t, src, b), 0) == t[b].start - t[i].start
    ensures BeforeBody(Text(t, src, i), Text(t, src, b)) == src[t[i].start..t[b].start]
    ensures AfterBody(Text(t, src, i), Text(t, src, b)) == src[t[b].end..t[i].end]
  {
    var full := Text(t, src, i);
    var body := Text(t, src, b);
    var k := t[b].start - t[i].start;
    SliceOfSlice(src, t[i].start, t[i].end, t[b].start, t[b].end);
    assert OccursAt(full, body, k);
    SliceOfSlice(src, t[i].start, t[i].end, t[i].start, t[b].start);
    SliceOfSlice(src, t[i].start, t[i].end, t[b].end, t[i].end);
  }

  /** A non-empty slice of the source ends with the character before its end. */
  lemma LastOfSlice(src: string, lo: nat, hi: nat)
    requires lo < hi <= |src|
    ensures EndsWith(src[lo..hi], [src[hi - 1]])
  {
    assert src[lo..hi][hi - lo - 1..] == [src[hi - 1]];
  }

  /**
   * An object literal body in parentheses, the body text found right after the
   * `(` that follows the arrow, gets no fix, either as written or corrected.
   */
  lemma ParenthesizedObjectNotFixed(t: Tree, src: string, i: nat)
    requires ValidTree(t) && i < |t| && FunctionShape(t, src, i)
    requires t[i].kind == ArrowFunctionExpression
    requires var b := RefField(t, i, "body").value;
      && t[b].kind != BlockStatement
      && t[i].start < t[b].start && src[t[b].start - 1] == '('
      && (forall j :: 0 <= j < t[b].start - t[i].start ==> !OccursAt(Text(t, src, i), Text(t, src, b), j))
      && StartsWith(Text(t, src, b), "{")
    ensures !CanAutofixAsWritten(t, src, i) && !CanAutofix(t, src, i)
  {
    var b := RefField(t, i, "body").value;
    BodyFoundInPlace(t, src, i, b);
    var before := BeforeBody(Text(t, src, i), Text(t, src, b));
    assert before == src[t[i].start..t[b].start];
    LastOfSlice(src, t[i].start, t[b].start);
    assert ParenthesizedObject(Text(t, src, i), Text(t, src, b));
    assert !CanAutofixAsWritten(t, src, i);
  }

  /** The corrected test withholds the fix exactly in one more case than the code as written. */
  lemma CanAutofixCorrection(t: Tree, src: string, i: nat)
    requires ValidTree(t) && i < |t| && FunctionShape(t, src, i)
    ensures CanAutofix(t, src, i) ==> CanAutofixAsWritten(t, src, i)
    ensures CanAutofixAsWritten(t, src, i) && !CanAutofix(t, src, i) <==>
      CanAutofixAsWritten(t, src, i) && ParenthesizedRewrap(t, src, i)
  {
  }

  /**
   * As written, a parenthesised expression body that is neither markup nor an
   * object literal, such as a conditional, gets the rewrapping fix: the
   * function's text before the replaced range ends with `(` and the text after
   * it starts with `)`, whitespace aside, and the replacement starts with `{`,
   * so the fixed code reads `({ const ... })`, an object literal holding a
   * statement.
   */
  lemma AsWrittenRewrapsInsideParens(t: Tree, src: string, i: nat, p: nat)
    requires ValidTree(t) && i < |t| && FunctionLayout(t, src, i, p)
    requires t[i].kind == ArrowFunctionExpression
    requires var b := RefField(t, i, "body").value;
      && t[b].kind != BlockStatement && !IsJSXType(t[b].kind) && !StartsWith(Text(t, src, b), "{")
      && (forall j :: 0 <= j < t[b].start - t[i].start ==> !OccursAt(Text(t, src, i), Text(t, src, b), j))
      && HasParentheses(Text(t, src, i), Text(t, src, b))
    ensures CanAutofixAsWritten(t, src, i) && !CanAutofix(t, src, i)
    ensures var e := Rewrap(t, src, RefField(t, i, "body").value, DestructuringPattern(t, src, p));
      && FixEdits(t, src, i, p) == [ParamEdit(t, src, p), e]
      && e.text[0] == '{'
      && t[i].start <= e.start <= e.end <= t[i].end
      && EndsWith(Trim(src[t[i].start..e.start]), "(")
      && StartsWith(Trim(src[e.end..t[i].end]), ")")
  {
    var b := RefField(t, i, "body").value;
    var full := Text(t, src, i);
    var body := Text(t, src, b);
    assert !ParenthesizedObject(full, body);
    assert ParenthesizedRewrap(t, src, i);
    RewrapOfExpression(t, src, i, p);
    BodyFoundInPlace(t, src, i, b);
    var e := Rewrap(t, src, b, DestructuringPattern(t, src, p));
    assert e.start == t[b].start && e.end == t[b].end && e.text[0] == '{';
    assert src[t[i].start..e.start] == BeforeBody(full, body);
    assert src[e.end..t[i].end] == AfterBody(full, body);
  }

  /** For a non-markup expression body the body edit replaces the body by a block returning it. */
  lemma RewrapOfExpression(t: Tree, src: string, i: nat, p: nat)
    requires ValidTree(t) && i < |t| && FunctionLayout(t, src, i, p)
    requires t[i].kind == ArrowFunctionExpression
    requires var b := RefField(t, i, "body").value; t[b].kind != BlockStatement && !IsJSXType(t[b].kind)
    ensures FixEdits(t, src, i, p) ==
      [ParamEdit(t, src, p), Rewrap(t, src, RefField(t, i, "body").value, DestructuringPattern(t, src, p))]
  {
    FixEditsOfBody(t, src, i, p, BodyEditAt(t, src, i, p, ArrowTokenEnd(t, src, i)));
  }

  /**
   * With the corrected test, a fix for a parenthesised expression body is the
   * markup one, which replaces everything from the arrow token to the end of the
   * function, parentheses included.
   */
  lemma NoRewrapInsideParens(t: Tree, src: string, i: nat, p: nat)
    requires ValidTree(t) && i < |t| && FunctionLayout(t, src, i, p)
    requires ExpressionBody(t, src, i)
    requires HasParentheses(Text(t, src, i), Text(t, src, RefField(t, i, "body").value))
    requires CanAutofix(t, src, i)
    ensures var b := RefField(t, i, "body").value;
      && IsJSXType(t[b].kind)
      && FixEdits(t, src, i, p) ==
           [ParamEdit(t, src, p), ParenthesizedEdit(t, src, i, b, DestructuringPattern(t, src, p), ArrowTokenEnd(t, src, i))]
  {
    assert !ParenthesizedRewrap(t, src, i);
    FixEditsWithExpression(t, src, i, p, ArrowTokenEnd(t, src, i));
  }
}
