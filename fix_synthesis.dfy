/**
 * The autofix `createFix`: two text edits, one replacing the destructuring
 * parameter by `props` (keeping its type annotation), one declaring the
 * destructuring pattern at the start of the body.  The body edit takes one of
 * four shapes: an insertion after the opening brace of a block body; for a
 * parenthesised markup body, a replacement of everything after the arrow token
 * by a block that re-indents the markup and returns it; for any other
 * expression body, a replacement of the body by a block returning it.
 *
 * The arrow token is located by a text search.  `ArrowTokenEndAsWritten`
 * searches the whole function text, which can stop at a `=>` written inside
 * the parameter's type; `ArrowTokenEnd` searches from the end of the
 * parameters and return type, and is the one the fix uses.
 */
module FixSynthesis {
  import opened Wrappers
  import opened SourceText
  import opened SyntaxTree
  import opened WrapperDetector

  /** A replacement of the source range `[start, end)` by `text`. */
  datatype TextEdit = TextEdit(start: nat, end: nat, text: string)

  /** Two edits touch a common character, which ESLint refuses within one fix. */
  predicate Overlap(a: TextEdit, b: TextEdit) {
    a.start < b.end && b.start < a.end
  }

  /** The largest end offset among `acc` and the nodes `cs`. */
  function MaxEnd(t: Tree, cs: seq<nat>, acc: nat): (r: nat)
    requires forall k :: 0 <= k < |cs| ==> cs[k] < |t|
    ensures acc <= r
    ensures forall k :: 0 <= k < |cs| ==> t[cs[k]].end <= r
  {
    if cs == [] then acc
    else MaxEnd(t, cs[1..], if t[cs[0]].end > acc then t[cs[0]].end else acc)
  }

  /** Where the function's head ends: after every parameter and after the return type. */
  function HeadEnd(t: Tree, i: nat): (r: nat)
    requires ValidTree(t) && i < |t|
    ensures t[i].start <= r
    ensures forall k :: 0 <= k < |ListField(t, i, "params")| ==> t[ListField(t, i, "params")[k]].end <= r
    ensures RefField(t, i, "returnType").Some? ==> t[RefField(t, i, "returnType").value].end <= r
  {
    var paramsEnd := MaxEnd(t, ListField(t, i, "params"), t[i].start);
    match RefField(t, i, "returnType")
    case Some(rt) => if t[rt].end > paramsEnd then t[rt].end else paramsEnd
    case None => paramsEnd
  }

  /** `functionText.indexOf('=>')`, turned into the end offset of the token found there. */
  function ArrowTokenEndAsWritten(t: Tree, src: string, i: nat): nat
    requires RangesIn(t, src) && i < |t|
  {
    t[i].start + IndexOf(Text(t, src, i), "=>", 0) + 2
  }

  /** The end offset of the first `=>` after the head: the arrow token itself. */
  function ArrowTokenEnd(t: Tree, src: string, i: nat): nat
    requires ValidTree(t) && RangesIn(t, src) && i < |t|
  {
    t[i].start + IndexOf(Text(t, src, i), "=>", HeadEnd(t, i) - t[i].start) + 2
  }

  /** The arrow token lies between the head and the body, as in every parsed arrow function. */
  predicate ArrowTokenPresent(t: Tree, src: string, i: nat, b: nat)
    requires ValidTree(t) && RangesIn(t, src) && i < |t| && b < |t|
  {
    var k := IndexOf(Text(t, src, i), "=>", HeadEnd(t, i) - t[i].start);
    0 <= k && t[i].start + k + 2 <= t[b].start
  }

  /**
   * What the parser guarantees about a function `i`: ranges lie inside the
   * source, the body follows the head and ends inside the function, a
   * declaration's body is a block, a block's range holds at least its opening
   * brace, and an arrow's `=>` sits between head and body.
   */
  predicate FunctionShape(t: Tree, src: string, i: nat)
    requires ValidTree(t) && i < |t|
  {
    && RangesIn(t, src)
    && RefField(t, i, "body").Some?
    && var b := RefField(t, i, "body").value;
       && HeadEnd(t, i) <= t[b].start
       && t[b].end <= t[i].end
       && (t[i].kind == FunctionDeclaration ==> t[b].kind == BlockStatement)
       && (t[b].kind == BlockStatement ==> t[b].start < t[b].end)
       && (t[i].kind == ArrowFunctionExpression ==> ArrowTokenPresent(t, src, i, b))
  }

  /** A parsed function `i` and one of its parameters `p`. */
  predicate FunctionLayout(t: Tree, src: string, i: nat, p: nat)
    requires ValidTree(t) && i < |t|
  {
    FunctionShape(t, src, i) && p in ListField(t, i, "params")
  }

  /** `param.typeAnnotation ? sourceCode.getText(param.typeAnnotation) : ''`. */
  function AnnotationText(t: Tree, src: string, p: nat): string
    requires ValidTree(t) && RangesIn(t, src) && p < |t|
  {
    match RefField(t, p, "typeAnnotation")
    case Some(a) => Text(t, src, a)
    case None => ""
  }

  /** The replacement parameter; with or without an annotation it is `props` followed by it. */
  function PropsParamText(annotation: string): (s: string)
    ensures s == "props" + annotation
  {
    if annotation != [] then "props" + annotation else "props"
  }

  /** The parameter's text with its annotation's first occurrence removed, trimmed. */
  function DestructuringPattern(t: Tree, src: string, p: nat): string
    requires ValidTree(t) && RangesIn(t, src) && p < |t|
  {
    Trim(ReplaceFirst(Text(t, src, p), AnnotationText(t, src, p), ""))
  }

  /** The statement every body edit adds. */
  function Declaration(pattern: string): string {
    "const " + pattern + " = props;"
  }

  /** The edit replacing the parameter. */
  function ParamEdit(t: Tree, src: string, p: nat): TextEdit
    requires ValidTree(t) && RangesIn(t, src) && p < |t|
  {
    TextEdit(t[p].start, t[p].end, PropsParamText(AnnotationText(t, src, p)))
  }

  /** The insertion after the opening brace of the block `b`, indented like the brace's line. */
  function BlockInsert(t: Tree, src: string, b: nat, pattern: string): TextEdit
    requires RangesIn(t, src) && b < |t| && t[b].start < t[b].end
  {
    var indentation := IndentationAt(src, t[b].start);
    TextEdit(t[b].start + 1, t[b].start + 1, "\n" + indentation + "  " + Declaration(pattern))
  }

  /** The replacement of the expression body `b` by a block returning it. */
  function Rewrap(t: Tree, src: string, b: nat, pattern: string): TextEdit
    requires RangesIn(t, src) && b < |t|
  {
    TextEdit(t[b].start, t[b].end, "{ " + Declaration(pattern) + " return " + Text(t, src, b) + "; }")
  }

  /** `functionText.slice(0, functionText.indexOf(bodyText))`. */
  function BeforeBody(full: string, body: string): string {
    Slice(full, 0, IndexOf(full, body, 0))
  }

  /** `functionText.slice(functionText.indexOf(bodyText) + bodyText.length)`. */
  function AfterBody(full: string, body: string): string {
    Slice(full, IndexOf(full, body, 0) + |body|, |full|)
  }

  /** The body's text is found in the function's text right after `(` and before `)`, whitespace aside. */
  predicate HasParentheses(full: string, body: string) {
    EndsWith(Trim(BeforeBody(full, body)), "(") && StartsWith(Trim(AfterBody(full, body)), ")")
  }

  /** The first non-blank line's indentation, or 0 when every line is blank. */
  function FirstNonBlankIndent(lines: seq<string>): int {
    if lines == [] then 0
    else if !IsBlank(lines[0]) then SearchNonSpace(lines[0])
    else FirstNonBlankIndent(lines[1..])
  }

  /** One line of the re-indented markup: blank lines stay, others get `indentation`, four spaces and their offset. */
  function ReindentLine(line: string, indentation: string, base: int): string {
    if IsBlank(line) then line
    else
      var relative := SearchNonSpace(line) - base;
      indentation + "    " + Spaces(if relative < 0 then 0 else relative) + Trim(line)
  }

  /** The `map` over the body's lines. */
  function ReindentLines(lines: seq<string>, indentation: string, base: int): (r: seq<string>)
    ensures |r| == |lines|
    ensures forall k :: 0 <= k < |r| ==> r[k] == ReindentLine(lines[k], indentation, base)
  {
    seq(|lines|, k requires 0 <= k < |lines| => ReindentLine(lines[k], indentation, base))
  }

  /** The markup of `body` re-indented under a line indented by `indentation`. */
  function IndentedJSX(body: string, indentation: string): string {
    var lines := Split(body, '\n');
    Join(ReindentLines(lines, indentation, FirstNonBlankIndent(lines)), '\n')
  }

  /** The block that replaces everything after the arrow token for a parenthesised markup body. */
  function ParenthesizedBody(indentation: string, pattern: string, jsx: string): string {
    (" {\n" + indentation + "  ") + Declaration(pattern)
      + ("\n" + indentation + "  return (\n" + jsx + "\n" + indentation + "  );\n" + indentation + "}")
  }

  /** The replacement of everything after the arrow token by a block returning the re-indented markup. */
  function ParenthesizedEdit(t: Tree, src: string, i: nat, b: nat, pattern: string, arrowEnd: nat): TextEdit
    requires RangesIn(t, src) && i < |t| && b < |t|
  {
    var indentation := IndentationAt(src, t[i].start);
    TextEdit(arrowEnd, t[i].end, ParenthesizedBody(indentation, pattern, IndentedJSX(Text(t, src, b), indentation)))
  }

  /** The body edit of an arrow function whose body `b` is an expression. */
  function ExpressionBodyEdit(t: Tree, src: string, i: nat, b: nat, pattern: string, arrowEnd: nat): TextEdit
    requires RangesIn(t, src) && i < |t| && b < |t|
  {
    if IsJSXType(t[b].kind) && HasParentheses(Text(t, src, i), Text(t, src, b)) then
      ParenthesizedEdit(t, src, i, b, pattern, arrowEnd)
    else Rewrap(t, src, b, pattern)
  }

  /** The body edit, given where the arrow token ends. */
  function BodyEditAt(t: Tree, src: string, i: nat, p: nat, arrowEnd: nat): Option<TextEdit>
    requires ValidTree(t) && i < |t| && FunctionLayout(t, src, i, p)
  {
    var pattern := DestructuringPattern(t, src, p);
    var b := RefField(t, i, "body").value;
    if t[i].kind == ArrowFunctionExpression then
      if t[b].kind == BlockStatement then Some(BlockInsert(t, src, b, pattern))
      else Some(ExpressionBodyEdit(t, src, i, b, pattern, arrowEnd))
    else if t[i].kind == FunctionDeclaration then Some(BlockInsert(t, src, b, pattern))
    else None
  }

  /** The parameter edit followed by the body edit, if the function kind has one. */
  function FixEditsWith(t: Tree, src: string, i: nat, p: nat, arrowEnd: nat): seq<TextEdit>
    requires ValidTree(t) && i < |t| && FunctionLayout(t, src, i, p)
  {
    [ParamEdit(t, src, p)] + match BodyEditAt(t, src, i, p, arrowEnd) case Some(e) => [e] case None => []
  }

  /** The edits of the code as written, with the arrow token found by `ArrowTokenEndAsWritten`. */
  function FixEditsAsWritten(t: Tree, src: string, i: nat, p: nat): seq<TextEdit>
    requires ValidTree(t) && i < |t| && FunctionLayout(t, src, i, p)
  {
    FixEditsWith(t, src, i, p, ArrowTokenEndAsWritten(t, src, i))
  }

  /** The edits `createFix` returns, with the arrow token found after the head. */
  function FixEdits(t: Tree, src: string, i: nat, p: nat): seq<TextEdit>
    requires ValidTree(t) && i < |t| && FunctionLayout(t, src, i, p)
  {
    FixEditsWith(t, src, i, p, ArrowTokenEnd(t, src, i))
  }

  /** The `for...of` loop with `break` that finds `baseJSXIndent`. */
  method BaseJSXIndent(lines: seq<string>) returns (base: int)
    ensures base == FirstNonBlankIndent(lines)
  {
    base := 0;
    var k := 0;
    while k < |lines|
      invariant 0 <= k <= |lines|
      invariant FirstNonBlankIndent(lines[k..]) == FirstNonBlankIndent(lines)
    {
      if !IsBlank(lines[k]) {
        base := SearchNonSpace(lines[k]);
        assert lines[k..][0] == lines[k];
        return;
      }
      assert lines[k..][1..] == lines[k + 1..];
      k := k + 1;
    }
  }

  /** The edits case by case, for any end offset of the arrow token. */
  lemma FixEditsWithByKind(t: Tree, src: string, i: nat, p: nat, arrowEnd: nat)
    requires ValidTree(t) && i < |t| && FunctionLayout(t, src, i, p)
    ensures var b := RefField(t, i, "body").value;
      var pattern := DestructuringPattern(t, src, p);
      var fixes := FixEditsWith(t, src, i, p, arrowEnd);
      && (t[i].kind == ArrowFunctionExpression && t[b].kind == BlockStatement ==>
            fixes == [ParamEdit(t, src, p), BlockInsert(t, src, b, pattern)])
      && (t[i].kind == ArrowFunctionExpression && t[b].kind != BlockStatement ==>
            fixes == [ParamEdit(t, src, p), ExpressionBodyEdit(t, src, i, b, pattern, arrowEnd)])
      && (t[i].kind == FunctionDeclaration ==> fixes == [ParamEdit(t, src, p), BlockInsert(t, src, b, pattern)])
      && (t[i].kind != ArrowFunctionExpression && t[i].kind != FunctionDeclaration ==> fixes == [ParamEdit(t, src, p)])
  {
    var b := RefField(t, i, "body").value;
    if t[i].kind == ArrowFunctionExpression && t[b].kind != BlockStatement {
      FixEditsWithExpression(t, src, i, p, arrowEnd);
    } else if t[i].kind == ArrowFunctionExpression || t[i].kind == FunctionDeclaration {
      FixEditsWithBlock(t, src, i, p, arrowEnd);
    } else {
      FixEditsWithOfBody(t, src, i, p, arrowEnd);
    }
  }

  /** A block body gets the insertion after its opening brace. */
  lemma FixEditsWithBlock(t: Tree, src: string, i: nat, p: nat, arrowEnd: nat)
    requires ValidTree(t) && i < |t| && FunctionLayout(t, src, i, p)
    requires t[i].kind == FunctionDeclaration || t[i].kind == ArrowFunctionExpression
    requires t[RefField(t, i, "body").value].kind == BlockStatement
    ensures FixEditsWith(t, src, i, p, arrowEnd) ==
      [ParamEdit(t, src, p), BlockInsert(t, src, RefField(t, i, "body").value, DestructuringPattern(t, src, p))]
  {
    FixEditsWithOfBody(t, src, i, p, arrowEnd);
  }

  /** An expression body gets the expression edit. */
  lemma FixEditsWithExpression(t: Tree, src: string, i: nat, p: nat, arrowEnd: nat)
    requires ValidTree(t) && i < |t| && FunctionLayout(t, src, i, p)
    requires t[i].kind == ArrowFunctionExpression && t[RefField(t, i, "body").value].kind != BlockStatement
    ensures var b := RefField(t, i, "body").value;
      FixEditsWith(t, src, i, p, arrowEnd) ==
        [ParamEdit(t, src, p), ExpressionBodyEdit(t, src, i, b, DestructuringPattern(t, src, p), arrowEnd)]
  {
    FixEditsWithOfBody(t, src, i, p, arrowEnd);
  }

  /** The fix edits case by case, as `createFix` pushes them. */
  lemma FixEditsByKind(t: Tree, src: string, i: nat, p: nat)
    requires ValidTree(t) && i < |t| && FunctionLayout(t, src, i, p)
    ensures var b := RefField(t, i, "body").value;
      var pattern := DestructuringPattern(t, src, p);
      var fixes := FixEdits(t, src, i, p);
      && (t[i].kind == ArrowFunctionExpression && t[b].kind == BlockStatement ==>
            fixes == [ParamEdit(t, src, p), BlockInsert(t, src, b, pattern)])
      && (t[i].kind == ArrowFunctionExpression && t[b].kind != BlockStatement ==>
            fixes == [ParamEdit(t, src, p), ExpressionBodyEdit(t, src, i, b, pattern, ArrowTokenEnd(t, src, i))])
      && (t[i].kind == FunctionDeclaration ==> fixes == [ParamEdit(t, src, p), BlockInsert(t, src, b, pattern)])
      && (t[i].kind != ArrowFunctionExpression && t[i].kind != FunctionDeclaration ==> fixes == [ParamEdit(t, src, p)])
  {
    FixEditsWithByKind(t, src, i, p, ArrowTokenEnd(t, src, i));
  }

  /** The parenthesised-markup branch of `createFix`: split, find the base indentation, re-indent, join. */
  method ParenthesizedFix(t: Tree, src: string, i: nat, b: nat, pattern: string) returns (edit: TextEdit)
    requires ValidTree(t) && RangesIn(t, src) && i < |t| && b < |t|
    ensures edit == ParenthesizedEdit(t, src, i, b, pattern, ArrowTokenEnd(t, src, i))
  {
    var arrowEnd := ArrowTokenEnd(t, src, i);
    var indentation := IndentationAt(src, t[i].start);
    var bodyLines := Split(Text(t, src, b), '\n');
    var base := BaseJSXIndent(bodyLines);
    var indented := Join(ReindentLines(bodyLines, indentation, base), '\n');
    edit := TextEdit(arrowEnd, t[i].end, ParenthesizedBody(indentation, pattern, indented));
  }

  /** The body half of `createFix`: which edit, if any, the function's kind and body call for. */
  method BodyFix(t: Tree, src: string, i: nat, p: nat) returns (edit: Option<TextEdit>)
    requires ValidTree(t) && i < |t| && FunctionLayout(t, src, i, p)
    ensures edit == BodyEditAt(t, src, i, p, ArrowTokenEnd(t, src, i))
  {
    var pattern := DestructuringPattern(t, src, p);
    var b := RefField(t, i, "body").value;
    if t[i].kind == ArrowFunctionExpression {
      if t[b].kind == BlockStatement {
        edit := Some(BlockInsert(t, src, b, pattern));
      } else if IsJSXType(t[b].kind) && HasParentheses(Text(t, src, i), Text(t, src, b)) {
        var e := ParenthesizedFix(t, src, i, b, pattern);
        edit := Some(e);
      } else {
        edit := Some(Rewrap(t, src, b, pattern));
      }
    } else if t[i].kind == FunctionDeclaration {
      edit := Some(BlockInsert(t, src, b, pattern));
    } else {
      edit := None;
    }
  }

  /** `createFix(node, param, sourceCode, fixer)`: the parameter edit, then the body edit if there is one. */
  method CreateFix(t: Tree, src: string, i: nat, p: nat) returns (fixes: seq<TextEdit>)
    requires ValidTree(t) && i < |t| && FunctionLayout(t, src, i, p)
    ensures fixes == FixEdits(t, src, i, p)
  {
    var annotation := AnnotationText(t, src, p);
    var hocInfo := GetHOCInfo(t, i);
    // Both branches build the same edit: a second `ref` parameter is left as it is.
    if hocInfo.Some? && hocInfo.value.wrapper == "forwardRef" {
      fixes := [TextEdit(t[p].start, t[p].end, PropsParamText(annotation))];
    } else {
      fixes := [TextEdit(t[p].start, t[p].end, PropsParamText(annotation))];
    }
    var body := BodyFix(t, src, i, p);
    FixEditsOfBody(t, src, i, p, body);
    if body.Some? {
      fixes := fixes + [body.value];
    }
  }

  /** The fix is the parameter edit followed by the body edit, when there is one. */
  lemma FixEditsOfBody(t: Tree, src: string, i: nat, p: nat, body: Option<TextEdit>)
    requires ValidTree(t) && i < |t| && FunctionLayout(t, src, i, p)
    requires body == BodyEditAt(t, src, i, p, ArrowTokenEnd(t, src, i))
    ensures FixEdits(t, src, i, p) == [ParamEdit(t, src, p)] + (if body.Some? then [body.value] else [])
  {
  }

  /**
   * For an arrow function or a declaration the fix has two edits: first the
   * parameter replaced by `props` and its annotation, then a body edit lying
   * after it, so the two never overlap, and both inside the source text.
   */
  lemma FixEditsDisjoint(t: Tree, src: string, i: nat, p: nat)
    requires ValidTree(t) && i < |t| && FunctionLayout(t, src, i, p)
    requires t[i].kind == ArrowFunctionExpression || t[i].kind == FunctionDeclaration
    ensures var fixes := FixEdits(t, src, i, p);
      && |fixes| == 2
      && fixes[0] == TextEdit(t[p].start, t[p].end, "props" + AnnotationText(t, src, p))
      && fixes[0].end <= fixes[1].start <= fixes[1].end <= |src|
      && !Overlap(fixes[0], fixes[1])
  {
    var body := BodyEditAt(t, src, i, p, ArrowTokenEnd(t, src, i));
    FixEditsOfBody(t, src, i, p, body);
    BodyEditAfterParam(t, src, i, p);
    ParamEndsBeforeBody(t, src, i, p);
    assert FixEdits(t, src, i, p) == [ParamEdit(t, src, p), body.value];
  }

  /** A parameter ends before the head does, hence before the body starts. */
  lemma ParamEndsBeforeBody(t: Tree, src: string, i: nat, p: nat)
    requires ValidTree(t) && i < |t| && FunctionLayout(t, src, i, p)
    ensures p < |t| && t[p].start <= t[p].end <= HeadEnd(t, i) <= t[RefField(t, i, "body").value].start
  {
    var params := ListField(t, i, "params");
    var k :| 0 <= k < |params| && params[k] == p;
  }

  /** An arrow function's or a declaration's body edit starts after the parameter and ends inside the source. */
  lemma BodyEditAfterParam(t: Tree, src: string, i: nat, p: nat)
    requires ValidTree(t) && i < |t| && FunctionLayout(t, src, i, p)
    requires t[i].kind == ArrowFunctionExpression || t[i].kind == FunctionDeclaration
    ensures var body := BodyEditAt(t, src, i, p, ArrowTokenEnd(t, src, i));
      body.Some? && t[p].end <= body.value.start <= body.value.end <= |src|
  {
    ParamEndsBeforeBody(t, src, i, p);
    var b := RefField(t, i, "body").value;
    var pattern := DestructuringPattern(t, src, p);
    if t[i].kind == ArrowFunctionExpression && t[b].kind != BlockStatement {
      ArrowTokenAfterHead(t, src, i);
      ExpressionEditInRange(t, src, i, b, pattern, ArrowTokenEnd(t, src, i));
    } else {
      BlockInsertInRange(t, src, b, pattern);
    }
  }

  /**
   * The arrow token of an arrow function ends after the head and before the
   * body.  The bound by the body's start is the parser guarantee
   * `ArrowTokenPresent` that `FunctionShape` assumes; what the search itself
   * adds is the bound by the head's end.
   */
  lemma ArrowTokenAfterHead(t: Tree, src: string, i: nat)
    requires ValidTree(t) && i < |t| && FunctionShape(t, src, i) && t[i].kind == ArrowFunctionExpression
    ensures HeadEnd(t, i) <= ArrowTokenEnd(t, src, i) <= t[RefField(t, i, "body").value].start
  {
    var from := HeadEnd(t, i) - t[i].start;
    var idx := IndexOf(Text(t, src, i), "=>", from);
    assert 0 <= idx && from <= idx;
  }

  /** An expression body's edit lies between the arrow token's end and the end of the source. */
  lemma ExpressionEditInRange(t: Tree, src: string, i: nat, b: nat, pattern: string, arrowEnd: nat)
    requires RangesIn(t, src) && i < |t| && b < |t| && arrowEnd <= t[b].start && t[b].end <= t[i].end
    ensures var e := ExpressionBodyEdit(t, src, i, b, pattern, arrowEnd);
      arrowEnd <= e.start <= e.end <= |src|
  {
  }

  /** A block's insertion lies right after its opening brace, inside the source. */
  lemma BlockInsertInRange(t: Tree, src: string, b: nat, pattern: string)
    requires RangesIn(t, src) && b < |t| && t[b].start < t[b].end
    ensures var e := BlockInsert(t, src, b, pattern);
      t[b].start < e.start == e.end <= |src|
  {
  }

  /** The inserted line declares the pattern. */
  lemma BlockInsertDeclares(t: Tree, src: string, b: nat, pattern: string)
    requires RangesIn(t, src) && b < |t| && t[b].start < t[b].end
    ensures exists j :: OccursAt(BlockInsert(t, src, b, pattern).text, Declaration(pattern), j)
  {
    var indentation := IndentationAt(src, t[b].start);
    OccursAfterPrefix("\n" + indentation + "  ", Declaration(pattern), "");
    assert BlockInsert(t, src, b, pattern).text == "\n" + indentation + "  " + Declaration(pattern) + "";
  }

  /** The block replacing an expression body declares the pattern. */
  lemma RewrapDeclares(t: Tree, src: string, b: nat, pattern: string)
    requires RangesIn(t, src) && b < |t|
    ensures exists j :: OccursAt(Rewrap(t, src, b, pattern).text, Declaration(pattern), j)
  {
    var rest := " return " + Text(t, src, b) + "; }";
    OccursAfterPrefix("{ ", Declaration(pattern), rest);
    assert Rewrap(t, src, b, pattern).text == "{ " + Declaration(pattern) + rest;
  }

  /** The block replacing a parenthesised markup body declares the pattern, on its second line. */
  lemma ParenthesizedBodyDeclares(indentation: string, pattern: string, jsx: string)
    ensures OccursAt(ParenthesizedBody(indentation, pattern, jsx), Declaration(pattern), |indentation| + 5)
  {
    var x := " {\n" + indentation + "  ";
    var rest := "\n" + indentation + "  return (\n" + jsx + "\n" + indentation + "  );\n" + indentation + "}";
    OccursAfterPrefix(x, Declaration(pattern), rest);
  }

  /** Every body edit declares the destructuring pattern from `props`, wherever the arrow token is taken to end. */
  lemma BodyEditAtDeclares(t: Tree, src: string, i: nat, p: nat, arrowEnd: nat)
    requires ValidTree(t) && i < |t| && FunctionLayout(t, src, i, p)
    requires t[i].kind == ArrowFunctionExpression || t[i].kind == FunctionDeclaration
    ensures var e := BodyEditAt(t, src, i, p, arrowEnd);
      e.Some? && exists j :: OccursAt(e.value.text, Declaration(DestructuringPattern(t, src, p)), j)
  {
    var pattern := DestructuringPattern(t, src, p);
    var b := RefField(t, i, "body").value;
    if t[i].kind == FunctionDeclaration || t[b].kind == BlockStatement {
      BlockInsertDeclares(t, src, b, pattern);
    } else if IsJSXType(t[b].kind) && HasParentheses(Text(t, src, i), Text(t, src, b)) {
      var indentation := IndentationAt(src, t[i].start);
      ParenthesizedBodyDeclares(indentation, pattern, IndentedJSX(Text(t, src, b), indentation));
    } else {
      RewrapDeclares(t, src, b, pattern);
    }
  }

  /** The fix of an arrow function or a declaration has two edits, the second declaring the pattern from `props`. */
  lemma BodyEditDeclaresPattern(t: Tree, src: string, i: nat, p: nat)
    requires ValidTree(t) && i < |t| && FunctionLayout(t, src, i, p)
    requires t[i].kind == ArrowFunctionExpression || t[i].kind == FunctionDeclaration
    ensures var fixes := FixEdits(t, src, i, p);
      |fixes| == 2 && exists j :: OccursAt(fixes[1].text, Declaration(DestructuringPattern(t, src, p)), j)
  {
    var body := BodyEditAt(t, src, i, p, ArrowTokenEnd(t, src, i));
    BodyEditAtDeclares(t, src, i, p, ArrowTokenEnd(t, src, i));
    FixEditsOfBody(t, src, i, p, body);
    var fixes := FixEdits(t, src, i, p);
    assert fixes == [ParamEdit(t, src, p), body.value];
    var d := Declaration(DestructuringPattern(t, src, p));
    var j :| OccursAt(body.value.text, d, j);
    assert OccursAt(fixes[1].text, d, j);
  }

  /**
   * The pattern is the parameter's text up to its annotation: when the annotation
   * closes the parameter and its text does not occur earlier in it, removing its
   * first occurrence leaves exactly the pattern.
   */
  lemma PatternDropsAnnotation(t: Tree, src: string, p: nat)
    requires ValidTree(t) && RangesIn(t, src) && p < |t|
    requires RefField(t, p, "typeAnnotation").Some?
    requires var a := RefField(t, p, "typeAnnotation").value;
      && t[p].start <= t[a].start && t[a].end == t[p].end
      && forall j :: 0 <= j < t[a].start - t[p].start ==> !OccursAt(Text(t, src, p), Text(t, src, a), j)
    ensures var a := RefField(t, p, "typeAnnotation").value;
      DestructuringPattern(t, src, p) == Trim(src[t[p].start..t[a].start])
  {
    var a := RefField(t, p, "typeAnnotation").value;
    var x := src[t[p].start..t[a].start];
    var y := src[t[a].start..t[a].end];
    assert Text(t, src, a) == y;
    assert AnnotationText(t, src, p) == y;
    assert Text(t, src, p) == x + y;
    assert |x| == t[a].start - t[p].start;
    ReplaceFirstSuffix(x, y);
  }

  /** Without an annotation the pattern is the parameter's text, trimmed. */
  lemma PatternWithoutAnnotation(t: Tree, src: string, p: nat)
    requires ValidTree(t) && RangesIn(t, src) && p < |t|
    requires RefField(t, p, "typeAnnotation").None?
    ensures DestructuringPattern(t, src, p) == Trim(Text(t, src, p))
  {
    assert AnnotationText(t, src, p) == "";
    ReplaceFirstEmpty(Text(t, src, p));
  }

  /** When the body's text is found, what comes before, the body and what comes after make up the function's text. */
  lemma BeforeAfterSplit(full: string, body: string)
    requires IndexOf(full, body, 0) >= 0
    ensures BeforeBody(full, body) + body + AfterBody(full, body) == full
  {
    var k := IndexOf(full, body, 0);
    assert full == full[..k] + full[k..k + |body|] + full[k + |body|..];
  }

  /** The base indentation is that of the first non-blank line, as the loop finds it. */
  lemma BaseIndentIsFirstNonBlank(lines: seq<string>, j: nat)
    requires j < |lines| && !IsBlank(lines[j]) && forall k :: 0 <= k < j ==> IsBlank(lines[k])
    ensures FirstNonBlankIndent(lines) == SearchNonSpace(lines[j]) >= 0
  {
    BlankLinesSkipped(lines, 0, j);
    assert lines[0..] == lines;
    assert lines[j..][0] == lines[j];
    NonBlankIndent(lines[j]);
  }

  /** Blank lines from `m` up to `j` do not change where the search for the base indentation lands. */
  lemma {:induction false} BlankLinesSkipped(lines: seq<string>, m: nat, j: nat)
    requires m <= j < |lines| && forall k :: m <= k < j ==> IsBlank(lines[k])
    ensures FirstNonBlankIndent(lines[m..]) == FirstNonBlankIndent(lines[j..])
    decreases j - m
  {
    if m < j {
      var rest := lines[m..];
      assert rest[0] == lines[m] && IsBlank(rest[0]);
      assert rest[1..] == lines[m + 1..];
      BlankLinesSkipped(lines, m + 1, j);
    }
  }

  /** A line that is not blank has a non-whitespace character to find. */
  lemma NonBlankIndent(line: string)
    requires !IsBlank(line)
    ensures 0 <= SearchNonSpace(line) < |line|
  {
    BlankIffAllSpace(line);
  }

  /** When every line is blank the base indentation keeps its initial 0. */
  lemma {:induction false} AllBlankIndentZero(lines: seq<string>)
    requires forall k :: 0 <= k < |lines| ==> IsBlank(lines[k])
    ensures FirstNonBlankIndent(lines) == 0
  {
    if lines != [] {
      assert IsBlank(lines[0]);
      var rest := lines[1..];
      assert forall k :: 0 <= k < |rest| ==> rest[k] == lines[k + 1];
      AllBlankIndentZero(rest);
    }
  }

  /**
   * A node's text starts with its first token, never with whitespace, so the base
   * indentation of a markup body is always 0.
   */
  lemma BaseIndentZero(body: string)
    requires body != [] && !IsSpace(body[0])
    ensures FirstNonBlankIndent(Split(body, '\n')) == 0
  {
    var lines := Split(body, '\n');
    SplitFirstPiece(body, '\n');
    var first := lines[0];
    assert !IsSpace(first[0]);
    BlankIffAllSpace(first);
    assert !IsBlank(first);
    assert LeadingSpaceCount(first) == 0;
  }

  /** The whitespace a re-indented non-blank line starts with. */
  function ReindentPrefix(line: string, indentation: string, base: int): string {
    var relative := SearchNonSpace(line) - base;
    indentation + "    " + Spaces(if relative < 0 then 0 else relative)
  }

  /**
   * A re-indented non-blank line keeps its content and is indented by
   * `indentation`, four spaces and its own indentation beyond `base`.
   */
  lemma ReindentLineShape(line: string, indentation: string, base: int)
    requires AllSpace(indentation) && !IsBlank(line)
    ensures var r := ReindentLine(line, indentation, base);
      var relative := SearchNonSpace(line) - base;
      && Trim(r) == Trim(line)
      && SearchNonSpace(r) == |indentation| + 4 + (if relative < 0 then 0 else relative)
  {
    var relative := SearchNonSpace(line) - base;
    var pad := Spaces(if relative < 0 then 0 else relative);
    var ws := ReindentPrefix(line, indentation, base);
    assert AllSpace("    ");
    assert AllSpace(pad);
    AllSpaceConcat(indentation, "    ");
    AllSpaceConcat(indentation + "    ", pad);
    var x := Trim(line);
    TrimSpacePrefix(ws, x);
    assert ReindentLine(line, indentation, base) == ws + x;
  }

  /** Lines indented at least `base` keep their indentation differences. */
  lemma ReindentKeepsRelativeIndent(l1: string, l2: string, indentation: string, base: int)
    requires AllSpace(indentation) && !IsBlank(l1) && !IsBlank(l2)
    requires SearchNonSpace(l1) >= base && SearchNonSpace(l2) >= base
    ensures SearchNonSpace(ReindentLine(l1, indentation, base)) - SearchNonSpace(ReindentLine(l2, indentation, base))
      == SearchNonSpace(l1) - SearchNonSpace(l2)
  {
    ReindentLineShape(l1, indentation, base);
    ReindentLineShape(l2, indentation, base);
  }

  /** Re-indenting puts no line break into a line that had none. */
  lemma ReindentLineNoBreak(line: string, indentation: string, base: int)
    requires '\n' !in line && '\n' !in indentation
    ensures '\n' !in ReindentLine(line, indentation, base)
  {
    if !IsBlank(line) {
      var relative := SearchNonSpace(line) - base;
      var pad := Spaces(if relative < 0 then 0 else relative);
      TrimKeepsOut(line, '\n');
      assert ReindentLine(line, indentation, base) == indentation + "    " + pad + Trim(line);
    }
  }

  /**
   * The markup of a parenthesised body keeps its lines: it has exactly the body's
   * lines, each non-blank one with its content kept and indented by the function
   * line's indentation, four spaces and its own absolute indentation (the base
   * indentation being 0), each blank one unchanged.
   */
  lemma IndentedJSXLines(body: string, indentation: string)
    requires body != [] && !IsSpace(body[0])
    requires AllSpace(indentation) && forall k :: 0 <= k < |indentation| ==> !IsLineBreak(indentation[k])
    ensures var lines := Split(body, '\n');
      var out := Split(IndentedJSX(body, indentation), '\n');
      && |out| == |lines|
      && (forall k :: 0 <= k < |lines| && IsBlank(lines[k]) ==> out[k] == lines[k])
      && (forall k :: 0 <= k < |lines| && !IsBlank(lines[k]) ==>
            Trim(out[k]) == Trim(lines[k]) && SearchNonSpace(out[k]) == |indentation| + 4 + SearchNonSpace(lines[k]))
  {
    var lines := Split(body, '\n');
    BaseIndentZero(body);
    var re := ReindentLines(lines, indentation, 0);
    assert IndentedJSX(body, indentation) == Join(re, '\n');
    assert '\n' !in indentation;
    forall k | 0 <= k < |re|
      ensures '\n' !in re[k]
    {
      ReindentLineNoBreak(lines[k], indentation, 0);
    }
    SplitJoin(re, '\n');
    forall k | 0 <= k < |lines| && !IsBlank(lines[k])
      ensures Trim(re[k]) == Trim(lines[k]) && SearchNonSpace(re[k]) == |indentation| + 4 + SearchNonSpace(lines[k])
    {
      ReindentLineShape(lines[k], indentation, 0);
      BlankIffAllSpace(lines[k]);
    }
  }

  /**
   * When no `=>` occurs in the function's text before the end of its head, the
   * search written in the source finds the arrow token too, and the two fixes agree.
   */
  lemma ArrowSearchAgrees(t: Tree, src: string, i: nat, p: nat)
    requires ValidTree(t) && i < |t| && FunctionLayout(t, src, i, p)
    requires forall j :: 0 <= j < HeadEnd(t, i) - t[i].start ==> !OccursAt(Text(t, src, i), "=>", j)
    ensures t[i].kind == ArrowFunctionExpression ==> ArrowTokenEndAsWritten(t, src, i) == ArrowTokenEnd(t, src, i)
    ensures FixEditsAsWritten(t, src, i, p) == FixEdits(t, src, i, p)
  {
    var asWritten := ArrowTokenEndAsWritten(t, src, i);
    var corrected := ArrowTokenEnd(t, src, i);
    if t[i].kind != ArrowFunctionExpression {
      FixEditsWithOfBody(t, src, i, p, asWritten);
      FixEditsWithOfBody(t, src, i, p, corrected);
      assert BodyEditAt(t, src, i, p, asWritten) == BodyEditAt(t, src, i, p, corrected);
    } else {
      var full := Text(t, src, i);
      var from := HeadEnd(t, i) - t[i].start;
      var k := IndexOf(full, "=>", from);
      assert OccursAt(full, "=>", k);
      assert IndexOf(full, "=>", 0) == k;
      assert asWritten == corrected;
    }
  }

  /** The fix for a given end of the arrow token is the parameter edit followed by the body edit, if any. */
  lemma FixEditsWithOfBody(t: Tree, src: string, i: nat, p: nat, arrowEnd: nat)
    requires ValidTree(t) && i < |t| && FunctionLayout(t, src, i, p)
    ensures var body := BodyEditAt(t, src, i, p, arrowEnd);
      FixEditsWith(t, src, i, p, arrowEnd) == [ParamEdit(t, src, p)] + (if body.Some? then [body.value] else [])
  {
  }

  /** A `=>` inside the parameter's text is found first by the search written in the source. */
  lemma AsWrittenSearchStopsInParam(t: Tree, src: string, i: nat, p: nat, o: nat)
    requires RangesIn(t, src) && i < |t| && p < |t|
    requires t[i].start <= t[p].start <= o && o + 2 < t[p].end <= t[i].end && OccursAt(src, "=>", o)
    ensures ArrowTokenEndAsWritten(t, src, i) < t[p].end
  {
    var full := Text(t, src, i);
    var j := o - t[i].start;
    assert full[j..j + 2] == src[o..o + 2];
    assert OccursAt(full, "=>", j);
    var k := IndexOf(full, "=>", 0);
    assert 0 <= k <= j;
  }

  /**
   * The search written in the source goes wrong for a parenthesised markup
   * body when the parameter's own text holds a `=>`, as a function type in its
   * annotation does: the body edit then starts inside the parameter, the two
   * edits overlap, and ESLint rejects the fix.
   */
  lemma ArrowInParamOverlaps(t: Tree, src: string, i: nat, p: nat, o: nat)
    requires ValidTree(t) && i < |t| && FunctionLayout(t, src, i, p)
    requires t[i].kind == ArrowFunctionExpression
    requires var b := RefField(t, i, "body").value;
      t[b].kind != BlockStatement && IsJSXType(t[b].kind) && HasParentheses(Text(t, src, i), Text(t, src, b))
    requires t[i].start <= t[p].start <= o && o + 2 < t[p].end && OccursAt(src, "=>", o)
    ensures var fixes := FixEditsAsWritten(t, src, i, p);
      |fixes| == 2 && Overlap(fixes[0], fixes[1])
  {
    var b := RefField(t, i, "body").value;
    var arrowEnd := ArrowTokenEndAsWritten(t, src, i);
    var pattern := DestructuringPattern(t, src, p);
    var params := ListField(t, i, "params");
    var m :| 0 <= m < |params| && params[m] == p;
    assert t[p].end <= HeadEnd(t, i) <= t[b].start <= t[b].end <= t[i].end;
    AsWrittenSearchStopsInParam(t, src, i, p, o);
    AsWrittenParenthesizedFix(t, src, i, p);
  }

  /** For a parenthesised markup body the code as written replaces everything after the `=>` it found. */
  lemma AsWrittenParenthesizedFix(t: Tree, src: string, i: nat, p: nat)
    requires ValidTree(t) && i < |t| && FunctionLayout(t, src, i, p)
    requires t[i].kind == ArrowFunctionExpression
    requires var b := RefField(t, i, "body").value;
      t[b].kind != BlockStatement && IsJSXType(t[b].kind) && HasParentheses(Text(t, src, i), Text(t, src, b))
    ensures FixEditsAsWritten(t, src, i, p) == [ParamEdit(t, src, p),
      ParenthesizedEdit(t, src, i, RefField(t, i, "body").value, DestructuringPattern(t, src, p), ArrowTokenEndAsWritten(t, src, i))]
  {
    var arrowEnd := ArrowTokenEndAsWritten(t, src, i);
    FixEditsWithExpression(t, src, i, p, arrowEnd);
  }
}
