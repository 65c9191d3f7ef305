# force-destructure-props, modelled in Dafny

This project models the ESLint rule `force-destructure-props`. The rule flags a
React function component whose first parameter is an object-destructuring
pattern. Its autofix replaces the pattern by `props` and adds the line
`const <pattern> = props;` at the start of the body.

The model follows the modular copy: the visitors in `src/lib` and the helpers in
`src/utils`. The older single-file copy in `lib/rules` is mapped onto the same
members, as listed at the end of this file.

The syntax tree is an arena, `seq<NodeRec>`. Each record holds:
- the node's type, as a `Kind`;
- its properties, as a sequence of key/value fields, in the order a `for...in` loop sees them;
- an optional parent index, always smaller than the node's own index;
- the node's `[start, end)` range in the source string.

The ESLint host is replaced by functions over the source string and node ranges:
- `getText(node)` is the node's range of the source.
- `sourceCode.lines[...]` of a token is the source line holding the token's start offset.
- The first token of a block is its one-character opening brace.
- The last token of a node ends where the node ends.
- The token starting at a `=>` ends two characters later.

A report is returned as a value rather than passed to `context.report`. A fix
is the list of text edits its fixer function would produce.

Modules, in dependency order:
- `Wrappers`: `Option`.
- `SourceText`: the JavaScript string operations the rule uses, with their JavaScript semantics: `indexOf` returning -1, `slice` with negative bounds, first-occurrence `replace`, `trim`, `split`/`join`, `search(/\S/)`, `match(/^\s*/)`.
- `SyntaxTree`: the arena and its property accessors.
- `JsxPresence`: `hasJSXInNode`.
- `WrapperDetector`: `getHOCInfo`.
- `ComponentClassifier`: `isReactComponent`.
- `RenderPropExemption`: `isControllerRenderProp`.
- `FixSynthesis`: `createFix`.
- `ProblemReport`: `reportIfDestructured`.
- `ForceDestructureProps`: the two visitors.

These loops of the source are `while` loops in the model, each proved equal to a recursive definition:
- the ancestor walks of `getHOCInfo` and `isReactComponent`;
- the `baseJSXIndent` search of `createFix`.

The `for...in` and `for...of` loops of `hasJSXInNode` are the recursive predicates `ScanFields` and `ScanItems`, and the `.map` over the body's lines in `createFix` is a sequence comprehension.

Where the source builds state step by step, so does the model:
- the `let name` of `isReactComponent`;
- the `canAutofix` flag of `reportIfDestructured`;
- the `fixes` array of `createFix`.

Three behaviours of the code worth stating on their own:
- **`getHOCInfo`'s walk.** The walk does not stop at a declarator that does not match. It skips every such declarator and walks on to the root. `WrapperDetector.AncestorWrapperNearest` proves this.
- **Markup re-indentation.**
  - `baseJSXIndent` is the indentation of the first non-blank line of the body's text. That text starts with the body's first token, so the value is always 0 (`FixSynthesis.BaseIndentZero`).
  - Every later line therefore keeps its absolute indentation, shifted by the function line's indentation plus four spaces (`FixSynthesis.IndentedJSXLines`).
  - The test at `src/tests/force-destructure-props.test.js:504-531` expects exactly this output.
- **Fixes for wrapped components.** The tests at `tests/force-destructure-props.test.js:241-303` expect no fix for components wrapped in `memo` or `forwardRef`. Both copies of the code build a fix there; `src/tests/force-destructure-props.test.js:300-382` expects one.

## Model

| member | source | states |
|---|---|---|
| SourceText.Trim | src/utils/createFix.js:20 | the trimmed string is the string with its whitespace prefix and whitespace suffix removed: empty, or starting and ending with a non-whitespace character |
| SourceText.BlankIffAllSpace | src/utils/createFix.js:51 | a line trims to nothing exactly when every character is whitespace |
| SourceText.TrimSpacePrefix | src/utils/createFix.js:62 | whitespace put before a trimmed non-empty string is exactly what trimming and `search(/\S/)` discard |
| SourceText.SearchNonSpace | src/utils/createFix.js:52 | -1 exactly for an all-whitespace string; otherwise the index of the first non-whitespace character, with only whitespace before it |
| SourceText.IndexOf | src/utils/createFix.js:33-34 | -1 when the pattern occurs nowhere from the clamped start; otherwise an occurrence with none before it from that start; an empty pattern is found at the clamped start itself |
| SourceText.Split | src/utils/createFix.js:46 | at least one piece, and no piece holds the separator |
| SourceText.JoinSplit | src/utils/createFix.js:46-64 | joining the pieces of a split gives back the string |
| SourceText.SplitJoin | src/utils/createFix.js:57-64 | splitting a join of separator-free lines gives back the lines |
| SourceText.ReplaceFirstSuffix | src/utils/createFix.js:20 | removing the first occurrence of a trailing suffix that occurs nowhere earlier leaves the prefix |
| SourceText.ReplaceFirstEmpty | src/utils/createFix.js:20 | replacing the empty annotation text changes nothing |
| SourceText.LineAt | src/utils/createFix.js:25 | the line holding a token's offset: the stretch of source around it bounded by line terminators or the source's ends, holding no terminator |
| SourceText.IndentationAt | src/utils/createFix.js:25 | the longest whitespace prefix of that line: whitespace only, followed by a non-whitespace character or the line's end |
| SyntaxTree.Text | src/utils/createFix.js:31-32 | a node's text is as long as its range |
| JsxPresence.ScanItemsExists | src/utils/hasJSXInNode.js:15-20 | the loop over array items is true iff some item contains markup |
| JsxPresence.ScanFieldsExists | src/utils/hasJSXInNode.js:11-26 | the loop over properties is true iff some property other than parent, range and loc holds a node or an item containing markup |
| JsxPresence.ScanFieldsFinds | src/utils/hasJSXInNode.js:11-26 | a successful loop over properties has a visited property whose node or item contains markup |
| JsxPresence.HitMakesScanSucceed | src/utils/hasJSXInNode.js:11-26 | a visited property whose node or item contains markup makes the loop over properties succeed |
| JsxPresence.HasJSXAtChildren | src/utils/hasJSXInNode.js:4-29 | true iff the node's own type starts with JSX (its children are then not needed) or some child reached through a non-skipped property contains markup |
| JsxPresence.HasJSXReaches | src/utils/hasJSXInNode.js:11-26 | a successful search has a descent path from the node to a markup node |
| JsxPresence.ReachesHasJSX | src/utils/hasJSXInNode.js:11-26 | any descent path ending at a markup node makes the search succeed |
| JsxPresence.HasJSXIffReachable | src/utils/hasJSXInNode.js:11-26 | the search succeeds iff markup is reachable, through nested functions too |
| WrapperDetector.CalleeWrapper | src/utils/getHOCInfo.js:5-16 | a bare `Identifier` named `memo` or `forwardRef` gives that name, not `React`-named; `React.memo` or `React.forwardRef` gives the property's name, `React`-named; any match has one of these two shapes |
| WrapperDetector.WalkForWrapper | src/utils/getHOCInfo.js:19-39 | the `while (current)` loop answers the recursive ancestor walk |
| WrapperDetector.GetHOCInfo | src/utils/getHOCInfo.js:4-40 | the answer is the direct match, else the walk from the parent |
| WrapperDetector.AncestorWrapperNearest | src/utils/getHOCInfo.js:19-38 | the walk answers the nearest matching declarator on the ancestor chain, skipping declarators that do not match, and answers null iff none matches |
| WrapperDetector.AncestorWrapperNoneIff | src/utils/getHOCInfo.js:19-39 | the walk answers null iff no declarator on the ancestor chain matches |
| WrapperDetector.AncestorWrapperFirst | src/utils/getHOCInfo.js:19-38 | an answer of the walk is the first matching declarator on the chain, every earlier one failing to match |
| WrapperDetector.HocInfoNullIff | src/utils/getHOCInfo.js:5-39 | null iff neither the parent call nor any declarator ancestor matches; a non-null type is `memo` or `forwardRef` |
| ComponentClassifier.DeclaredName | src/utils/isReactComponent.js:7-17 | a declaration's `id` name; for an arrow, the `id` name of a parent declarator, else of the declarator holding a parent call; otherwise none |
| ComponentClassifier.IsReactComponent | src/utils/isReactComponent.js:6-76 | the step-by-step name, the early returns and the ancestor loop answer the ordered rules of `IsComponent` |
| ComponentClassifier.LowercaseNameIsNotComponent | src/utils/isReactComponent.js:19-22 | a name starting with a lower-case letter rules the function out before any other check |
| ComponentClassifier.DirectCallRule | src/utils/isReactComponent.js:24-42 | an arrow passed to a call is a component iff the callee is a wrapper; a wrapper is then also what `getHOCInfo` finds |
| ComponentClassifier.ArrowWalkRule | src/utils/isReactComponent.js:44-75 | any other arrow is a component iff `getHOCInfo` is non-null or its body contains markup |
| ComponentClassifier.FunctionDeclarationRule | src/utils/isReactComponent.js:9-75 | a declaration skips both wrapper checks: a component iff its name is not lower-case and its body contains markup |
| RenderPropExemption.ControllerCheckSubsumed | src/utils/isControllerRenderProp.js:7-48 | the `Controller`/`render` check implies the third check, so dropping it changes nothing |
| RenderPropExemption.ExemptPositions | src/utils/isControllerRenderProp.js:4-51 | exempt iff a child container of a listed children-render element, or a listed attribute of a listed element; never outside a `JSXExpressionContainer` |
| RenderPropExemption.SubscriptionOnlyAsChildren | src/utils/isControllerRenderProp.js:25-45 | `Subscription` never exempts through an attribute |
| FixSynthesis.PropsParamText | src/utils/createFix.js:13-17 | both branches give `props` followed by the annotation text |
| FixSynthesis.AllBlankIndentZero | src/utils/createFix.js:49-55 | the base indentation stays 0 when every line is blank |
| FixSynthesis.BaseJSXIndent | src/utils/createFix.js:49-55 | the loop with `break` answers the first non-blank line's indentation |
| FixSynthesis.BaseIndentIsFirstNonBlank | src/utils/createFix.js:49-55 | the base indentation is that of the first non-blank line, and non-negative |
| FixSynthesis.BlankLinesSkipped | src/utils/createFix.js:50-54 | blank lines before the first non-blank one do not change the base indentation |
| FixSynthesis.FixEditsWithByKind | src/utils/createFix.js:22-91 | per function kind and body type: which edits the fix holds, for any end of the arrow token |
| FixSynthesis.FixEditsByKind | src/utils/createFix.js:22-91 | the same, for the fix the model uses |
| FixSynthesis.FixEditsWithBlock | src/utils/createFix.js:23-27 | a block body gets the parameter edit and the insertion after its opening brace |
| FixSynthesis.FixEditsWithExpression | src/utils/createFix.js:28-84 | an expression body gets the parameter edit and the expression edit |
| FixSynthesis.ParenthesizedFix | src/utils/createFix.js:39-71 | the split, base indentation, re-indent and join build the replacement from the arrow token's end to the function's end |
| FixSynthesis.BodyFix | src/utils/createFix.js:22-91 | the branches pick the body edit for the function's kind and body |
| FixSynthesis.CreateFix | src/utils/createFix.js:6-96 | the pushed edits are the parameter edit then the body edit; they do not depend on `getHOCInfo` |
| FixSynthesis.FixEditsDisjoint | src/utils/createFix.js:8-91 | an arrow or a declaration gets exactly two edits: `props` plus the annotation over the parameter's range, then a body edit after it, inside the source, and the two do not overlap |
| FixSynthesis.BodyEditAfterParam | src/utils/createFix.js:22-91 | an arrow or a declaration has a body edit, lying after the parameter and inside the source |
| FixSynthesis.ArrowTokenAfterHead | src/utils/createFix.js:41-42 | the corrected search finds the arrow token after the head; that it ends before the body is the parser guarantee `FunctionShape` assumes |
| FixSynthesis.BlockInsertDeclares | src/utils/createFix.js:24-27 | the insertion after the opening brace holds `const <pattern> = props;` |
| FixSynthesis.RewrapDeclares | src/utils/createFix.js:72-84 | the block replacing an expression body holds `const <pattern> = props;` |
| FixSynthesis.ParenthesizedBodyDeclares | src/utils/createFix.js:66 | the block replacing a parenthesised markup body holds `const <pattern> = props;` on its second line |
| FixSynthesis.BodyEditAtDeclares | src/utils/createFix.js:22-91 | an arrow or a declaration always gets a body edit, and it declares the pattern |
| FixSynthesis.BodyEditDeclaresPattern | src/utils/createFix.js:22-91 | the second edit of the fix declares the pattern from `props` |
| FixSynthesis.PatternDropsAnnotation | src/utils/createFix.js:20 | with an annotation closing the parameter and not occurring earlier in it, the pattern is the trimmed text before the annotation |
| FixSynthesis.PatternWithoutAnnotation | src/utils/createFix.js:20 | without an annotation, the pattern is the trimmed parameter text |
| FixSynthesis.BeforeAfterSplit | src/utils/createFix.js:33-34 | when the body text is found, the text before it, the body and the text after it make up the function text |
| FixSynthesis.BaseIndentZero | src/utils/createFix.js:46-55 | the base indentation of a body text starting with a non-space character is 0 |
| FixSynthesis.ReindentLineShape | src/utils/createFix.js:59-62 | a re-indented non-blank line keeps its content and is indented by the function line's indentation, four spaces and its indentation beyond the base |
| FixSynthesis.ReindentKeepsRelativeIndent | src/utils/createFix.js:60-62 | two lines indented at least the base keep their indentation difference |
| FixSynthesis.ReindentLineNoBreak | src/utils/createFix.js:57-64 | re-indenting adds no line break |
| FixSynthesis.IndentedJSXLines | src/utils/createFix.js:46-64 | the re-indented markup has exactly the body's lines: blank ones unchanged, others with their content and absolute indentation plus the function line's indentation and four spaces |
| FixSynthesis.ArrowSearchAgrees | src/utils/createFix.js:41-42 | with no `=>` before the end of the head, the search as written and the corrected one find the same token and the fixes agree |
| FixSynthesis.AsWrittenSearchStopsInParam | src/utils/createFix.js:41-42 | a `=>` inside the parameter's text is what the search as written finds |
| FixSynthesis.ArrowInParamOverlaps | src/utils/createFix.js:39-71 | as written, a `=>` inside the parameter makes the two edits of a parenthesised markup fix overlap |
| FixSynthesis.AsWrittenParenthesizedFix | src/utils/createFix.js:39-71 | as written, a parenthesised markup body's edit starts where the first `=>` of the function text ends |
| ProblemReport.ReportIfDestructured | src/utils/reportIfDestructured.js:6-30 | one report on the parameter with `noDestructuringInParams`; a fix iff `canAutofix` as written, and then the `createFix` edits |
| ProblemReport.AutofixAllowed | src/utils/reportIfDestructured.js:9-18 | the `canAutofix` flag is false iff the function is an arrow with a non-block body, the text before the body ends with `(` and the body starts with `{` |
| ProblemReport.BlockBodyAlwaysFixed | src/utils/reportIfDestructured.js:11-27 | declarations and block-bodied arrows always get a fix |
| ProblemReport.BodyFoundInPlace | src/utils/reportIfDestructured.js:12-14 | when the body text does not occur earlier, the text before it is the source from the function's start to the body's start |
| ProblemReport.ParenthesizedObjectNotFixed | src/utils/reportIfDestructured.js:9-18 | an object-literal body right after `(` gets no fix, as written or corrected |
| ProblemReport.CanAutofixCorrection | src/utils/reportIfDestructured.js:9-18 | the corrected test withholds the fix in every case the original does, and additionally exactly for a parenthesised non-markup body |
| ProblemReport.AsWrittenRewrapsInsideParens | src/utils/reportIfDestructured.js:9-27 | as written, a parenthesised non-markup, non-object body gets a fix whose replacement starts with `{` between `(` and `)` |
| ProblemReport.RewrapOfExpression | src/utils/createFix.js:78-84 | a non-markup expression body gets the parameter edit and the rewrap |
| ProblemReport.NoRewrapInsideParens | src/utils/createFix.js:36-71 | with the corrected test, a fixed parenthesised expression body is markup and its edit replaces everything from the arrow token to the function's end, parentheses included |
| ForceDestructureProps.ReportTarget | src/lib/force-destructure-props.js:32-42 | the reported node is the function's first parameter, and an object pattern |
| ForceDestructureProps.VisitArrowFunction | src/lib/force-destructure-props.js:23-44 | the visitor's branches report what `ArrowReports` describes |
| ForceDestructureProps.VisitFunctionDeclaration | src/lib/force-destructure-props.js:45-53 | the visitor's branches report what `DeclarationReports` describes |
| ForceDestructureProps.ArrowReportedIff | src/lib/force-destructure-props.js:23-44 | at most one report; exactly one iff component, not exempt, one or two parameters, the first an object pattern; then it is on `params[0]` with the rule's message, and carries a fix iff `canAutofix` as written |
| ForceDestructureProps.DeclarationReportedIff | src/lib/force-destructure-props.js:45-53 | the same for declarations, without the exemption: on `params[0]` with the rule's message, and a declaration's report always carries a fix |
| ForceDestructureProps.RenderPropNotReported | src/lib/force-destructure-props.js:26-28 | an exempt render prop is never reported |
| ForceDestructureProps.ParameterCountOutOfRange | src/lib/force-destructure-props.js:32-51 | no parameter, or three or more, means no report |
| ForceDestructureProps.ReportedFixIsWellFormed | src/utils/reportIfDestructured.js:25-27 | a reported fix is two non-overlapping edits, `props` over the pattern and a body edit declaring it |

The single-file copy `lib/rules/force-destructure-props.js` maps onto the same members:
- Lines 18-34: `ComponentClassifier.DeclaredName` and `ComponentClassifier.LowercaseNameIsNotComponent`.
- Lines 36-61: `JsxPresence`.
- Lines 63-115: `ComponentClassifier.IsReactComponent` and its rule lemmas.
- Lines 117-171: `RenderPropExemption`, with the same lists and checks.
- Lines 173-185: the `canAutofix` test of `ProblemReport`.
- Lines 187-223: `WrapperDetector.GetHOCInfo`.
- Lines 227-232 and 328: the report of `ProblemReport.ReportIfDestructured`.
- Lines 233-325: `FixSynthesis.CreateFix`. The `=>` search at lines 274-275 is the first finding.
- Lines 331-362: `ForceDestructureProps`.

In the single-file copy, the fix is a function built inside the report, and `getHOCInfo` runs before it. Neither changes the edits.

## Left out

- The ESLint host (`context.report`, the `fixer` object, `RuleTester`, the rule's `meta` and message text, the configuration in `index.js`): not part of the rule; reports and edits are returned as values.
- The token and line API (`getFirstToken`, `getLastToken`, `getTokenByRangeStart`, `lines`): replaced by the range functions described above; comments between tokens are not represented.
- Parser guarantees: assumed as `FixSynthesis.FunctionShape` (ranges inside the source, body after the head and inside the function, a declaration's body a block, a `=>` between an arrow's head and body), because no parser is in scope.
- Whether the fixed text parses or behaves the same: no grammar is modelled; the lemmas state what the edits are, where they lie and that they do not overlap.
- Character classes and offsets: offsets index a Dafny `string`, not UTF-16 code units; `\s` is its ASCII part and `/^[a-z]/` an ASCII range test.
- Non-node objects among property values (a regular-expression value, say): not represented; `hasJSXInNode` never descends into strings or scalars, and the model visits only node and node-array values.
- The `secondParam` text of the single-file copy's `forwardRef` branch (lines 241-242): computed but never used, so not modelled.
- `tests/require-props-destructuring.test.js`: it tests a rule file, `lib/rules/require-props-destructuring`, that is not part of this model.
- FixSynthesis.CreateFix, FixSynthesis.ParenthesizedFix and FixSynthesis.BodyFix: follow the corrected arrow search of the first finding, starting after the head rather than at `functionText.indexOf('=>')`; the search as written is `FixSynthesis.ArrowTokenEndAsWritten`, used by `FixSynthesis.FixEditsAsWritten` and `FixSynthesis.AsWrittenParenthesizedFix`. The fix that `ProblemReport.ReportIfDestructured`, `ForceDestructureProps.ReportFor`, `ArrowReports`, `VisitArrowFunction` and `ReportedFixIsWellFormed` carry is therefore the corrected one: where a `=>` in the parameter, in a type annotation or in a default value such as `({ f = () => 1 }) => (<div />)`, would give overlapping edits that ESLint rejects, these members return two disjoint edits.
- FixSynthesis.ArrowTokenEndAsWritten: when the first `=>` of the function text lies inside a string or a comment, as in `({ sep = "=>" }) => (<div />)`, `getTokenByRangeStart` finds no token there and reading its `range` throws a `TypeError`; the model has no tokens, so it answers the offset after that `=>` instead of the error.

## Findings

| source | as written | input that shows it | evidently intended | confidence | as-written member | corrected member |
|---|---|---|---|---|---|---|
| src/utils/createFix.js:41-42 | the arrow token is found by `functionText.indexOf('=>')`, which stops at a `=>` inside the parameter's type annotation | `const C = ({ f }: { f: () => void }) => (\n  <div />\n);`: the body edit starts inside the parameter, overlapping the parameter edit, and ESLint rejects the fix | search for `=>` after the parameters and the return type | high; not executed | FixSynthesis.ArrowInParamOverlaps | FixSynthesis.FixEditsDisjoint |
| src/utils/reportIfDestructured.js:9-18 | the fix is withheld only for a body starting with `{` right after `(`; other parenthesised non-markup bodies are rewrapped inside the parentheses | `const C = ({ a }) => (a ? <A /> : <B />);` becomes `(props) => ({ const { a } = props; return a ? <A /> : <B />; })`, an object literal holding a statement | withhold the fix for parenthesised bodies, as the test comment at src/tests/force-destructure-props.test.js:384 says | medium; not executed | ProblemReport.AsWrittenRewrapsInsideParens | ProblemReport.NoRewrapInsideParens |
