# Proofs about a browser engine's algorithmic cores

This project models ten self-contained cores of the engine in Dafny and proves what they are for.
`dafny verify dfyconfig.toml` verifies it. Code that changes state in C is a class or a method
here, proved against functions that say what it computes; the laws are lemmas about these functions.

| Core | Files | Main result |
|---|---|---|
| DOM tree and its indexes (`src/dom.c`) | `DomTree`, `DomEdit`, `DomOrder`, `DomLists`, `DomIndex`, `DomDocument`, `DomMove`, `DomMeaning` | document order is the preorder; the incremental class and tag indexes stay equal to a rebuild through insertion anywhere, removal and class changes, with the exact condition for each, and list under a class or a name exactly the elements one would find by it |
| CSS parser and scanner (`src/css_syntax.c`) | `CssTokens`, `CssParser`, `CssScan`, `CssSpans`, `CssLanguage`, `CssNumbers`, `CssPrinted` | the parser decides an unambiguous grammar of longest tokens, and reads every structure back from its text; the scanner, which shares no code with it, sees the same top-level structure exactly to the depth of its stack |
| Media queries (`src/css_media.c`) | `MediaText`, `MediaFeature`, `MediaQuery`, `MediaParser`, `MediaRound`, `MediaFeatureRound`, `MediaListRound`, `MediaMeaning` | what lists written out mean; printing a list and parsing it again keeps its truth in every environment, but for negative resolutions, whose effect is exact |
| Symbolic `calc()` (`src/css_prop_syntax.c`) | `CalcValue`, `CalcEval`, `CalcMachine`, `CalcMeaning`, `CalcNumbers`, `CalcUnits`, `CalcText`, `CalcPx` | the vector of unit coefficients means what the expression means, from its text on |
| Dates and ISO weeks (`src/datetime.c`) | `CivilDate`, `IsoWeek` | both conversions undo each other for all days and all dates; every Monday belongs to exactly one week |
| Animation engine (`src/anim.c`) | `AnimModel`, `AnimStates`, `AnimStyles`, `AnimRuns`, `AnimEngine`, `AnimEnds`, `AnimTimes` | the capped counter and the tracked set stay right through every operation; over any course of operations a run tells its story, each event at the first tick when its time has come, and a transition its end, once |
| EventSource client (`src/eventsource.c`) | `EsProtocol`, `EsStream`, `EsParser`, `EsTransfer`, `EsPrinted` | reference counting, silence after `free` and its return in every interleaving; what is sent is received, in whatever chunks |
| Content filter (`src/ext.c`) | `FilterPattern`, `FilterUrl`, `FilterText`, `FilterDecision` | the matcher decides the filter language, whose filters select what they say; the host index stands for its rules under an exact condition |
| Tree conversion (`src/html_lexbor.c`) | `TreeCopy`, `TreeContent` | the worklist builds exactly the recursive copy, as a tree without sharing, and the copy keeps the content |
| Image cache (`src/image.c`) | `ImageModel`, `ImageRuns`, `ImageCache` | byte accounting, one request per image, at most three for an address whose picture stays, and eviction oldest first |

`Ascii`, `Decimals`, `Wrappers`, `Numbers` and `MapSums` are shared.

How the models are made:

- A DOM tree on the heap is read into a map of cells, one for the links of every node, and a ghost tree
  says what the links spell out. Indexes are maps from keys to sequences of nodes.
- The callers of the index functions are in `src/js.c`: lines 27392-27405 link a node in before a sibling
  (`DomEdit.AttachBefore`), lines 22909-22944 walk an added or removed subtree into the indexes, and lines
  23036-23042 move an element whose class attribute has changed.
- A parser's cursor is an offset or the text that is left. Text is a sequence of characters, each one byte.
- Doubles are real numbers. `number` stands for strtod, `g` for printing by `%g`, `calcValue` for the value
  of a media query's calc() expression, and `other` for a filter rule's conditions that are not modelled.
- The two threads of the EventSource client are a state machine whose steps are single accesses to the
  shared object; a run is any interleaving of enabled steps.

## Findings

Properties that one would expect and that the code does not have, each with an input and with the exact
condition under which it does hold:

- An index can disagree with a rebuild. A subtree put at a place that the index walk does not reach (below a
  template or a scope boundary) is registered all the same: `DomDocument.AppendUnderTemplate` runs into it.
  `DomDocument.Document.Insert` and `SetClass` give the condition for agreement, both ways; removal always
  agrees.
- The scanner of CSS text loses count on brackets nested more than 128 deep (`CssSpans.ScannerLosesCount`),
  and only then (`CssSpans.TrustedDepth`).
- A media query list with a negative resolution, which only a calc() expression can have, can match while its
  serialization does not (`MediaListRound.NegativeResolutionExample`): such a feature is read back as text that
  is not understood. `MediaListRound.RoundTripAnywhere` says what every list then matches,
  `MediaListRound.SingleFeatureExactly` when a feature keeps its truth, both ways.
- The EventSource parser does not drop a byte order mark, as section 9.2.6 of the WHATWG HTML standard asks.
  `EsTransfer.MarkHarmless` says for which first lines that makes no difference, `MarkHidesFirstField` that
  it does for every line of data.
- The host index and the `||host^` filters it stands for can disagree, for instance on a URL with user
  information (`FilterUrl.UserInfoHidesHost`). `FilterUrl.IndexAgreesExactly` gives the condition on the
  URL, and `FilterDecision.IndexNotRule` shows the decision itself to differ on every other URL.
- An animation paused within its delay and resumed loses what was left of the delay
  (`AnimModel.PauseEndsDelay`); `AnimModel.ResumeExactly` gives the condition for going on exactly.
- An animation that replaces one which has started and not ended is never said to start
  (`AnimEngine.ReplacedRun`). `AnimRuns.StoryToldExactly`: a run tells its whole story if and only if it did not
  take over from such a one.
- The EventSource retry field departs from the WHATWG HTML standard: a time of zero is not taken and one above a
  day is cut (`EsStream.RetryDiffers`). `EsStream.RetryExactly` says after which lists of values the time is the
  standard's, both ways.
- A picture that was thrown out of the image cache and gets no answer when it is asked for again is never
  requested again, for the image keeps the status of the answer before (`ImageRuns.ThrownOutLost`), while an
  image without any answer before is. `ImageRuns.ThrownOutExactly` says when it is lost, both ways.

## Model

| member | source | states |
|---|---|---|
| `DomEdit.Detach` | src/dom.c:945-962 | the new cell of every node: the neighbours are linked to each other, the parent's first and last child follow, the node itself loses parent and siblings; a parentless node changes nothing; only link fields are written |
| `DomEdit.Attach` | src/dom.c:964-978 | the linking half of an append: the new cell of every node, the parentless child becoming the last child |
| `DomEdit.DetachLinked` | src/dom.c:945-962 | on a linked tree, what detach leaves in the cells spells out the tree without the subtree, every link of every remaining node included |
| `DomEdit.DetachedLinked` | src/dom.c:945-962 | the subtree taken out is itself a linked tree with a parentless root |
| `DomEdit.AttachLinked` | src/dom.c:964-978 | linking a detached tree in at any place, last or before a child at any depth, gives cells that spell out the tree with the subtree at that place |
| `DomMove.MoveKeepsLinks` | src/dom.c:964-978 | detaching a node and linking it in at any place of the rest leaves one whole tree over the same nodes |
| `DomMove.MoveIntoSelfLoops` | src/dom.c:964-978 | a move to a place inside the moved subtree ties a loop: no whole tree contains the moved node afterwards |
| `DomMove.MoveExactly` | src/dom.c:964-978 | an append of a node that hangs in the tree leaves it in some whole tree if and only if the new parent is not inside the moved subtree |
| `DomOrder.DocumentOrderCmp` | src/dom.c:1488-1520 | for any two nodes of one whole tree at most 512 high: the sign of the difference of their places in the preorder list, ancestors included |
| `DomOrder.SiblingOrder` | src/dom.c:1506-1519 | the scan from both siblings at once tells which child number is smaller |
| `DomOrder.Ancestor` | src/dom.c:1488-1520 | when the climb from the deeper node reaches the other, the shallower one comes first in preorder |
| `DomOrder.Fork` | src/dom.c:1488-1520 | where two paths part, the order of the two siblings there is the preorder of the two nodes |
| `DomTree.PathLessIsPosLess` | src/dom.c:1488-1520 | paths in lexicographic order stand in preorder, which makes the comparator a strict total order |
| `DomLists.OrderedInsert` | src/dom.c:1524-1551 | the list that selects some nodes of the preorder becomes the list that selects them and the new one: in order, without duplicates, whether the node goes to the end, to the middle or is already there |
| `DomLists.FindPlace` | src/dom.c:1538-1550 | the binary search finds the node, or the only gap where everything before comes earlier in document order and everything after later |
| `DomLists.InsertInOrder` | src/dom.c:1524-1551 | splicing a node in at such a gap is selecting one node more |
| `DomIndex.Index.RegisterTokens` | src/dom.c:1610-1622 | exactly the pairs of the node with the white-space separated tokens of the text join the table |
| `DomIndex.Index.UnregisterTokens` | src/dom.c:1624-1636 | exactly these pairs leave it; a list that has run empty counts as no list |
| `DomIndex.Index.AddKey` | src/dom.c:1553-1577 | one pair joins the table and every list stays in tree order |
| `DomIndex.Index.RemoveKey` | src/dom.c:1579-1602 | one pair leaves the table |
| `DomIndex.Index.AddSubtree` | src/dom.c:1638-1650 | the pairs of exactly the visible nodes of the subtree join: nothing at or below a scope boundary, nothing below a template |
| `DomIndex.Index.RemoveSubtree` | src/dom.c:1652-1664 | the pairs of the nodes visible in the detached subtree leave |
| `DomIndex.Index.Build` | src/dom.c:1666-1679 | the table lists exactly the pairs of the visible nodes of the document |
| `DomDocument.ListsIsRebuilt` | src/dom.c:1763-1776 | the incremental account and a fresh preorder walk of the visible nodes are the same table, up to empty lists |
| `DomDocument.ListsUnique` | src/dom.c:1763-1776 | a table determines the set of pairs it lists |
| `DomDocument.OpenMeans` | src/dom.c:1339-1346 | the walk reaches the children of a node if and only if the node is visible and no template |
| `DomDocument.VisInsert` | src/dom.c:1681-1686 | visible after an insertion: what was, and the subtree's own visible nodes if the place is open to the walk |
| `DomDocument.VisRemove` | src/dom.c:1688-1693 | visible before a removal: what still is, and the subtree's visible nodes if the place was open |
| `DomDocument.RemovePairs` | src/dom.c:1688-1693 | taking out the pairs found by walking the detached subtree leaves exactly the pairs of the remaining tree |
| `DomDocument.InsertRebuilt` | src/dom.c:1681-1686 | after an insertion and the walk of the subtree the table is a rebuild if and only if the place is open or the subtree has nothing to index |
| `DomDocument.Document.BuildIndexes` | src/dom.c:1763-1776 | both tables agree with the tree afterwards |
| `DomDocument.Document.Insert` | src/dom.c:1681-1686 | a detached subtree put at any place, last or before a child: the tree is the old one with the subtree there, every node keeps its name and attributes, and each table that agreed still does if and only if the place is open to the walk or the subtree has nothing to index |
| `DomDocument.Document.InsertBefore` | src/dom.c:1778-1783 | the same, before a given child |
| `DomDocument.Document.Append` | src/dom.c:1778-1783 | the same, as last child |
| `DomDocument.Document.Remove` | src/dom.c:1785-1790 | the tree without the subtree; both tables that agreed still agree, wherever the node was, and the subtree comes off as a whole tree |
| `DomDocument.Document.SetClass` | src/dom.c:1610-1636 | the attribute changes and the class table still agrees if and only if the element is visible or the new value has no token; the tag table agrees in any case |
| `DomDocument.AppendUnderTemplate` | src/dom.c:1778-1783 | a run on record after which the built tag table disagrees with a rebuild: an element appended under a template |
| `DomMeaning.ListedExactly` | src/dom.c:1666-1679 | a table that agrees with the tree lists a node under a key if and only if the node can be found (no inner document or shadow root on the way to it, itself included, and no template above it) and has the class, or the name in small letters; the list is in document order |
| `DomMeaning.VisibleExactly` | src/dom.c:1339-1346 | the walk visits a node if and only if there is neither a boundary on the path to it, itself included, nor a template above it |
| `DomMeaning.DividedTokens` | src/dom.c:1610-1622 | the tokens of a class attribute with a blank in it are those before the blank and those after it |
| `DomMeaning.OneToken` | src/dom.c:1610-1622 | a word without blanks is its own only token |
| `CssParser.ParseValues` | src/css_syntax.c:331-342 | for every input: the parser ends, says valid if and only if the input is a list of component values by the grammar, and then returns the one list it is |
| `CssParser.Parser.ParseList` | src/css_syntax.c:304-329 | from any offset: a list up to the closing bracket or the end, or proof that none begins there |
| `CssParser.Parser.Consume` | src/css_syntax.c:258-302 | the component value that begins at the offset, or proof that none does |
| `CssParser.Parser.ConsumeString` | src/css_syntax.c:168-202 | the string token with its raw content, or invalid exactly when a newline breaks it off |
| `CssParser.ListUnique` | src/css_syntax.c:304-329 | the grammar is unambiguous: two readings of a list from one place are the same list with the same end |
| `CssTokens.FindEscapeEnd` | src/css_syntax.c:32-52 | up to six hexadecimal digits and one white space after them, or one character, or nothing before a newline |
| `CssTokens.FindNumberEnd` | src/css_syntax.c:109-131 | the sign, digits, fraction and exponent taken by the loop are those of the recursive reading of a number |
| `CssNumbers.NumberIsLongest` | src/css_syntax.c:109-131 | where a number starts, what is read is a numeral (a sign perhaps, digits with a fraction perhaps or a fraction alone, an exponent perhaps), and no longer stretch from there is one |
| `CssNumbers.NumberStartsExactly` | src/css_syntax.c:95-107 | a number starts if and only if some numeral stands there |
| `CssLanguage.EscapeIsLongest` | src/css_syntax.c:32-52 | after a backslash the longest escape is read, if there is any |
| `CssLanguage.NameIsLongest` | src/css_syntax.c:54-71 | what is read as a name is one, and no longer stretch from there is |
| `CssLanguage.StringStopsThere` | src/css_syntax.c:168-202 | a string stops at the one place where one can, its first quote that is not escaped or the end of the input, and is broken off if there is none |
| `CssLanguage.CommentEndsFirst` | src/css_syntax.c:151-163 | a comment ends behind the first closing mark after its opening, or with the input |
| `CssPrinted.PrintedIsRead` | src/css_syntax.c:331-342 | for every nested structure of numbers, percentages, dimensions, names, at-keywords, hashes, strings, single marks, comments, functions and blocks, with a space between neighbours: its text is a value, and the only list of components it parses to is that structure, with its raw texts and spans |
| `CssPrinted.DimensionExactly` | src/css_syntax.c:204-227 | any numeral followed by any unit is the one dimension of that number and that unit if and only if the unit does not go on with the numeral as an exponent |
| `CssScan.Scan` | src/css_syntax.c:344-392 | the one-pass loop with its 128 bracket array stops where the scan on a sequence stack stops, and returns the terminator found there |
| `CssScan.ComponentMoves` | src/css_syntax.c:344-392 | the scan passes over any component value, nested as deep as the stack has room, with its stack unchanged |
| `CssScan.ScannerAgrees` | src/css_syntax.c:344-392 | on every valid NUL-free input nested at most 128 deep the scan for `;`, `,` or `:` stops at the start of the parser's first top-level component of that kind, or at the end |
| `CssSpans.TrustedDepth` | src/css_syntax.c:344-392 | for any set of these terminators and any n: the scan agrees with the parser on all valid inputs nested at most n deep if and only if there is no terminator or n is at most 128 |
| `CssSpans.ScannerLosesCount` | src/css_syntax.c:344-392 | on n opening brackets with n > 128 the scan stops at a separator that is inside the outermost bracket |
| `CssSpans.TowerIsValue` | src/css_syntax.c:331-342 | that same input is one valid component value nested n deep, with no separator outside it |
| `CssSpans.ListSpans` | src/css_syntax.c:304-329 | siblings are ordered and disjoint, lie inside their list, and only comments stand between them |
| `CssSpans.ComponentSpan` | src/css_syntax.c:258-302 | a component is not empty, and its children lie strictly inside it unless the input ends first |
| `CssSpans.Tiled` | src/css_syntax.c:331-342 | a valid input without comments is the concatenation of its top-level spans |
| `MediaParser.ParseInParens` | src/css_media.c:720-762 | the loop-based parser of a term computes the recursive reading of it, cursor included |
| `MediaParser.ParseCondition` | src/css_media.c:764-813 | the same for a condition |
| `MediaParser.ReadFeature` | src/css_media.c:616-715 | the same for what stands between the parentheses of a feature |
| `MediaParser.ReadQuery` | src/css_media.c:823-871 | the same for one query, with its media type and prefix |
| `MediaParser.FindOperator` | src/css_media.c:574-598 | the first comparison outside parentheses, its operator and its length |
| `MediaParser.SplitNext` | src/css_media.c:1052-1071 | the first comma outside parentheses and brackets |
| `MediaParser.CloseAt` | src/css_media.c:279-289 | where the open parenthesis closes |
| `MediaParser.Evaluate` | src/css_media.c:985-1014 | the folds over the children compute the three-valued value of the tree |
| `MediaParser.MatchList` | src/css_media.c:1073-1091 | an empty list matches, any other if and only if some query in it is true |
| `MediaMeaning.PrefixMeans` | src/css_media.c:616-715 | a feature with min- is true, false or unknown as the feature compared by at least, one with max- as at most, one without as equal, for every feature, value and environment |
| `MediaMeaning.WidthMatches` | src/css_media.c:1073-1091 | the texts (min-width: x), (max-width: x) and (width: x), for any decimal x with any length unit, match if and only if the viewport is at least, at most, exactly as wide as the pixels of x |
| `MediaMeaning.HeightMatches` | src/css_media.c:1073-1091 | the same for the height |
| `MediaMeaning.DeviceWidthMatches` | src/css_media.c:1073-1091 | the same for the width of the device |
| `MediaMeaning.DeviceHeightMatches` | src/css_media.c:1073-1091 | the same for the height of the device |
| `MediaMeaning.WidthCompared` | src/css_media.c:1073-1091 | the text of the width compared with a length by any of the operators matches if and only if the comparison holds |
| `MediaMeaning.ComparedWidth` | src/css_media.c:616-715 | the same with the length first |
| `MediaMeaning.WidthBetween` | src/css_media.c:616-715 | the width between two lengths matches if and only if both comparisons hold |
| `MediaMeaning.UnitRatios` | src/css_media.c:309-330 | 1in = 2.54cm = 25.4mm = 101.6q = 72pt = 6pc = 96px, and a hundred vw and vh are the viewport |
| `MediaMeaning.RatioMatches` | src/css_media.c:1073-1091 | (min-aspect-ratio: a / b) matches if and only if width times b is at least a times height |
| `MediaMeaning.OrientationMatches` | src/css_media.c:873-903 | landscape is at least as wide as high, portrait is higher than wide |
| `MediaMeaning.SchemeMatches` | src/css_media.c:873-903 | the scheme asked for is the one the user prefers |
| `MediaMeaning.ReducedMatches` | src/css_media.c:873-903 | reduced motion is asked for if and only if the user prefers it |
| `MediaMeaning.MeaningSettled` | src/css_media.c:985-1014 | the three-valued value of a condition is true, or false, if and only if it is so whatever its unknown parts are |
| `MediaMeaning.QueryHolds` | src/css_media.c:1042-1050 | a query is true if and only if its media type fits and its condition is true, or with not in front of it, if the type does not fit or the condition is false |
| `MediaMeaning.MatchesMeans` | src/css_media.c:1073-1091 | a list matches if and only if it is empty or some query of it holds so |
| `MediaMeaning.CommaMatches` | src/css_media.c:1073-1091 | two texts with a comma between them match if and only if one of them does |
| `MediaParser.PrintCondition` | src/css_media.c:1128-1187 | the appended text is the recursive text of the tree |
| `MediaParser.PrintList` | src/css_media.c:1211-1232 | the queries' texts with commas between them |
| `MediaFeatureRound.ParseTestWell` | src/css_media.c:616-715 | whatever is parsed as a feature is well made: a known feature, values of its type, operators in one direction |
| `MediaFeatureRound.PrintedTest` | src/css_media.c:1093-1113 | a feature whose values are decimals that `%g` prints exactly, printed and parsed, is the same feature if and only if it has no negative resolution, and else is no feature |
| `MediaFeatureRound.ShortReads` | src/css_media.c:1093-1113 | what `%g` prints of a decimal of at most six digits is read back as the same number, whatever unit follows |
| `MediaFeatureRound.ReadNumberReadsDecimals` | src/css_media.c:451-461 | reading decimal numerals with a point and without meets what the round trip asks of strtod |
| `MediaRound.ConditionWell` | src/css_media.c:764-813 | every parsed condition is well formed and so shallow that the depth guards of evaluator and printer never fire on it |
| `MediaRound.EvalIsMeaning` | src/css_media.c:985-1014 | on such trees the guarded evaluation is the plain three-valued meaning, from whatever depth it starts |
| `MediaRound.PrintIsText` | src/css_media.c:1128-1187 | on such trees the guarded printing is the plain text |
| `MediaRound.RoundTerm` | src/css_media.c:1128-1187 | a printed term is parsed back to itself, with negative resolutions left as text that is not understood, whatever text follows |
| `MediaRound.RoundCondition` | src/css_media.c:1128-1187 | the same for a printed condition |
| `MediaListRound.RoundQuery` | src/css_media.c:1189-1209 | a printed query is parsed back to one that has in every environment the truth of the query with its negative resolutions not understood |
| `MediaListRound.RoundTripAnywhere` | src/css_media.c:1211-1232 | a list parsed in one environment, printed, and parsed in any other matches there if and only if some query of the list as first parsed, with its negative resolutions not understood, is true there |
| `MediaListRound.RoundTrip` | src/css_media.c:1211-1232 | without negative resolutions, printing a list and parsing it again gives the same match result |
| `MediaListRound.SingleFeatureExactly` | src/css_media.c:1093-1113 | printing a list of one feature keeps its truth in every environment if and only if the feature has no negative resolution, or is not true of one dot per pixel all the same |
| `MediaListRound.NegativeResolutionLosesTruth` | src/css_media.c:1093-1113 | a resolution compared by any operator with a negative calc() value matches if and only if the operator asks for more, and its serialization never does |
| `CalcMachine.MathValue.AddValue` | src/css_prop_syntax.c:146-168 | the accumulator becomes the sum with the sign if the kinds fit, and else stays as it was |
| `CalcMachine.MathValue.Scale` | src/css_prop_syntax.c:138-144 | every coefficient of the accumulator is multiplied, its kind stays |
| `CalcMachine.EvalTerm` | src/css_prop_syntax.c:431-456 | accepted if and only if the operand reads and its kinds fit, with the accumulator and the cursor the reading gives |
| `CalcMachine.EvalProduct` | src/css_prop_syntax.c:458-497 | the same for a product |
| `CalcMachine.EvalSum` | src/css_prop_syntax.c:499-526 | the same for a sum |
| `CalcEval.CompileFaithful` | src/css_prop_syntax.c:499-526 | for every expression and environment: resolving the coefficient vector gives what resolving every leaf first and computing gives |
| `CalcMeaning.AcceptedMeaning` | src/css_prop_syntax.c:499-526 | every accepted sum means in every environment what its expression means, and one of kind number has no length and no percentage term |
| `CalcMeaning.LengthPx` | src/css_prop_syntax.c:885-892 | the pixels of a vector are the meaning of any expression that compiles to it, percentages apart |
| `CalcNumbers.NumberIsValue` | src/css_prop_syntax.c:200-260 | the number of a leaf is the value of its numeral: sign, digits, the point and the exponent each count |
| `CalcNumbers.FixedIsValue` | src/css_prop_syntax.c:200-260 | any integer written with its point shifted by any number of places is worth just that |
| `CalcUnits.InchIs` | src/css_prop_syntax.c:885-892 | the absolute units: 1in = 96px = 2.54cm = 25.4mm = 101.6q |
| `CalcUnits.PointsAre` | src/css_prop_syntax.c:885-892 | and 72pt = 6pc = 96px |
| `CalcUnits.ViewportIs` | src/css_prop_syntax.c:885-892 | a hundred vw and vh are the viewport, one em is the font size |
| `CalcText.PrintedSum` | src/css_prop_syntax.c:499-526 | every expression of signed decimals with known units, written with parentheses only where precedence or order need them and nested at most 32 deep, is parsed and read as that expression |
| `CalcText.EvaluateText` | src/css_prop_syntax.c:499-526 | that text parsed and evaluated is accepted if and only if the kinds of the expression fit, with the vector of the expression |
| `CalcPx.PxValue` | src/css_prop_syntax.c:885-892 | any two signed numerals in px with a plus or a minus between them are accepted and come to the sum or the difference of their values in pixels |
| `CalcValue.ResolvePlus` | src/css_prop_syntax.c:146-168 | resolving is linear: the sum of two vectors resolves to the sum |
| `CivilDate.CivilOfDays` | src/datetime.c:27-42 | every valid date comes back from its day number |
| `CivilDate.DaysOfCivil` | src/datetime.c:16-25 | every day number, negative ones too, comes back from its date, which is valid |
| `CivilDate.NextDay` | src/datetime.c:44-54 | the calendar successor of a date has the next day number |
| `CivilDate.DaysIncrease` | src/datetime.c:16-25 | a later date has a greater day number |
| `CivilDate.Epoch` | src/datetime.c:16-25 | day zero is the first of January 1970 |
| `IsoWeek.WeeksFillYear` | src/datetime.c:56-63 | for every year from 1 on, the first Mondays of the year and of the next are seven times the number of weeks apart |
| `IsoWeek.Week1IsMonday` | src/datetime.c:65-71 | week 1 begins on a Monday |
| `IsoWeek.WeeksIncrease` | src/datetime.c:65-71 | a later week has a later Monday |
| `IsoWeek.EveryMondayOnce` | src/datetime.c:65-71 | every Monday from week 1 of year 1 on is the Monday of exactly one week of one year |
| `AnimEngine.FindEntry` | src/anim.c:398-409 | the first entry that names the target, else the first for all properties |
| `AnimEngine.State.IsActive` | src/anim.c:158-170 | whether anything but a paused animation is active |
| `AnimEngine.Engine.Track` | src/anim.c:172-177 | the element is tracked exactly if it is worth ticking |
| `AnimEngine.Engine.CountsAndTracks` | src/anim.c:172-177 | at any time the counter is the number of active channels over all elements, at most 64, and the tracked elements are exactly those worth ticking |
| `AnimRuns.RunStory` | src/anim.c:879-997 | from any operation that begins a run of n >= 1 iterations untold, through any later ticks, pauses, resumes, rebases, drains, prunings that spare the element and observations of other elements: what has been said since is a prefix of start, iterations 1 to n - 1, end, and all of it exactly when the run is inactive |
| `AnimRuns.SameEntrySpares` | src/anim.c:607-674 | at any point of a run that is not over, seeing an entry of its name and duration, paused or not, spares it |
| `AnimRuns.StoryToldExactly` | src/anim.c:607-674 | a run that is over has told its whole story if and only if it did not take over from one that had started and not ended |
| `AnimEngine.ReplacedRun` | src/anim.c:607-674 | a run of the engine in which the animation that replaces a started one ends without ever being said to start |
| `AnimRuns.EndsExactly` | src/anim.c:923-997 | a tick ends a run that is not paused if and only if all its iterations have gone by |
| `AnimTimes.ToldTimely` | src/anim.c:879-997 | over any course in which a run of n iterations begun untold is neither replaced, removed, paused nor rebased: its q-th event, from the start (0) over the iterations to the end (n), has been told if and only if there has been a tick q durations after the start and its delay |
| `AnimTimes.StoryIs` | src/anim.c:953-977 | these events are the start at time zero, the iterations at multiples of the duration, and the end at n durations |
| `AnimRuns.SparedStep` | src/anim.c:923-997 | an operation that spares a run leaves its account and its entry, and adds to what is said what its tick brings or nothing |
| `AnimEngine.Engine.Story` | src/anim.c:923-997 | in every state of the engine, what has been said of a run of n >= 1 iterations whose account is open is a prefix of start, iterations 1 to n - 1, end, and all of it exactly when the run is inactive |
| `AnimEngine.Engine.AdvanceAnimation` | src/anim.c:879-921 | the run stops exactly when its iterations are over, and the counter follows |
| `AnimEngine.Engine.Tick` | src/anim.c:923-997 | every tracked element is ticked once, the events it adds are its transition ends and animation events due in order, no other element changes or says anything, and the invariant holds again |
| `AnimEngine.Engine.TellRun` | src/anim.c:953-977 | the events told of one run at one tick are those due, in order |
| `AnimEngine.Engine.Observe` | src/anim.c:676-695 | the element, the counter and the account of its run are as observing the style makes them, a state is made only for a style that animates, no other element changes, and the invariant holds again |
| `AnimEngine.Engine.ObserveTransition` | src/anim.c:496-605 | the four channels in turn and then the listed properties, each seeing the count the one before left |
| `AnimEnds.RetargetExactly` | src/anim.c:508-526 | a channel with a place and an entry of positive duration becomes active, and is over if and only if the delay and the duration of the entry have gone by since |
| `AnimEnds.MovedChannel` | src/anim.c:496-605 | exactly the property whose value changed, by the entry that governs it (the first that names it, else the first for all), has its channel retimed, if it is active or has a place; for the four properties and the listed ones alike |
| `AnimEnds.KeptChannel` | src/anim.c:496-605 | a property that did not change, or has no entry of positive duration, keeps its channel |
| `AnimEnds.TransitionEndsOnce` | src/anim.c:879-997 | from the observation that starts a transition, over any calls that neither move the property again nor its start nor forget the element: its end has been told exactly once if there has been a tick when delay and duration had gone by, and not at all otherwise |
| `AnimEnds.RoomStarts` | src/anim.c:496-605 | a changed property with an entry starts a transition if its channel is active or enough places are free |
| `AnimEnds.SeenThenChanged` | src/anim.c:496-605 | a property has changed for the next style if and only if the two styles differ in it: opacity, a transform operand by more than 0.001, a colour at all, any other serialized value at all |
| `AnimEnds.ChangedKept` | src/anim.c:923-997 | ticks, rebases, other elements and styles without transitions do not change what a property is compared with |
| `AnimEngine.Engine.ObserveAnimation` | src/anim.c:607-674 | the run begins, goes on, is paused, resumed, replaced or removed as the style says; its account is opened when it begins untold, closed when it begins otherwise or is removed, and else kept |
| `AnimStyles.StyleKept` | src/anim.c:676-695 | observing a style of one element keeps its account right and the counter in step |
| `AnimEngine.Engine.Prune` | src/anim.c:206-229 | exactly the elements no longer live are forgotten, and the invariant holds again |
| `AnimEngine.Engine.Rebase` | src/anim.c:231-246 | every start moves to the given time, and the invariant and every story survive |
| `AnimEngine.Engine.Drain` | src/anim.c:111-123 | the queued events are handed out in order and the queue is empty |
| `AnimModel.TickTells` | src/anim.c:923-997 | one tick of one run extends what has been said by what is due and keeps it a beginning of the story |
| `AnimModel.DueCompletes` | src/anim.c:953-977 | the tick that stops the run completes the story |
| `AnimModel.FinishedReached` | src/anim.c:879-921 | a run that is over has reached its last iteration |
| `AnimModel.FinishedExactly` | src/anim.c:879-921 | up to its cap the capped quotient sees the end of a run exactly when count times duration has gone by |
| `AnimModel.ResumeExactly` | src/anim.c:607-674 | a run paused and resumed goes on from where it was if and only if its delay was over when it was paused, or the whole microseconds of the delay had gone by |
| `AnimModel.PauseEndsDelay` | src/anim.c:607-674 | a run paused within its delay stands at the end of the delay when it is resumed |
| `AnimStates.SoundTick` | src/anim.c:923-997 | ticking one element keeps counter, tracked set and stories in step over all elements |
| `EsProtocol.StepKeeps` | src/eventsource.c:62-79 | every step of either thread keeps the account of references and pending dispatches |
| `EsProtocol.RunKeeps` | src/eventsource.c:375-400 | so does every interleaving |
| `EsProtocol.Accounting` | src/eventsource.c:81-100 | after every interleaving the reference count is owner plus worker plus dispatches queued, running or being made, and the pending counter is the number of those not yet counted off, at most 256 |
| `EsProtocol.NothingAfterDestruction` | src/eventsource.c:48-53 | no step touches the object after it has been destroyed, and it is destroyed at most once |
| `EsProtocol.DestroyedWhenUnheld` | src/eventsource.c:38-46 | it has been destroyed if and only if nobody holds it any more: no leak |
| `EsProtocol.SilentOnceDetached` | src/eventsource.c:62-79 | once detached, no callback starts |
| `EsProtocol.SilentAfterFree` | src/eventsource.c:427-438 | after free has returned no callback starts, even when it was called from inside one |
| `EsProtocol.FreeReturns` | src/eventsource.c:427-438 | under every schedule free returns: while it waits for the worker some step can be taken, and no more steps than a fixed number can be taken before it has returned |
| `EsProtocol.ReturnedOrWaiting` | src/eventsource.c:375-400 | every step taken while free waits brings its return nearer, for the worker looks at the exit flag after finitely many accesses |
| `EsProtocol.DispatchesConserved` | src/eventsource.c:62-79 | the dispatches posted are those finished and those queued or running: postponing one neither loses nor doubles it |
| `EsStream.LinesSnoc` | src/eventsource.c:228-246 | one byte more finishes at most one line of the whole stream; the line feed of a CRLF split across chunks finishes none |
| `EsStream.OverStaysOver` | src/eventsource.c:289-298 | a stream that has gone over a size limit stays over it |
| `EsStream.RetryExactly` | src/eventsource.c:209-221 | the reconnection time after any list of retry values is the standard's if and only if none of them is a numeral, or the last numeral is from 1 to a day, or all numerals and the initial time are zero |
| `EsStream.RetryDiffers` | src/eventsource.c:209-221 | after a retry value of zero, and after one above a day, the time is not the standard's; a later value repairs both |
| `EsParser.EmptyLine` | src/eventsource.c:157-178 | an empty line closes the block: its data, type and last id make a message, if it has data |
| `EsParser.FieldLine` | src/eventsource.c:180-226 | any other line notes its one field |
| `EsParser.Parser.ProcessLine` | src/eventsource.c:180-226 | the buffers are those of the lines so far and this one, fatal exactly if the data would be too much |
| `EsParser.Parser.DispatchEvent` | src/eventsource.c:157-178 | the buffers are those after the block is closed |
| `EsParser.Parser.Feed` | src/eventsource.c:228-246 | the state is that of the whole stream read so far |
| `EsTransfer.Transfer` | src/eventsource.c:289-298 | in any chunking: fatal if and only if the whole stream breaks a limit, and else the messages, id and reconnection time of the lines of the whole stream |
| `EsPrinted.FieldWithSpace` | src/eventsource.c:180-226 | a name, a colon, one space and a value give the name that value |
| `EsPrinted.FieldWithoutSpace` | src/eventsource.c:180-226 | so do a name, a colon and a value that does not begin with a space |
| `EsPrinted.FieldAlone` | src/eventsource.c:180-226 | a line without a colon is a name with an empty value |
| `EsPrinted.SentIsReceived` | src/eventsource.c:228-246 | any messages written line by line, with any of the three line ends: what is posted are the messages with data, in order, each with its type, its data lines joined by line feeds and the last id |
| `EsPrinted.JoinedSplits` | src/eventsource.c:157-178 | the data of a message cut at its line feeds are the values of its data lines |
| `EsPrinted.Deliver` | src/eventsource.c:289-298 | the parser fed with that stream in any chunks posts just these, if it is within the limits, and else is fatal |
| `EsTransfer.MarkHarmless` | src/eventsource.c:180-226 | with a byte order mark before a first line the reading is that of the stream without the mark, whatever follows the line, if and only if the field of the line is none of data, event, id and retry, or is an empty event type, the initial id, or a retry without effect |
| `EsTransfer.UnmarkedSame` | src/eventsource.c:228-246 | without a mark, or before the first line has ended, there is no difference |
| `EsTransfer.MarkHidesFirstField` | src/eventsource.c:180-226 | on every stream whose first line gives data the mark can make a difference |
| `FilterPattern.ReadsIsAccepts` | src/ext.c:1019-1042 | a pattern reads the text by recursion if and only if there are consecutive stretches that its characters cover |
| `FilterPattern.MatchHere` | src/ext.c:1019-1042 | the backtracking search ends and finds a reading whenever there is one |
| `FilterUrl.UrlFilterMatch` | src/ext.c:1044-1074 | accepts exactly the filter language, with its anchors, at the labels of the authority, at the beginning or anywhere |
| `FilterText.TextFilter` | src/ext.c:1044-1074 | a filter of literal text selects the URLs that contain it |
| `FilterText.StartFilter` | src/ext.c:1044-1074 | with a bar before it, those that begin with it |
| `FilterText.EndFilter` | src/ext.c:1044-1074 | with a bar after it, those that end with it |
| `FilterText.WholeFilter` | src/ext.c:1044-1074 | with both, only the URL that is it |
| `FilterText.GapFilter` | src/ext.c:1019-1042 | two texts with a star between them select the URLs in which the second stands somewhere after the first |
| `FilterText.SeparatorFilter` | src/ext.c:1012-1017 | a caret after a text asks that the URL ends there or goes on with a character other than a letter, a digit, `_`, `-`, `.` and `%` |
| `FilterText.DomainFilter` | src/ext.c:1044-1074 | after two bars, on a URL of a scheme, an authority and more: the text stands where the authority or a label of it begins |
| `FilterText.CaseFree` | src/ext.c:1044-1074 | without case sensitivity the case of letters in filter and URL does not matter |
| `FilterText.IndexedName` | src/ext.c:1182-1193 | the index ignores the port and finds a name if and only if the name, or what is left of it after one of its dots, is in it |
| `FilterUrl.HostIndexed` | src/ext.c:1182-1193 | whether some suffix of the name that begins at a label is in the index |
| `FilterUrl.IsSimpleHost` | src/ext.c:650-658 | whether a filter only names a host |
| `FilterUrl.FilterIsRun` | src/ext.c:1044-1074 | a filter naming a host selects a URL if and only if the host is the whole run of host characters at some label of the authority, followed by a separator or the end |
| `FilterUrl.IndexThenFilter` | src/ext.c:1182-1193 | a host found in the index is selected by its filter, whatever the URL |
| `FilterUrl.IndexAgreesExactly` | src/ext.c:1182-1193 | on a URL the index and the filters agree for all hosts if and only if every host standing at a label of its authority is a label suffix of its name |
| `FilterUrl.LettersAgree` | src/ext.c:1182-1193 | authorities of letters, digits, `-`, `_`, `.` and an optional numeric port meet that condition |
| `FilterUrl.UserInfoHidesHost` | src/ext.c:1158-1164 | on `http://u:p@a.b/` the filter for b matches and the index misses it |
| `FilterDecision.ShouldBlock` | src/ext.c:1228-1265 | blocks if and only if the highest non-negative priority at which anything votes has a block and no allow |
| `FilterDecision.TalliesDecide` | src/ext.c:1244-1264 | what the loops keep is enough to decide |
| `FilterDecision.BlocksExactly` | src/ext.c:1228-1265 | a request is blocked if and only if something blocks it, with a priority not negative, that nothing allowing it reaches |
| `FilterDecision.OrderFree` | src/ext.c:1228-1265 | neither the order of rules and extensions nor the extension a rule is in matters, for any priorities |
| `FilterDecision.IndexOrRules` | src/ext.c:660-736 | keeping any set of hosts in the index gives the same decisions as keeping their filters among the rules, on every URL that meets the condition |
| `FilterDecision.IndexNotRule` | src/ext.c:660-736 | on every other web URL some single host makes the two decide differently |
| `TreeCopy.WalkInto` | src/html_lexbor.c:159-194 | the nodes made are a tree, each standing at one place in it, that is exactly the recursive copy of the reached sources under the root, and each reached source is visited once |
| `TreeCopy.ConvertRoot` | src/html_lexbor.c:196-204 | a root that does not convert gives nothing; any other gives a tree, which is its recursive copy if and only if the root is no template with contents |
| `TreeCopy.WalkAll` | src/html_lexbor.c:159-194 | the frames are worked off to the end: all that was planned stands in the heap, every node hangs under an earlier one, as many nodes are made as the copies have, and the visits are the number of sources to visit |
| `TreeCopy.ConvertOne` | src/html_lexbor.c:60-133 | one conversion appends one node to its parent, plans its children, and uses up one unit of work |
| `TreeCopy.PlannedShows` | src/html_lexbor.c:159-194 | when no frame is left, every node has the label, the children and the contents of the copy planned for it |
| `TreeCopy.HangingTree` | src/html_lexbor.c:159-194 | nodes that hang each under an earlier one, as many as the copy has, are a tree without sharing |
| `TreeCopy.BuiltClosed` | src/html_lexbor.c:159-194 | the listing along the copy reaches everything that hangs under a listed node |
| `TreeContent.ContentKept` | src/html_lexbor.c:60-133 | the texts, element names, comments and document types of the copy are those of the source in document order and at their depth, CDATA being text, instructions being comments, and attributes, entities and notations dropped with what is below them |
| `ImageModel.SoundUpdate` | src/image.c:132-139 | changing one image and its part of the lists keeps the total the sum of all images' bytes and the images in order |
| `ImageModel.ChosenMeans` | src/image.c:868-891 | each image thrown out is accounted, of an older generation, not waited for, thrown out once, and of the oldest generation among those left |
| `ImageModel.ChosenSpares` | src/image.c:868-891 | an image asked for in this generation, waited for or not accounted is left as it is, and when nothing more may go every other one is gone |
| `ImageCache.Cache.TotalIsSum` | src/image.c:132-139 | at any time the total is the sum of the bytes of the cached images |
| `ImageCache.Cache.OneRequestEach` | src/image.c:633-652 | at any time an image has an outstanding request if and only if nothing is known of it yet, never two, and the request is still in the list of those waiting |
| `ImageCache.Cache.StrandedFailed` | src/image.c:564-573 | somebody waits for an image without a request under way only if the image has failed; a request without an answer is the only operation that leaves anybody so |
| `ImageCache.Cache.Collect` | src/image.c:868-891 | ends; throws out images one by one as long as memory is over budget, each the oldest that may be; ends within budget or with nothing left that may be |
| `ImageCache.Cache.FindVictim` | src/image.c:873-886 | the loop finds an image of the oldest generation among those that may be thrown out, or there is none |
| `ImageCache.Cache.HasPending` | src/image.c:141-149 | whether a live entry waits for the image |
| `ImageCache.Cache.Purge` | src/image.c:151-172 | the image is as new but for its address and its bytes leave the total |
| `ImageCache.Cache.Account` | src/image.c:132-139 | the image's bytes and generation are brought up to date, and the total with them |
| `ImageCache.Cache.Get` | src/image.c:654-722 | the image for an address, made if it is new, asked for again when thrown out or when it may be retried; exactly when its caller is called at once, when a request starts, and when the caller is added to those waiting; the invariant holds again |
| `ImageCache.Cache.GetNew` | src/image.c:654-722 | a new image starts one request with its caller waiting, or fails at once when images are off |
| `ImageRuns.ThreeRequests` | src/image.c:612-631 | over any course of operations on the cache an address is requested at most three times and once more for each time its picture was thrown out; one never thrown out at most three times |
| `ImageRuns.RequestsCounted` | src/image.c:633-652 | at any time the attempts of an image are the requests made for its address |
| `ImageRuns.RefusedForEver` | src/image.c:612-631 | after an answer of a lasting status, such as 404, the address is never requested again |
| `ImageRuns.NoEarlyRetry` | src/image.c:612-631 | between a failure and the next request at least 2 seconds go by, 10 after the second, or 15 and 45 when the status was 429 |
| `ImageRuns.RetriesExactly` | src/image.c:612-631 | a failed image is requested again if and only if fewer than three requests were made, the answer was a passing one or none, and its wait is over |
| `ImageRuns.ThrownOutExactly` | src/image.c:667-690 | a picture thrown out, asked for again and not answered has failed for good if and only if that was the third request or later, or its status, which is still that of the answer before, is a lasting one such as 200 |
| `ImageRuns.ThrownOutLost` | src/image.c:667-690 | with such a status it is never requested again, whatever happens |
| `ImageRuns.EqualFrames` | src/image.c:108-130 | frames of one size take four bytes a pixel each |
| `ImageCache.Cache.FirePending` | src/image.c:196-217 | exactly the entries of the image leave the list and are told, each once |
| `ImageCache.Cache.OnFetched` | src/image.c:551-610 | what an answer makes of the image, which callers are told and which go on waiting, for every kind of answer |
| `ImageCache.Cache.OnDecoded` | src/image.c:519-549 | the decoded image is applied and accounted and everybody waiting for it is told |
| `ImageCache.Cache.InsertLoaded` | src/image.c:801-817 | a loaded texture is cached and accounted under a new address, and nothing changes for a known one |
| `ImageCache.Cache.Peek` | src/image.c:737-744 | the image for an address, marked as used in this generation |
| `ImageCache.Cache.CancelCallbacks` | src/image.c:724-735 | exactly the entries of one user lose their callback |
| `ImageCache.Cache.BeginGeneration` | src/image.c:862-866 | one generation more, and the invariant holds |

## Left out

- GLib containers, allocation, string ownership and borrow flags: maps, sequences and heap objects stand for them.
- The id index, `ns_node_find_by_id` and `ns_node_free`: the id index is the class index with one key and no order, the other two add no harder property.
- The guards at 512 levels in the DOM walks are a precondition on the height of the tree; those at 32 levels in calc() and media queries are modelled, and for media queries proved not to fire on parsed conditions.
- The order of two nodes of different trees, which the comparator settles by address.
- CalcMachine.EvalTerm: `min()`, `max()`, `clamp()`, `round()` and the other functions inside calc() are left out; the code only checks their operands' kinds when lengths are involved.
- CalcMachine.EvalProduct: without these functions, like EvalTerm.
- CalcMachine.EvalSum: without these functions, like EvalTerm.
- CalcText.PrintedSum: without these functions, like EvalTerm.
- CssPrinted.PrintedIsRead: names and strings in it have no escapes; `CssLanguage` says how these are read.
- `syn_match_*` and everything else about registered custom property syntaxes.
- Rounding and overflow of doubles; the overflow of 32-bit day and year arithmetic for extreme years.
- MediaFeatureRound.PrintedTest: is about decimals that `%g` prints exactly and without an exponent, of at most six digits; others it rounds or prints in another form.
- MediaRound.RoundTerm: excludes parts that are not understood, since their printed form need not parse again, and numbers that `%g` rounds.
- MediaRound.RoundCondition: excludes the same.
- MediaListRound.RoundQuery: excludes the same.
- MediaListRound.RoundTripAnywhere: excludes the same.
- MediaListRound.RoundTrip: excludes the same.
- MediaMeaning.CommaMatches: is about texts whose parentheses and brackets close.
- The value of calc() inside media queries, and the stack of viewports: parameters of the environment.
- EsPrinted.SentIsReceived: the messages have comments, types, ids and data; retry fields are the subject of `EsStream.RetryExactly`.
- EventSource headers, redirects, the connection itself and the growth of the reconnection delay.
- EsProtocol.FreeReturns: what the worker does between two looks at the exit flag, in the network library and in the parser, is any finite number of accesses to the shared object.
- AnimModel.TickTells: iterations are unbounded integers. The code converts the quotient of elapsed time and duration to an int before it caps it when it emits events, which is undefined for quotients beyond the range of an int.
- AnimTimes.ToldTimely: is about runs of one to 10^9 iterations; the code caps the quotient there.
- The sampled values of animations: keyframes, timing functions, interpolation and the repaint result. A missing animation name is an empty one.
- FilterDecision.ShouldBlock: regular expressions, parties, domains and request types are one abstract condition per rule.
- `ns_ext_wildcard`, which treats adjacent stars differently from the filter matcher, and manifest and list parsing.
- Attributes of converted nodes, and where the parser keeps the text of one: a source node has one name or text.
- `ns_xml_well_formed` and declarative shadow roots.
- ImageCache.Cache.OnFetched: tells the caller of a request without an answer when the entry has left the list. The code calls it while the entry is still there and frees the entry after that, so a callback that enters the cache again sees it there; no operation is entered from a callback in this model.
- The 64-bit wrap-around of image generations, the destruction of the cache while requests are out, decoding, animation frames in time and textures other than their sizes.
