# Story parsing and outline repair, modelled in Dafny

This project models the part of the Tie-Dyed Tales story studio that turns stored story
data back into a playable story graph, and the check that repairs a freshly generated
story outline.

- `parseStory` (`src/lib/story-parser.ts`) rebuilds a story map and its start node id. It
  tries three sources in turn:
  - the declared outline together with the per-node generated content;
  - the legacy story text read as a JSON object of node texts;
  - the legacy text split into `Node ID:` segments.
- `parseSingleNodeRawText` turns one node's raw text into a page. It finds a title, drops
  metadata lines and scans for the first decision line, decision header or ending marker.
  It then produces either a page with decisions or an ending with an ending text.
- `generateStoryStructureFlow` (`src/ai/flows/generate-story-structure.ts`) checks the
  outline the model returned after the prompt call. It rejects a missing or empty outline.
  It points a start id that names no node at the first node.

Files:

| file | contents |
|---|---|
| `wrappers.dfy` | `Option`, `Result`, and JavaScript truthiness of a `string \| null` |
| `text.dfy` | `trim`, `toLowerCase`, `indexOf`, `split('\n')` and `join('\n')` on ASCII text, with their round trips |
| `story_types.dfy` | the node, decision and outline records, and the shapes that stand in for parsed JSON |
| `story_map.dfy` | the JavaScript `Map`: a value `Graph` (keys in insertion order plus entries), the class `StoryMap` that is filled in place, and `PutAll`, a run of `set` calls |
| `patterns.dfy` | the regular expressions of the parser as predicates, including a backtracking-faithful matcher for the decision-line pattern |
| `node_text.dfy` | `parseSingleNodeRawText`: the specification `ExtractNode`, the method `ParseSingleNodeRawText` with the scan and decision loops, and its properties |
| `story_parser.dfy` | `parseStory`: the specification `ParseStorySpec` (one function per path) and the method `ParseStory`, which fills a `StoryMap` loop by loop |
| `story_parser_facts.dfy` | what each path of `parseStory` promises, proved of `ParseStorySpec` |
| `structure_flow.dfy` | the outline check: the class `StructureOutput`, the method `FinishStructureFlow` and its specification `RepairedStart` |

Each method that loops or updates state in place is proved equal to a specification
function: `ParseStory`, `ParseSingleNodeRawText` and `FinishStructureFlow`. The lemmas
state the promises of the code about those functions.

Session storage is a parameter `stored`. `JSON.parse` is replaced by its possible
outcomes:
- the content map is an `Option<map<string, string>>`;
- the outline is an `Option<StoryStructure>`;
- the legacy text comes with either the properties of a parsed JSON object, in
  enumeration order, or `NotJsonObject`.

### Behaviour modelled as written

The model follows the code wherever the code and its usual description differ:

- **Dead guard at line 202.** The scan at 175-195 stops at the first ending marker. An
  `Ending:` line and the end banner are ending markers, so the guard at 202 never holds.
  The text after `Ending:` is therefore never the ending text.
  - For the two-node text whose second node is `Empty room.` / `Ending:` /
    `You found nothing.`, the ending text is `Empty room.`, not `You found nothing.`.
  - `ExplicitEndingNeverBeforeBoundary` and `EndingMarkerBoundary` state this.
- **Indented title lines.** A title line indented by white space keeps its `Title:` text,
  because the marker is removed from the untrimmed line (`IndentedTitleKeepsMarker`).
- **Unchecked structured start.** The structured path returns the declared start id even
  when no node has it (`StructuredStartNotValidated`).
  - An outline with no nodes leaves that id behind as the start of an otherwise empty
    result (`EmptyOutlineKeepsStart`).
  - An outline that passed the flow's repair does not have this problem
    (`RepairedStartIsStoryNode`).
- **Unrecognised failure text.** The content generator's failure text
  `[Error generating content…` (`src/ai/flows/generate-node-content.ts:109`) is not one of
  the failure prefixes tested at line 32. Such a node stays a page that shows the error
  text (`ErrorTextIsNotSentinel`).
- **JSON path start id.**
  - The first key becomes the start even when its value is not a string, so the start
    can name no node.
  - An empty first key is replaced by the next key. It stays, falsy, only when no other
    key follows (`JsonFirstKey`, `JsonFirstBlank`).
- **Conditions that never hold.** The test for a text starting with `"\n" + "Node ID:"` at
  line 90 never holds on trimmed text. The fallback at 107 never holds either
  (`FallbackSplitUnused`). Both are kept in the model.
- **Text without a marker.** A legacy text with no `Node ID:` returns the start id that
  the earlier paths left, which is not always null (`NoMarkerKeepsState`).

## Model

| member | source | states |
|---|---|---|
| Text.Trim | src/lib/story-parser.ts:88 | the trimmed text is empty or has no white space at either end, and is no longer than the input; TrimIsSlice adds that it is a slice of the input with only white space cut off |
| Text.TrimIsSlice | src/lib/story-parser.ts:88 | the trimmed text is a slice of the input, and everything cut off at either end is white space |
| Text.TrimIdempotent | src/lib/story-parser.ts:125 | trimming twice is trimming once |
| Text.IndexOf | src/lib/story-parser.ts:91 | the result is the first occurrence at or after `from`, and None exactly when there is none |
| Text.LowerStr | src/lib/story-parser.ts:190 | same length, each character mapped by `Lower`, whose own contract states the ASCII lower-casing |
| Text.Upper | src/lib/story-parser.ts:163 | a lower-case ASCII letter is shifted to upper case, every other character is kept; DefaultTitleAt states where it is applied |
| Text.SplitLines | src/lib/story-parser.ts:118 | `split('\n')` gives at least one piece and no piece holds a newline |
| Text.JoinSplitLines | src/lib/story-parser.ts:118-130 | joining the pieces of a split gives back the text |
| Text.SplitJoinLines | src/lib/story-parser.ts:118-130 | splitting a join of newline-free lines gives back the lines |
| Patterns.StripTitleMarker | src/lib/story-parser.ts:160 | the line is the stripped marker followed by the result, or the result is the line when it does not start with a marker |
| Patterns.TitleLineIsMetadata | src/lib/story-parser.ts:158-171 | every title line also matches the metadata pattern |
| Patterns.ExplicitEndingIsEndingMarker | src/lib/story-parser.ts:190-201 | a line found by the search at 201 is an ending marker of the scan at 190 |
| Patterns.BulletLength | src/lib/story-parser.ts:178 | a positive length is a `-` or digits followed by `.`; conversely a line starting with `-` gives 1, and digits followed by `.` give their count plus one |
| Patterns.IdAtUnique | src/lib/story-parser.ts:178 | after a connector, `\s+` then `[a-zA-Z0-9_]+` followed by the pattern's end can only be all of the white space and the whole word run |
| Patterns.ConnectorTarget | src/lib/story-parser.ts:178 | a captured target is a well-formed id and the connector is present; which word is captured, and when none is, are stated by ConnectorTargetMatches and ConnectorTargetCaptures |
| Patterns.ConnectorTargetMatches | src/lib/story-parser.ts:178 | a connector gives a target exactly when the connector, white space and an id that the pattern's end accepts follow at that position |
| Patterns.ConnectorTargetCaptures | src/lib/story-parser.ts:178 | the target is the captured word of any such match |
| Patterns.FirstTarget | src/lib/story-parser.ts:178 | a target found by trying the connectors in alternation order is a well-formed id; FirstTargetNone and FirstTargetFirst state which connector supplies it |
| Patterns.FirstTargetNone | src/lib/story-parser.ts:178 | no target exactly when no connector, from the k-th on, gives one |
| Patterns.FirstTargetFirst | src/lib/story-parser.ts:178 | the target is the one given by the first connector in alternation order that gives one |
| Patterns.NoTargetAtSpace | src/lib/story-parser.ts:178 | no connector starts at a white-space character |
| Patterns.TargetAfter | src/lib/story-parser.ts:178 | the target after the choice text is looked for after all of the white space there, and is a well-formed id; ConnectorAfterAllSpace shows that giving white space back never finds a connector |
| Patterns.ConnectorAfterAllSpace | src/lib/story-parser.ts:178 | the greedy `\s*` before the connector takes all of the white space; every shorter run leaves a position where no connector gives a target |
| Patterns.LazyEnd | src/lib/story-parser.ts:178 | the lazy choice text ends at the shortest position where the tail matches, never crossing a line terminator |
| Patterns.LeadSpan | src/lib/story-parser.ts:178 | the span found lies after bullet spacing, holds no line terminator and is followed by a matching tail; it has the largest start, then the smallest end, of all spans that work, and None means no span works |
| Patterns.DecisionSpan | src/lib/story-parser.ts:178 | a span found has the shape of a decision line and is the one the pattern's priority picks: the latest start, then the shortest choice text; None exactly when no span has that shape |
| Patterns.MatchDecision | src/lib/story-parser.ts:178 | the pattern matches exactly when some span has the shape of a decision line; the choice text is non-empty and the target is a well-formed id |
| Patterns.MatchDecisionCaptures | src/lib/story-parser.ts:178 | the captures are the text of the span the pattern's priority picks and the target after it |
| StoryMaps.Graph.Put | src/lib/story-parser.ts:42 | `set` replaces the entry; a new key goes last and a present key keeps its place |
| StoryMaps.PutKeepsValid | src/lib/story-parser.ts:42 | `set` keeps each key listed once, keeps the first key and loses no key |
| StoryMaps.PutAllValid | src/lib/story-parser.ts:25-43 | a run of `set` calls keeps the map well formed and its first key, and adds exactly the keys set |
| StoryMaps.PutAllLast | src/lib/story-parser.ts:25-43 | the last `set` of a key decides its node |
| StoryMaps.PutAllKeeps | src/lib/story-parser.ts:25-43 | a property of every node set and every node present holds of every node afterwards |
| StoryMaps.PutAllNothing | src/lib/story-parser.ts:68-77 | steps that set nothing leave the map unchanged |
| StoryMaps.PutAllFirstKey | src/lib/story-parser.ts:141 | starting empty, the first key is the key of the first step that sets one |
| StoryMaps.StoryMap.constructor | src/lib/story-parser.ts:15 | `new Map()` is the empty, well-formed map |
| StoryMaps.StoryMap.Set | src/lib/story-parser.ts:42 | the object's new state is the old map with one `set` applied, still well formed |
| NodeText.FindTitleLine | src/lib/story-parser.ts:158 | the result is the first title line, None exactly when there is none |
| NodeText.CapitalizeWords | src/lib/story-parser.ts:163 | same length as the input; the characters are stated by DefaultTitleAt |
| NodeText.DefaultTitle | src/lib/story-parser.ts:163 | same length as the id; the characters are stated by DefaultTitleAt |
| NodeText.DefaultTitleAt | src/lib/story-parser.ts:163 | `_` becomes a space, the first character of each word is upper-cased, every other character is kept |
| NodeText.ContentLinesMembers | src/lib/story-parser.ts:167-172 | the content lines are the kept lines of the text, in their order and each once; none is a metadata line |
| NodeText.ContentIndicesKept | src/lib/story-parser.ts:167-172 | every index the filter keeps is that of a kept line |
| NodeText.ContentIndicesIncreasing | src/lib/story-parser.ts:167-172 | the kept indices are strictly increasing, so the order is kept and no line is repeated |
| NodeText.ContentIndicesComplete | src/lib/story-parser.ts:167-172 | every kept line's index is among the kept indices |
| NodeText.ContentLinesFromIndices | src/lib/story-parser.ts:167-172 | the content lines are the lines at the kept indices, in that order |
| NodeText.TitleIndexRedundant | src/lib/story-parser.ts:167-172 | skipping the title line by index changes nothing, as the metadata test drops it anyway |
| NodeText.KindOf | src/lib/story-parser.ts:176-194 | a decision line exactly when the pattern matches; else a header exactly when a header prefix is present; else an ending exactly when it is an ending marker; else a text line |
| NodeText.LineKinds | src/lib/story-parser.ts:175-176 | each content line is classified by KindOf after trimming; KindOf's ifs and only-ifs give the meaning |
| NodeText.FirstBoundary | src/lib/story-parser.ts:174-195 | the boundary is the first non-text line or the line count; it is an ending exactly when that line is an ending marker |
| NodeText.StripFinalPeriod | src/lib/story-parser.ts:218 | one final `.` is removed exactly when the text ends with `.`; otherwise the text is unchanged |
| NodeText.DecisionOf | src/lib/story-parser.ts:214-221 | a line yields a decision exactly when the trimmed line matches; the decision is the trimmed choice text without its final period, and the captured id |
| NodeText.CollectDecisions | src/lib/story-parser.ts:213-222 | the decisions are those of the lines that yield one, in the order of the lines, one per such line |
| NodeText.CollectFromIndices | src/lib/story-parser.ts:213-222 | a collection holds one value per line that yields one, at the increasing indices of those lines |
| NodeText.CollectDecisionsFromFirst | src/lib/story-parser.ts:213-222 | lines starting with a decision line yield at least one decision |
| NodeText.CollectDecisionsTargets | src/lib/story-parser.ts:213-222 | every collected decision targets a well-formed id |
| NodeText.FindExplicitEnding | src/lib/story-parser.ts:201 | the first index from `i` holding an `Ending:` line or the end banner, None exactly when there is none |
| NodeText.ExplicitEndingText | src/lib/story-parser.ts:201-204 | text is taken exactly when an `Ending:` line or the end banner lies before the boundary, and it is the trimmed join of the lines between the first such line and the boundary |
| NodeText.EndingOrDefault | src/lib/story-parser.ts:205-209 | the narrative when it is not empty, otherwise the default sentence `The story concludes here.` |
| NodeText.ScanBoundary | src/lib/story-parser.ts:174-195 | the loop with `break` ends at the first boundary of FirstBoundary |
| NodeText.CollectDecisionLines | src/lib/story-parser.ts:213-222 | the loop collects the decisions of the lines from the boundary on, in order |
| NodeText.ParseSingleNodeRawText | src/lib/story-parser.ts:150-245 | the method returns ExtractNode of its inputs |
| NodeText.ExtractNodeExclusive | src/lib/story-parser.ts:199-228 | an ending has a non-empty ending text, no decisions and no narrative; a page has no ending text |
| NodeText.ExplicitEndingNeverBeforeBoundary | src/lib/story-parser.ts:199-204 | the guard at 202 never holds, so no text after `Ending:` is taken |
| NodeText.NodeTitleFacts | src/lib/story-parser.ts:158-164 | the title is never empty; it is the default title without a title line, the stripped text of a non-empty title line, and `Chapter <id>` when either comes out empty |
| NodeText.NodeTitle | src/lib/story-parser.ts:232-234 | the title found when it is not empty, `Chapter <id>` otherwise; never empty |
| NodeText.ExtractNodeTitle | src/lib/story-parser.ts:237-239 | the node carries its id and the title above |
| NodeText.IndentedTitleKeepsMarker | src/lib/story-parser.ts:158-160 | an indented title line keeps its marker in the title |
| NodeText.EndingMarkerBoundary | src/lib/story-parser.ts:190-210 | with an ending marker as boundary, the node is an ending whose text is the narrative before the marker or the default sentence |
| NodeText.NoBoundary | src/lib/story-parser.ts:213-228 | with no boundary, the node is an implicit ending exactly when content lines remain, with the narrative or the default sentence as text |
| NodeText.DecisionBoundary | src/lib/story-parser.ts:197-222 | with a decision line or header as boundary, the node is a page with the narrative before it and the decisions from it on |
| NodeText.DecisionLineGivesDecision | src/lib/story-parser.ts:178-220 | when the scan stops at a decision line, the node is a page with at least one decision |
| NodeText.DecisionTargetsAreIds | src/lib/story-parser.ts:215-219 | every decision of every node targets a well-formed id |
| StoryParser.StructuredItems | src/lib/story-parser.ts:25-43 | one step per declared node, each setting the node's id |
| StoryParser.JsonItems | src/lib/story-parser.ts:68-77 | one step per property; a step sets its property's key exactly when the value is a string |
| StoryParser.JsonFirst | src/lib/story-parser.ts:70 | set exactly when some key was seen, and falsy exactly when every key seen is empty |
| StoryParser.JsonStart | src/lib/story-parser.ts:78-81 | the stored id when it is truthy and a key; the first key when the stored id is falsy, or is not a key and the first key is truthy; otherwise the stored id |
| StoryParser.SplitOnMarker | src/lib/story-parser.ts:105 | the split gives at least one piece, and the white space after each marker belongs to the separator; SplitRoundTrip and SplitSeparators state what the pieces are |
| StoryParser.NextSeparator | src/lib/story-parser.ts:105 | a separator found starts at or after `from` and ends after the marker's white space |
| StoryParser.NonBlank | src/lib/story-parser.ts:105 | every piece kept is non-blank and one of the pieces, and every non-blank piece is kept; NonBlankInOrder adds the order |
| StoryParser.NonBlankInOrder | src/lib/story-parser.ts:105 | the kept pieces are the non-blank pieces in their order, one per such piece |
| StoryParser.NonBlankIsCollect | src/lib/story-parser.ts:105 | the filter is the collection of the non-blank pieces |
| StoryParser.SegmentEntry | src/lib/story-parser.ts:117-129 | a segment is accepted exactly when its trimmed first line is a well-formed id; it then gives that id and the remaining lines joined |
| StoryParser.SegmentItems | src/lib/story-parser.ts:116-134 | one step per segment; a step sets a key exactly when the segment is accepted, and that key is the segment's id |
| StoryParser.SegmentStart | src/lib/story-parser.ts:133 | a truthy start is kept, and so is any start when no segment is accepted |
| StoryParser.SegmentStartFirst | src/lib/story-parser.ts:133 | from a falsy start, the start becomes the id of the first accepted segment |
| StoryParser.CutPreamble | src/lib/story-parser.ts:90-98 | None exactly for a non-empty text without `Node ID:`; a text that is cut keeps the part from its first `Node ID:` on |
| StoryParser.ResolveStart | src/lib/story-parser.ts:137-143 | the stored id when it is a key, else the candidate when it is a key, else the first key or null |
| StoryParser.AddStructuredNodes | src/lib/story-parser.ts:25-43 | the loop applies the structured `set` calls to the map in place |
| StoryParser.AddJsonEntries | src/lib/story-parser.ts:67-77 | the loop applies the JSON `set` calls and returns the first truthy key |
| StoryParser.ReadSegment | src/lib/story-parser.ts:117-130 | the id line is split off and checked as SegmentEntry says |
| StoryParser.AddSegments | src/lib/story-parser.ts:116-134 | the loop applies the segment `set` calls and sets the start to the first accepted id if it was falsy |
| StoryParser.NormalizeText | src/lib/story-parser.ts:88-103 | the preamble is cut and a newline is put in front of a leading marker; None is the early return at 96 |
| StoryParser.SplitSegments | src/lib/story-parser.ts:105-109 | the segments are the non-blank pieces of the split |
| StoryParser.ParsePlainText | src/lib/story-parser.ts:88-146 | the plain-text path fills the map and resolves the start as PlainTextResult says |
| StoryParser.ParseLegacy | src/lib/story-parser.ts:56-147 | the legacy paths fill the map and set the start as LegacyResult says |
| StoryParser.ParseStory | src/lib/story-parser.ts:10-147 | `parseStory` returns a well-formed map and start equal to ParseStorySpec |
| StoryParserFacts.StructuredNodeFacts | src/lib/story-parser.ts:27-41 | a declared node gets its id and title, the placeholder without content, and becomes an ending exactly when declared so or when its content is a failure sentinel |
| StoryParserFacts.MissingContentIsNotSentinel | src/lib/story-parser.ts:28-32 | the placeholder is not a failure sentinel, so only the declaration decides whether such a node is an ending |
| StoryParserFacts.ErrorTextIsNotSentinel | src/lib/story-parser.ts:32 | content starting `[Error generating content` leaves the node a page showing that text |
| StoryParserFacts.StructuredMapKeys | src/lib/story-parser.ts:25-43 | the structured map is well formed, has exactly the declared ids as keys, and the first declared id first |
| StoryParserFacts.StructuredItemKeys | src/lib/story-parser.ts:25-43 | the keys the structured steps set are exactly the declared ids |
| StoryParserFacts.StructuredMapIds | src/lib/story-parser.ts:34-42 | each structured node is stored under its own id |
| StoryParserFacts.StructuredMapNodes | src/lib/story-parser.ts:25-43 | under each id is the node built from the last declaration of that id |
| StoryParserFacts.StructuredPathTaken | src/lib/story-parser.ts:19-49 | with content, a start id and a node, the structured map and the declared start are returned |
| StoryParserFacts.StructuredStartNotValidated | src/lib/story-parser.ts:44-48 | a declared start that names no node is returned as it stands |
| StoryParserFacts.EmptyOutlineKeepsStart | src/lib/story-parser.ts:44-60 | an outline without nodes and no legacy text give an empty map whose start is the declared id |
| StoryParserFacts.JsonFirstBlank | src/lib/story-parser.ts:70 | while every key seen is empty, the first key stays falsy |
| StoryParserFacts.JsonFirstKey | src/lib/story-parser.ts:67-77 | the first key is the first non-empty key, whatever its value |
| StoryParserFacts.JsonMapKeys | src/lib/story-parser.ts:68-77 | the JSON map is well formed, its keys are exactly the keys with string values, and each node carries its key |
| StoryParserFacts.JsonItemKeys | src/lib/story-parser.ts:68-77 | the keys the JSON steps set are exactly the keys with string values |
| StoryParserFacts.JsonMapNodes | src/lib/story-parser.ts:68-77 | under a key whose last value is a string is the node parsed from that string |
| StoryParserFacts.JsonResultFacts | src/lib/story-parser.ts:63-82 | the JSON path gives a well-formed map of nodes under their own ids, a start whenever the map is not empty, and otherwise the empty map |
| StoryParserFacts.JsonPathTaken | src/lib/story-parser.ts:63-82 | with a string value, the JSON path returns: the stored id if it is a key (or if there is no truthy first key), else the first key, never null |
| StoryParserFacts.NoMarkerKeepsState | src/lib/story-parser.ts:88-97 | a text without `Node ID:` changes neither the map nor the start |
| StoryParserFacts.PreambleDiscarded | src/lib/story-parser.ts:90-93 | the result is the result for the text from its first `Node ID:` on |
| StoryParserFacts.FallbackSplitUnused | src/lib/story-parser.ts:100-109 | the normalised text is empty or starts with a newline, so the fallback at 107 never applies |
| StoryParserFacts.SplitPiecesHaveNoSeparator | src/lib/story-parser.ts:105 | no piece of the split contains the separator |
| StoryParserFacts.NextSeparatorFound | src/lib/story-parser.ts:105 | a separator found is `\nNode ID:` at that position followed by all of the white space after it |
| StoryParserFacts.NextSeparatorLeftmost | src/lib/story-parser.ts:105 | no `\nNode ID:` occurs between `from` and the separator found, nor anywhere after `from` when none is found |
| StoryParserFacts.SplitCounts | src/lib/story-parser.ts:105 | there is one more piece than separators |
| StoryParserFacts.SplitRoundTrip | src/lib/story-parser.ts:105 | the pieces joined with the separators matched give back the text |
| StoryParserFacts.SplitSeparators | src/lib/story-parser.ts:105 | every separator matched is `\nNode ID:` followed by white space |
| StoryParserFacts.SegmentEntryOfParts | src/lib/story-parser.ts:117-130 | a segment made of an id line and a body reads back as that id and that body |
| StoryParserFacts.ResolveStartFacts | src/lib/story-parser.ts:136-143 | the start is null exactly when the map is empty, otherwise a key; the stored id wins when it is a key, then the candidate when it is a key, else the first key |
| StoryParserFacts.PlainTextNodes | src/lib/story-parser.ts:88-143 | the plain-text map is well formed, its keys are well-formed ids holding nodes with those ids, and a non-empty map has a start that is a key |
| StoryParserFacts.LegacyResultFacts | src/lib/story-parser.ts:56-146 | the legacy paths give a well-formed map of nodes under their own ids and a start whenever the map is not empty |
| StoryParserFacts.ParseStoryWellFormed | src/lib/story-parser.ts:10-147 | for all inputs the map is well formed, nodes are under their own ids, and a non-empty map comes with a start |
| StructureFlow.StructureOutput.constructor | src/ai/flows/generate-story-structure.ts:56-59 | the output object holds the given nodes and start id |
| StructureFlow.RepairedStart | src/ai/flows/generate-story-structure.ts:158-173 | rejected exactly when the nodes are missing or empty or the start is falsy; unrecoverable exactly when the start names no node and the first id is empty; otherwise the start kept exactly when some node has it, else the first node's id |
| StructureFlow.FinishStructureFlow | src/ai/flows/generate-story-structure.ts:157-177 | the method throws or returns the same object as RepairedStart says; only the start id may change, and only on success |
| StructureFlow.RepairIdempotent | src/ai/flows/generate-story-structure.ts:163-173 | a repaired outline passes the check again unchanged |
| StructureFlow.RepairedStartIsStoryNode | src/ai/flows/generate-story-structure.ts:163-173 | an outline that passed the check, parsed with its content, has a start that is a node of the story map |

## Left out

- The prompt and model calls and the flow plumbing (`src/ai/flows/generate-story-structure.ts:64-156`, the other flows), the server action and the React pages and components: they are network calls and rendering, not logic of the core.
- Session storage is the parameter `stored`. Both reads (lines 78 and 137) see the same value, as nothing writes the key in between.
- `JSON.parse` is not modelled. Its outcomes are inputs, so the model does not cover ill-typed JSON:
  - a content map with non-string values, or a `null` value other than as a missing key;
  - outline nodes that are not records;
  - an exception thrown inside the structured loop, which the `catch` at 51-53 would absorb.
- StoryParser.GeneratedNarrative: the lookup at 27 is modelled as a lookup among the content map's own keys. An outline id that names an `Object.prototype` member (`constructor`, `toString`, `valueOf`, `hasOwnProperty`, `__proto__`, …) and has no own entry in the content map reads the inherited value at 27, which is neither `undefined` nor `null`, so `.startsWith` at 32 throws. The `catch` at 51-53 then leaves the nodes set so far in the map and the start still null. The model gives such a node the placeholder text instead.
- StoryParserFacts.ParseStoryWellFormed: its "a non-empty map comes with a start" holds of the model, but not of the source on the input above. For example, content `{}`, nodes `a` and `constructor`, start `a` and no legacy text give the map `{a}` with a null start.
- StructureFlow.RepairedStartIsStoryNode: for the same reason, it does not hold of the source when the repaired outline has a node named after an `Object.prototype` member and no content for it. The source then returns a null start.
- The enumeration order of a JSON object's properties (integer-like keys first in JavaScript) and special keys such as `__proto__` are not modelled; the properties arrive in enumeration order as input.
- `trim`, `\s` and case folding are ASCII-only: Unicode white space other than the six ASCII white-space characters, and non-ASCII letters, are not modelled.
- Logging (`console.*`) has no effect on results and is left out.
- The `typeof legacyStoryText !== 'string'` test at 58 is not modelled: the legacy text is a string or absent.
- StructureFlow.FinishStructureFlow: the schema check of the output object is not modelled, and a missing `startNodeId` is modelled as the empty string.
