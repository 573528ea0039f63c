/** `parseStory` (src/lib/story-parser.ts:10-147): rebuilds the story map and the start node
    id from what the browser kept, trying three sources in turn: the structured outline
    with its generated content, the legacy text read as a JSON map of node texts, and the
    legacy text split into `Node ID:` segments. `ParseStorySpec` is the specification,
    one function per path; the method `ParseStory` fills a `StoryMap` the way the source
    does and is proved to agree with it. */
module StoryParser {
  import opened Wrappers
  import opened Text
  import opened StoryTypes
  import opened StoryMaps
  import opened NodeText

  /** What `parseStory` returns. */
  datatype ParseResult = ParseResult(storyMap: Graph, startNodeId: Option<string>)

  const NodeIdMarker: string := "Node ID:"

  // ---- Structured path (19-54) -------------------------------------------------------------

  /** The placeholder for a node without generated content (27-30). */
  function MissingContent(ns: NodeStructure): string {
    "[Content missing for node " + ns.id + ". Original summary: " + ns.summary + "]"
  }

  /** The failure prefixes tested at 32. */
  predicate IsFailureSentinel(text: string) {
    StartsWith(text, "[Content generation failed")
    || StartsWith(text, "[Content generation critically failed")
  }

  /** The content generated for a node, or the placeholder; a key whose value was `null`
      is absent from `content`. Only the map's own keys are looked up: names inherited
      from `Object.prototype` are not modelled. */
  function GeneratedNarrative(ns: NodeStructure, content: map<string, string>): string {
    if ns.id in content then content[ns.id] else MissingContent(ns)
  }

  /** The node record built at 34-41. */
  function StructuredNode(ns: NodeStructure, content: map<string, string>): StoryNode {
    var text := GeneratedNarrative(ns, content);
    var failed := IsFailureSentinel(text);
    StoryNode(
      ns.id,
      ns.title,
      if ns.isEnding || failed then "" else text,
      if ns.isEnding || failed then [] else ns.decisions.GetOr([]),
      ns.isEnding || failed,
      if ns.isEnding then Some(text) else if failed then Some(text) else None)
  }

  /** The `set` of the loop at 25-43, one per declared node. */
  function StructuredItems(nodes: seq<NodeStructure>, content: map<string, string>)
    : (items: seq<Option<(string, StoryNode)>>)
    ensures |items| == |nodes|
    ensures forall i :: 0 <= i < |nodes| ==> items[i].Some? && items[i].value.0 == nodes[i].id
  {
    seq(|nodes|, i requires 0 <= i < |nodes| => Some((nodes[i].id, StructuredNode(nodes[i], content))))
  }

  /** The guard at 19 and 23: both inputs parsed and the outline names a start node. An
      input that is null, empty or not valid JSON is None. */
  predicate StructuredApplies(content: Option<map<string, string>>, outline: Option<StoryStructure>) {
    content.Some? && outline.Some? && outline.value.startNodeId != ""
  }

  /** The state after the structured path ran: its map and the declared start. */
  function StructuredResult(content: map<string, string>, outline: StoryStructure): ParseResult {
    ParseResult(PutAll(EmptyGraph, StructuredItems(outline.nodes, content), |outline.nodes|),
                Some(outline.startNodeId))
  }

  // ---- JSON-map path (63-86) ---------------------------------------------------------------

  /** The `set` of the loop at 68-77: one per property whose value is a string. */
  function JsonItems(entries: seq<(string, JsonValue)>): (items: seq<Option<(string, StoryNode)>>)
    ensures |items| == |entries|
    ensures forall i :: 0 <= i < |entries| ==> (items[i].Some? <==> entries[i].1.JString?)
    ensures forall i :: 0 <= i < |entries| && items[i].Some? ==> items[i].value.0 == entries[i].0
  {
    seq(|entries|, i requires 0 <= i < |entries| =>
      match entries[i].1
      case JString(s) => Some((entries[i].0, ExtractNode(entries[i].0, s)))
      case JOther => None)
  }

  /** `firstNodeIdInJson` after the first n properties: replaced while it is falsy. */
  function JsonFirst(entries: seq<(string, JsonValue)>, n: nat): (r: Option<string>)
    requires n <= |entries|
    ensures r.Some? <==> n > 0
    ensures Falsy(r) <==> forall i :: 0 <= i < n ==> entries[i].0 == ""
  {
    if n == 0 then None
    else
      var first := JsonFirst(entries, n - 1);
      if Falsy(first) then Some(entries[n - 1].0) else first
  }

  /** Lines 78-81: the stored start, or the first key; a stored start that is not a key
      gives way to a truthy first key. */
  function JsonStart(g: Graph, stored: Option<string>, first: Option<string>): (r: Option<string>)
    ensures r == stored || r == first
    ensures Falsy(stored) ==> r == first
    ensures !Falsy(stored) && stored.value in g.entries ==> r == stored
    ensures !Falsy(stored) && stored.value !in g.entries ==> r == (if Falsy(first) then stored else first)
  {
    var start := if !Falsy(stored) then stored else first;
    if !Falsy(start) && start.value !in g.entries && !Falsy(first) then first else start
  }

  function JsonResult(p: ParseResult, entries: seq<(string, JsonValue)>, stored: Option<string>): ParseResult {
    var g := PutAll(p.storyMap, JsonItems(entries), |entries|);
    ParseResult(g, JsonStart(g, stored, JsonFirst(entries, |entries|)))
  }

  // ---- Plain-text path (88-143) ------------------------------------------------------------

  /** Lines 90-99 on the trimmed text: cut what comes before the first `Node ID:`, or None
      when there is none (the early return at 96). */
  function CutPreamble(t: string): (r: Option<string>)
    ensures r.None? <==> t != "" && !Contains(t, NodeIdMarker)
    ensures r.Some? && r.value != t ==>
              exists k :: 0 < k <= |t| && r.value == t[k..] && StartsWith(r.value, NodeIdMarker)
                          && forall j :: 0 <= j < k ==> !OccursAt(t, NodeIdMarker, j)
  {
    StartsWithOccursAt(t, NodeIdMarker);
    StartsWithAfterChar(t, '\n', NodeIdMarker);
    if t != "" && !StartsWith(t, NodeIdMarker) && !StartsWith(t, "\n" + NodeIdMarker) then
      match IndexOf(t, NodeIdMarker, 0)
      case Some(p) =>
        assert t[p..][..8] == t[p..p + 8];
        Some(if p > 0 then t[p..] else t)
      case None => None
    else Some(t)
  }

  /** Lines 101-103. */
  function LeadingNewline(t: string): string {
    if StartsWith(t, NodeIdMarker) then "\n" + t else t
  }

  /** The next match of the split's pattern `\nNode ID:\s*` at or after `from`: where it
      starts and where its white space ends. The regular expression takes the leftmost
      match and all the white space after the marker. */
  function NextSeparator(s: string, from: nat): (r: Option<(nat, nat)>)
    requires from <= |s|
    ensures r.Some? ==> from <= r.value.0 && r.value.0 + 9 <= r.value.1 <= |s|
    ensures r.Some? ==> r.value.1 == |s| || !IsSpace(s[r.value.1])
    decreases |s| - from
  {
    if from + 9 > |s| then None
    else if OccursAt(s, "\n" + NodeIdMarker, from) then Some((from, from + 9 + SpaceRun(s, from + 9)))
    else NextSeparator(s, from + 1)
  }

  /** `s.split(/\nNode ID:\s*\/)` from index `from`: the pieces between the separators. */
  function SplitOnMarker(s: string, from: nat): (r: seq<string>)
    requires from <= |s|
    ensures |r| >= 1
    ensures forall k :: 0 < k < |r| ==> r[k] == [] || !IsSpace(r[k][0])
    decreases |s| - from
  {
    match NextSeparator(s, from)
    case None => [s[from..]]
    case Some((p, next)) => [s[from..p]] + SplitOnMarker(s, next)
  }

  /** The separators the split matches from index `from`, in order. */
  function MarkerSeparators(s: string, from: nat): seq<string>
    requires from <= |s|
    decreases |s| - from
  {
    match NextSeparator(s, from)
    case None => []
    case Some((p, next)) => [s[p..next]] + MarkerSeparators(s, next)
  }

  /** A separator of the split: `\nNode ID:` then white space only. */
  predicate IsMarkerSeparator(sep: string) {
    |sep| >= 9 && sep[..9] == "\n" + NodeIdMarker && forall k :: 9 <= k < |sep| ==> IsSpace(sep[k])
  }

  /** The pieces with the separators put back between them. */
  function Interleave(pieces: seq<string>, seps: seq<string>): string
    requires |pieces| == |seps| + 1
    decreases |seps|
  {
    if seps == [] then pieces[0]
    else pieces[0] + seps[0] + Interleave(pieces[1..], seps[1..])
  }

  /** `.filter(segment => segment.trim() !== "")` over the first n pieces. */
  function NonBlank(pieces: seq<string>, n: nat): (r: seq<string>)
    requires n <= |pieces|
    ensures forall k :: 0 <= k < |r| ==> Trim(r[k]) != "" && r[k] in pieces[..n]
    ensures forall j :: 0 <= j < n && Trim(pieces[j]) != "" ==> pieces[j] in r
  {
    if n == 0 then []
    else
      assert pieces[..n] == pieces[..n - 1] + [pieces[n - 1]];
      NonBlank(pieces, n - 1) + (if Trim(pieces[n - 1]) != "" then [pieces[n - 1]] else [])
  }

  /** The test of the filter, as a pick: a piece is kept when its trim is not empty. */
  function NonBlankPiece(piece: string): Option<string> {
    if Trim(piece) != "" then Some(piece) else None
  }

  /** The filter is the collection of the pieces the pick accepts. */
  lemma {:induction false} NonBlankIsCollect(pieces: seq<string>, n: nat)
    requires n <= |pieces|
    ensures NonBlank(pieces, n) == CollectFrom(NonBlankPiece, pieces, 0, n)
  {
    if n > 0 {
      NonBlankIsCollect(pieces, n - 1);
    }
  }

  /** The filter keeps the order of the pieces: its k-th piece is the k-th non-blank one,
      each non-blank piece once. */
  lemma NonBlankInOrder(pieces: seq<string>, n: nat)
    requires n <= |pieces|
    ensures |NonBlank(pieces, n)| == |PickIndices(NonBlankPiece, pieces, 0, n)|
    ensures forall k :: 0 <= k < |NonBlank(pieces, n)| ==>
              NonBlank(pieces, n)[k] == pieces[PickIndices(NonBlankPiece, pieces, 0, n)[k]]
  {
    NonBlankIsCollect(pieces, n);
    CollectFromIndices(NonBlankPiece, pieces, 0, n);
    var r := NonBlank(pieces, n);
    var idx := PickIndices(NonBlankPiece, pieces, 0, n);
    forall k | 0 <= k < |r| ensures r[k] == pieces[idx[k]] {
      assert NonBlankPiece(pieces[idx[k]]) == Some(r[k]);
    }
  }

  /** `s.substring(n)` */
  function Drop(s: string, n: nat): string {
    if n <= |s| then s[n..] else ""
  }

  /** Lines 105-109: the non-blank pieces; if there are none and the text starts with
      `ode ID:`, the text after the marker. */
  function Segments(normalized: string): seq<string> {
    var pieces := SplitOnMarker(normalized, 0);
    var segments := NonBlank(pieces, |pieces|);
    if |segments| == 0 && StartsWith(normalized, "ode ID:") then [Trim(Drop(normalized, 8))]
    else segments
  }

  /** Lines 118-130: the id and the node text of a segment whose first line, trimmed, is a
      well-formed id. */
  function SegmentEntry(segment: string): (r: Option<(string, string)>)
    ensures r.Some? <==> IsNodeId(Trim(SplitLines(segment)[0]))
    ensures r.Some? ==> r.value == (Trim(SplitLines(segment)[0]), JoinLines(SplitLines(segment)[1..]))
  {
    var lines := SplitLines(segment);
    var idLine := lines[0];
    if idLine == "" || |Trim(idLine)| == 0 then None
    else
      var id := Trim(idLine);
      if !IsNodeId(id) then None else Some((id, JoinLines(lines[1..])))
  }

  /** The `set` of the loop at 116-134. */
  function SegmentItems(segments: seq<string>): (items: seq<Option<(string, StoryNode)>>)
    ensures |items| == |segments|
    ensures forall i :: 0 <= i < |segments| ==> (items[i].Some? <==> SegmentEntry(segments[i]).Some?)
    ensures forall i :: 0 <= i < |segments| && items[i].Some? ==> items[i].value.0 == SegmentEntry(segments[i]).value.0
  {
    seq(|segments|, i requires 0 <= i < |segments| =>
      match SegmentEntry(segments[i])
      case Some((id, text)) => Some((id, ExtractNode(id, text)))
      case None => None)
  }

  /** `startNodeId` after the first n segments (133): the first accepted id, unless it was
      already set. */
  function SegmentStart(start: Option<string>, segments: seq<string>, n: nat): (r: Option<string>)
    requires n <= |segments|
    ensures !Falsy(start) ==> r == start
    ensures (forall i :: 0 <= i < n ==> SegmentEntry(segments[i]).None?) ==> r == start
  {
    if n == 0 then start
    else
      var s := SegmentStart(start, segments, n - 1);
      match SegmentEntry(segments[n - 1])
      case Some((id, _)) => if Falsy(s) then Some(id) else s
      case None => s
  }

  /** With no start set yet, the start is the id of the first segment that is accepted. */
  lemma {:induction false} SegmentStartFirst(start: Option<string>, segments: seq<string>, n: nat, i: nat)
    requires Falsy(start) && i < n <= |segments|
    requires SegmentEntry(segments[i]).Some?
    requires forall j :: 0 <= j < i ==> SegmentEntry(segments[j]).None?
    ensures SegmentStart(start, segments, n) == Some(SegmentEntry(segments[i]).value.0)
  {
    if n - 1 > i {
      SegmentStartFirst(start, segments, n - 1, i);
    } else {
      assert SegmentStart(start, segments, i) == start;
    }
  }

  /** Lines 137-143: the stored start if it is a key, else the candidate if it is a key,
      else the first key (null for an empty map). */
  function ResolveStart(g: Graph, stored: Option<string>, candidate: Option<string>): (r: Option<string>)
    ensures r == stored || r == candidate || r == g.FirstKeyOrNull()
    ensures !Falsy(stored) && stored.value in g.entries ==> r == stored
    ensures (Falsy(stored) || stored.value !in g.entries) && !Falsy(candidate) && candidate.value in g.entries
            ==> r == candidate
    ensures (Falsy(stored) || stored.value !in g.entries) && (Falsy(candidate) || candidate.value !in g.entries)
            ==> r == g.FirstKeyOrNull()
  {
    if !Falsy(stored) && stored.value in g.entries then stored
    else if Falsy(candidate) || candidate.value !in g.entries then g.FirstKeyOrNull()
    else candidate
  }

  function PlainTextResult(p: ParseResult, text: string, stored: Option<string>): ParseResult {
    match CutPreamble(Trim(text))
    case None => p
    case Some(t) =>
      var segments := Segments(LeadingNewline(t));
      if |segments| == 0 then p
      else
        var g := PutAll(p.storyMap, SegmentItems(segments), |segments|);
        ParseResult(g, ResolveStart(g, stored, SegmentStart(p.startNodeId, segments, |segments|)))
  }

  // ---- The three paths in turn --------------------------------------------------------------

  /** Lines 56-147, from the state the structured path left. */
  function LegacyResult(p: ParseResult, legacy: Option<LegacyInput>, stored: Option<string>): ParseResult {
    if legacy.None? || Trim(legacy.value.text) == "" then p
    else
      match legacy.value.parsed
      case JsonObject(entries) =>
        var q := JsonResult(p, entries, stored);
        if |q.storyMap.keys| > 0 then q else PlainTextResult(q, legacy.value.text, stored)
      case NotJsonObject => PlainTextResult(p, legacy.value.text, stored)
  }

  /** What `parseStory` returns, with `stored` for the session-storage start id. */
  function ParseStorySpec(content: Option<map<string, string>>, outline: Option<StoryStructure>,
                          legacy: Option<LegacyInput>, stored: Option<string>): ParseResult
  {
    if StructuredApplies(content, outline) then
      var r := StructuredResult(content.value, outline.value);
      if |r.storyMap.keys| > 0 then r else LegacyResult(r, legacy, stored)
    else LegacyResult(ParseResult(EmptyGraph, None), legacy, stored)
  }

  // ---- The method ---------------------------------------------------------------------------

  /** The loop at 25-43. */
  method AddStructuredNodes(storyMap: StoryMap, nodes: seq<NodeStructure>, content: map<string, string>)
    requires storyMap.Valid()
    modifies storyMap
    ensures storyMap.Valid()
    ensures storyMap.Model() == PutAll(old(storyMap.Model()), StructuredItems(nodes, content), |nodes|)
  {
    ghost var g0 := storyMap.Model();
    ghost var items := StructuredItems(nodes, content);
    for i := 0 to |nodes|
      invariant storyMap.Valid()
      invariant storyMap.Model() == PutAll(g0, items, i)
    {
      var nodeStruct := nodes[i];
      var generatedNarrative := if nodeStruct.id in content then content[nodeStruct.id]
                                else MissingContent(nodeStruct);
      var isFailedNode := IsFailureSentinel(generatedNarrative);
      var nodeData := StoryNode(
        nodeStruct.id,
        nodeStruct.title,
        if nodeStruct.isEnding || isFailedNode then "" else generatedNarrative,
        if nodeStruct.isEnding || isFailedNode then [] else nodeStruct.decisions.GetOr([]),
        nodeStruct.isEnding || isFailedNode,
        if nodeStruct.isEnding then Some(generatedNarrative)
        else if isFailedNode then Some(generatedNarrative) else None);
      storyMap.Set(nodeStruct.id, nodeData);
    }
  }

  /** The loop at 68-77; returns `firstNodeIdInJson`. */
  method AddJsonEntries(storyMap: StoryMap, entries: seq<(string, JsonValue)>) returns (first: Option<string>)
    requires storyMap.Valid()
    modifies storyMap
    ensures storyMap.Valid()
    ensures storyMap.Model() == PutAll(old(storyMap.Model()), JsonItems(entries), |entries|)
    ensures first == JsonFirst(entries, |entries|)
  {
    ghost var g0 := storyMap.Model();
    ghost var items := JsonItems(entries);
    first := None;
    for i := 0 to |entries|
      invariant storyMap.Valid()
      invariant storyMap.Model() == PutAll(g0, items, i)
      invariant first == JsonFirst(entries, i)
    {
      var (nodeId, value) := entries[i];
      if Falsy(first) {
        first := Some(nodeId);
      }
      if value.JString? {
        var nodeData := ParseSingleNodeRawText(nodeId, value.s);
        storyMap.Set(nodeId, nodeData);
      }
    }
  }

  /** Lines 117-130 for one segment: split off the id line and check it. */
  method ReadSegment(segment: string) returns (entry: Option<(string, string)>)
    ensures entry == SegmentEntry(segment)
  {
    var lines := SplitLines(segment);
    var idLine := lines[0];
    lines := lines[1..];
    if idLine == "" || |Trim(idLine)| == 0 {
      return None;
    }
    var id := Trim(idLine);
    if !IsNodeId(id) {
      return None;
    }
    var contentString := JoinLines(lines);
    return Some((id, contentString));
  }

  /** The loop at 116-134; returns the new `startNodeId`. */
  method AddSegments(storyMap: StoryMap, segments: seq<string>, start: Option<string>)
    returns (startNodeId: Option<string>)
    requires storyMap.Valid()
    modifies storyMap
    ensures storyMap.Valid()
    ensures storyMap.Model() == PutAll(old(storyMap.Model()), SegmentItems(segments), |segments|)
    ensures startNodeId == SegmentStart(start, segments, |segments|)
  {
    ghost var g0 := storyMap.Model();
    ghost var items := SegmentItems(segments);
    startNodeId := start;
    for i := 0 to |segments|
      invariant storyMap.Valid()
      invariant storyMap.Model() == PutAll(g0, items, i)
      invariant startNodeId == SegmentStart(start, segments, i)
    {
      var entry := ReadSegment(segments[i]);
      if entry.None? {
        continue;
      }
      var (id, contentString) := entry.value;
      var nodeData := ParseSingleNodeRawText(id, contentString);
      storyMap.Set(id, nodeData);
      if Falsy(startNodeId) {
        startNodeId := Some(id);
      }
    }
  }

  /** Lines 88-103: the trimmed text from its first `Node ID:` on, behind a newline; None
      when there is no `Node ID:` (the early return at 96). */
  method NormalizeText(legacyStoryText: string) returns (normalized: Option<string>)
    ensures normalized == match CutPreamble(Trim(legacyStoryText))
                          case Some(t) => Some(LeadingNewline(t))
                          case None => None
  {
    var normalizedText := Trim(legacyStoryText);
    if normalizedText != "" && !StartsWith(normalizedText, NodeIdMarker)
       && !StartsWith(normalizedText, "\n" + NodeIdMarker) {
      var firstNodeIdOccurrence := IndexOf(normalizedText, NodeIdMarker, 0);
      if firstNodeIdOccurrence.Some? && firstNodeIdOccurrence.value > 0 {
        normalizedText := normalizedText[firstNodeIdOccurrence.value..];
      } else if firstNodeIdOccurrence.None? {
        return None;
      }
    }
    if StartsWith(normalizedText, NodeIdMarker) {
      normalizedText := "\n" + normalizedText;
    }
    return Some(normalizedText);
  }

  /** Lines 105-109. */
  method SplitSegments(normalizedText: string) returns (segments: seq<string>)
    ensures segments == Segments(normalizedText)
  {
    var pieces := SplitOnMarker(normalizedText, 0);
    segments := NonBlank(pieces, |pieces|);
    if |segments| == 0 && StartsWith(normalizedText, "ode ID:") {
      segments := segments + [Trim(Drop(normalizedText, 8))];
    }
  }

  /** Lines 88-146. */
  method ParsePlainText(storyMap: StoryMap, start: Option<string>, legacyStoryText: string, stored: Option<string>)
    returns (startNodeId: Option<string>)
    requires storyMap.Valid()
    modifies storyMap
    ensures storyMap.Valid()
    ensures ParseResult(storyMap.Model(), startNodeId)
            == PlainTextResult(ParseResult(old(storyMap.Model()), start), legacyStoryText, stored)
  {
    startNodeId := start;
    var normalized := NormalizeText(legacyStoryText);
    if normalized.None? {
      return;
    }
    var segments := SplitSegments(normalized.value);
    if |segments| == 0 {
      return;
    }
    startNodeId := AddSegments(storyMap, segments, startNodeId);
    var storedStartNodeId := stored;
    if !Falsy(storedStartNodeId) && storyMap.Has(storedStartNodeId.value) {
      startNodeId := storedStartNodeId;
    } else if Falsy(startNodeId) || !storyMap.Has(startNodeId.value) {
      startNodeId := storyMap.FirstKeyOrNull();
    }
  }

  /** Lines 56-147. */
  method ParseLegacy(storyMap: StoryMap, start: Option<string>, legacy: Option<LegacyInput>, stored: Option<string>)
    returns (startNodeId: Option<string>)
    requires storyMap.Valid()
    modifies storyMap
    ensures storyMap.Valid()
    ensures ParseResult(storyMap.Model(), startNodeId)
            == LegacyResult(ParseResult(old(storyMap.Model()), start), legacy, stored)
  {
    startNodeId := start;
    if legacy.None? || Trim(legacy.value.text) == "" {
      return;
    }
    if legacy.value.parsed.JsonObject? {
      var entries := legacy.value.parsed.entries;
      var firstNodeIdInJson := AddJsonEntries(storyMap, entries);
      startNodeId := if !Falsy(stored) then stored else firstNodeIdInJson;
      if !Falsy(startNodeId) && !storyMap.Has(startNodeId.value) && !Falsy(firstNodeIdInJson) {
        startNodeId := firstNodeIdInJson;
      }
      if storyMap.Size() > 0 {
        return;
      }
    }
    startNodeId := ParsePlainText(storyMap, startNodeId, legacy.value.text, stored);
  }

  /** `parseStory`. */
  method ParseStory(content: Option<map<string, string>>, outline: Option<StoryStructure>,
                    legacy: Option<LegacyInput>, stored: Option<string>)
    returns (storyMap: StoryMap, startNodeId: Option<string>)
    ensures storyMap.Valid()
    ensures ParseResult(storyMap.Model(), startNodeId) == ParseStorySpec(content, outline, legacy, stored)
  {
    storyMap := new StoryMap();
    startNodeId := None;
    if StructuredApplies(content, outline) {
      AddStructuredNodes(storyMap, outline.value.nodes, content.value);
      startNodeId := Some(outline.value.startNodeId);
      if storyMap.Size() > 0 {
        return;
      }
    }
    startNodeId := ParseLegacy(storyMap, startNodeId, legacy, stored);
  }
}
