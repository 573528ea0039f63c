/** What `parseStory` (src/lib/story-parser.ts:10-147) promises, proved of its
    specification `ParseStorySpec`: how each path builds its nodes and its map, how the
    start node is chosen, and what every result has in common. */
module StoryParserFacts {
  import opened Wrappers
  import opened Text
  import opened StoryTypes
  import opened StoryMaps
  import opened NodeText
  import opened StoryParser

  // ---- Structured path ------------------------------------------------------------------------

  /** A node of the outline: its id and title are the declared ones; without generated
      content it gets the placeholder; a declared ending or a failure sentinel makes it an
      ending whose text is the content, and otherwise it is a page with the content as
      narrative and the declared decisions, unchanged. */
  lemma StructuredNodeFacts(ns: NodeStructure, content: map<string, string>)
    ensures var n := StructuredNode(ns, content);
            var text := GeneratedNarrative(ns, content);
            && n.id == ns.id && n.title == ns.title
            && (ns.id !in content ==> text == MissingContent(ns))
            && (n.isEnding <==> ns.isEnding || IsFailureSentinel(text))
            && (n.isEnding ==> n.rawContent == "" && n.decisions == [] && n.endingText == Some(text))
            && (!n.isEnding ==> (n.rawContent == text && n.decisions == ns.decisions.GetOr([])
                                 && n.endingText.None?))
  {
  }

  /** The placeholder is not a failure sentinel: a node without content stays a page
      unless the outline declares it an ending. */
  lemma MissingContentIsNotSentinel(ns: NodeStructure, content: map<string, string>)
    requires ns.id !in content
    ensures !IsFailureSentinel(MissingContent(ns))
    ensures StructuredNode(ns, content).isEnding == ns.isEnding
  {
    NotStartsWith(MissingContent(ns), "[Content generation failed", 9);
    NotStartsWith(MissingContent(ns), "[Content generation critically failed", 9);
  }

  /** The text the content generator returns when it fails, `[Error generating content…`,
      is not one of the failure prefixes: such a node stays a page and shows that text. */
  lemma ErrorTextIsNotSentinel(ns: NodeStructure, content: map<string, string>, rest: string)
    requires ns.id in content && content[ns.id] == "[Error generating content" + rest
    requires !ns.isEnding
    ensures !IsFailureSentinel(content[ns.id])
    ensures !StructuredNode(ns, content).isEnding
    ensures StructuredNode(ns, content).rawContent == content[ns.id]
  {
    NotStartsWith(content[ns.id], "[Content generation failed", 1);
    NotStartsWith(content[ns.id], "[Content generation critically failed", 1);
  }

  /** The ids the outline declares. */
  function DeclaredIds(nodes: seq<NodeStructure>): set<string> {
    set i | 0 <= i < |nodes| :: nodes[i].id
  }

  /** No later node of the outline has the id of node i. */
  predicate LastWithId(nodes: seq<NodeStructure>, i: nat)
    requires i < |nodes|
  {
    forall j :: i < j < |nodes| ==> nodes[j].id != nodes[i].id
  }

  /** The map of the structured path has exactly the declared ids as keys, with the first
      declared id first. */
  lemma StructuredMapKeys(nodes: seq<NodeStructure>, content: map<string, string>)
    ensures var g := PutAll(EmptyGraph, StructuredItems(nodes, content), |nodes|);
            && g.Valid()
            && g.entries.Keys == DeclaredIds(nodes)
            && (|nodes| > 0 ==> |g.keys| > 0 && g.keys[0] == nodes[0].id)
  {
    var items := StructuredItems(nodes, content);
    PutAllValid(EmptyGraph, items, |nodes|);
    StructuredItemKeys(nodes, content);
    if |nodes| > 0 {
      PutAllFirstKey(EmptyGraph, items, |nodes|, 0);
    }
  }

  /** The structured path sets exactly the declared ids. */
  lemma StructuredItemKeys(nodes: seq<NodeStructure>, content: map<string, string>)
    ensures ItemKeys(StructuredItems(nodes, content), |nodes|) == DeclaredIds(nodes)
  {
    var items := StructuredItems(nodes, content);
    forall k | k in DeclaredIds(nodes) ensures k in ItemKeys(items, |nodes|) {
      var i :| 0 <= i < |nodes| && nodes[i].id == k;
      assert items[i].Some? && items[i].value.0 == k;
    }
  }

  /** Each node of the structured path is stored under its own id. */
  lemma StructuredMapIds(nodes: seq<NodeStructure>, content: map<string, string>)
    ensures var g := PutAll(EmptyGraph, StructuredItems(nodes, content), |nodes|);
            forall k :: k in g.entries ==> g.entries[k].id == k
  {
    PutAllKeeps(EmptyGraph, StructuredItems(nodes, content), |nodes|, (k: string, node: StoryNode) => node.id == k);
  }

  /** Under each id the map holds the node built from the last declaration of that id. */
  lemma StructuredMapNodes(nodes: seq<NodeStructure>, content: map<string, string>)
    ensures var g := PutAll(EmptyGraph, StructuredItems(nodes, content), |nodes|);
            forall i :: 0 <= i < |nodes| && LastWithId(nodes, i)
                        ==> nodes[i].id in g.entries && g.entries[nodes[i].id] == StructuredNode(nodes[i], content)
  {
    var items := StructuredItems(nodes, content);
    forall i | 0 <= i < |nodes| && LastWithId(nodes, i)
      ensures nodes[i].id in PutAll(EmptyGraph, items, |nodes|).entries
      ensures PutAll(EmptyGraph, items, |nodes|).entries[nodes[i].id] == StructuredNode(nodes[i], content)
    {
      PutAllLast(EmptyGraph, items, |nodes|, i);
    }
  }

  /** With content, a start id and at least one declared node, the structured path decides
      the result: its map, and the declared start id as it stands, key or not. */
  lemma StructuredPathTaken(content: Option<map<string, string>>, outline: Option<StoryStructure>,
                            legacy: Option<LegacyInput>, stored: Option<string>)
    requires StructuredApplies(content, outline) && |outline.value.nodes| > 0
    ensures ParseStorySpec(content, outline, legacy, stored) == StructuredResult(content.value, outline.value)
    ensures ParseStorySpec(content, outline, legacy, stored).startNodeId == Some(outline.value.startNodeId)
  {
    StructuredMapKeys(outline.value.nodes, content.value);
  }

  /** The declared start id is not checked against the nodes. */
  lemma StructuredStartNotValidated()
    ensures var outline := StoryStructure([NodeStructure("a", "A", "", None, false)], "b");
            var r := ParseStorySpec(Some(map[]), Some(outline), None, None);
            r.startNodeId == Some("b") && "b" !in r.storyMap.entries && "a" in r.storyMap.entries
  {
    var outline := StoryStructure([NodeStructure("a", "A", "", None, false)], "b");
    StructuredPathTaken(Some(map[]), Some(outline), None, None);
    StructuredMapKeys(outline.nodes, map[]);
    assert DeclaredIds(outline.nodes) == {"a"};
  }

  /** An outline without nodes leaves its start id behind: with no legacy text the result
      is an empty map whose start is that id. */
  lemma EmptyOutlineKeepsStart(content: Option<map<string, string>>, outline: Option<StoryStructure>,
                               legacy: Option<LegacyInput>, stored: Option<string>)
    requires StructuredApplies(content, outline) && outline.value.nodes == []
    requires legacy.None? || Trim(legacy.value.text) == ""
    ensures ParseStorySpec(content, outline, legacy, stored)
            == ParseResult(EmptyGraph, Some(outline.value.startNodeId))
  {
  }

  // ---- JSON-map path --------------------------------------------------------------------------

  /** While every key seen is the empty string, `firstNodeIdInJson` stays falsy. */
  lemma {:induction false} JsonFirstBlank(entries: seq<(string, JsonValue)>, n: nat)
    requires n <= |entries|
    requires forall j :: 0 <= j < n ==> entries[j].0 == ""
    ensures Falsy(JsonFirst(entries, n))
  {
    if n > 0 {
      JsonFirstBlank(entries, n - 1);
    }
  }

  /** `firstNodeIdInJson` is the first key that is not the empty string, whatever its value. */
  lemma {:induction false} JsonFirstKey(entries: seq<(string, JsonValue)>, n: nat, i: nat)
    requires i < n <= |entries| && entries[i].0 != ""
    requires forall j :: 0 <= j < i ==> entries[j].0 == ""
    ensures JsonFirst(entries, n) == Some(entries[i].0)
  {
    if n == i + 1 {
      JsonFirstBlank(entries, i);
    } else {
      JsonFirstKey(entries, n - 1, i);
    }
  }

  /** The keys whose values are strings. */
  function StringKeys(entries: seq<(string, JsonValue)>): set<string> {
    set i | 0 <= i < |entries| && entries[i].1.JString? :: entries[i].0
  }

  /** The map of the JSON path has as keys exactly the keys whose values are strings, and
      each node is stored under its own id. */
  lemma JsonMapKeys(entries: seq<(string, JsonValue)>)
    ensures var g := PutAll(EmptyGraph, JsonItems(entries), |entries|);
            && g.Valid()
            && g.entries.Keys == StringKeys(entries)
            && (forall k :: k in g.entries ==> g.entries[k].id == k)
  {
    var items := JsonItems(entries);
    PutAllValid(EmptyGraph, items, |entries|);
    JsonItemKeys(entries);
    forall i | 0 <= i < |entries| && items[i].Some?
      ensures items[i].value.1.id == items[i].value.0
    {
      JsonItemId(entries, i);
    }
    PutAllKeeps(EmptyGraph, items, |entries|, (k: string, node: StoryNode) => node.id == k);
  }

  /** The JSON path sets exactly the keys whose values are strings. */
  lemma JsonItemKeys(entries: seq<(string, JsonValue)>)
    ensures ItemKeys(JsonItems(entries), |entries|) == StringKeys(entries)
  {
    var items := JsonItems(entries);
    forall k | k in StringKeys(entries) ensures k in ItemKeys(items, |entries|) {
      var i :| 0 <= i < |entries| && entries[i].1.JString? && entries[i].0 == k;
      assert items[i].Some? && items[i].value.0 == k;
    }
  }

  /** A property with a string value is set under its key, with a node carrying that key. */
  lemma JsonItemId(entries: seq<(string, JsonValue)>, i: nat)
    requires i < |entries| && JsonItems(entries)[i].Some?
    ensures JsonItems(entries)[i].value.1.id == JsonItems(entries)[i].value.0
  {
    ExtractNodeTitle(entries[i].0, entries[i].1.s);
  }

  /** Under a key whose last value is a string, the map holds the node parsed from it. */
  lemma {:induction false} JsonMapNodes(entries: seq<(string, JsonValue)>, i: nat)
    requires i < |entries| && entries[i].1.JString?
    requires forall j :: i < j < |entries| ==> entries[j].0 != entries[i].0
    ensures var g := PutAll(EmptyGraph, JsonItems(entries), |entries|);
            entries[i].0 in g.entries && g.entries[entries[i].0] == ExtractNode(entries[i].0, entries[i].1.s)
  {
    PutAllLast(EmptyGraph, JsonItems(entries), |entries|, i);
  }

  /** The JSON path run on an empty map: a well-formed map whose nodes carry their keys,
      a start whenever the map is not empty, and the empty map itself otherwise. */
  lemma JsonResultFacts(p: ParseResult, entries: seq<(string, JsonValue)>, stored: Option<string>)
    requires p.storyMap == EmptyGraph
    ensures var q := JsonResult(p, entries, stored);
            && q.storyMap == PutAll(EmptyGraph, JsonItems(entries), |entries|)
            && q.storyMap.Valid()
            && (forall k :: k in q.storyMap.entries ==> q.storyMap.entries[k].id == k)
            && (|q.storyMap.keys| > 0 ==> q.startNodeId.Some?)
            && (q.storyMap.keys == [] ==> q.storyMap == EmptyGraph)
  {
    var q := JsonResult(p, entries, stored);
    JsonMapKeys(entries);
    if q.storyMap.keys == [] {
      assert q.storyMap.entries == map[];
    } else if Falsy(stored) {
      assert |entries| > 0;
    }
  }

  /** When the legacy text is a JSON object with a string value and the structured path
      did not return, the JSON path returns: its map, and as start the stored id if it is
      a key (or if there is no truthy first key), else the first key; never null. */
  lemma JsonPathTaken(content: Option<map<string, string>>, outline: Option<StoryStructure>,
                      legacy: Option<LegacyInput>, stored: Option<string>, i: nat)
    requires !(StructuredApplies(content, outline) && |outline.value.nodes| > 0)
    requires legacy.Some? && Trim(legacy.value.text) != "" && legacy.value.parsed.JsonObject?
    requires i < |legacy.value.parsed.entries| && legacy.value.parsed.entries[i].1.JString?
    ensures var entries := legacy.value.parsed.entries;
            var r := ParseStorySpec(content, outline, legacy, stored);
            var first := JsonFirst(entries, |entries|);
            && r.storyMap == PutAll(EmptyGraph, JsonItems(entries), |entries|)
            && r.startNodeId == (if !Falsy(stored) && (stored.value in r.storyMap.entries || Falsy(first))
                                 then stored else first)
            && r.startNodeId.Some?
  {
    var entries := legacy.value.parsed.entries;
    var p := if StructuredApplies(content, outline) then StructuredResult(content.value, outline.value)
             else ParseResult(EmptyGraph, None);
    assert p.storyMap == EmptyGraph;
    assert ParseStorySpec(content, outline, legacy, stored) == LegacyResult(p, legacy, stored);
    JsonMapKeys(entries);
    var g := PutAll(EmptyGraph, JsonItems(entries), |entries|);
    assert entries[i].0 in g.entries;
    assert |g.keys| > 0;
  }

  // ---- Plain-text path ------------------------------------------------------------------------

  /** A legacy text without `Node ID:` adds no node and leaves the start as the earlier
      paths left it. */
  lemma NoMarkerKeepsState(p: ParseResult, text: string, stored: Option<string>)
    requires !Contains(Trim(text), NodeIdMarker)
    ensures PlainTextResult(p, text, stored) == p
  {
    var t := Trim(text);
    StartsWithOccursAt(t, NodeIdMarker);
    if t != "" {
      NotStartsWith(t, "\n" + NodeIdMarker, 0);
    } else {
      assert SplitOnMarker(t, 0) == [""];
    }
  }

  /** Whatever precedes the first `Node ID:` is discarded: the result is the result for
      the text from that marker on. */
  lemma PreambleDiscarded(p: ParseResult, text: string, stored: Option<string>, k: nat)
    requires IndexOf(Trim(text), NodeIdMarker, 0) == Some(k)
    ensures PlainTextResult(p, text, stored) == PlainTextResult(p, Trim(text)[k..], stored)
  {
    TrimmedCut(text, k);
    SameCut(p, text, Trim(text)[k..], stored);
  }

  /** Cutting the trimmed text, and cutting again what that left, give the same text. */
  lemma TrimmedCut(text: string, k: nat)
    requires IndexOf(Trim(text), NodeIdMarker, 0) == Some(k)
    ensures CutPreamble(Trim(text)) == CutPreamble(Trim(Trim(text)[k..]))
  {
    var t := Trim(text);
    var u := t[k..];
    assert u[..8] == t[k..k + 8];
    assert u[0] == 'N' && u[|u| - 1] == t[|t| - 1];
    TrimOfTrimmed(u);
    CutAtMarker(t, k);
  }

  /** The plain-text path sees its text only through the cut. */
  lemma SameCut(p: ParseResult, a: string, b: string, stored: Option<string>)
    requires CutPreamble(Trim(a)) == CutPreamble(Trim(b))
    ensures PlainTextResult(p, a, stored) == PlainTextResult(p, b, stored)
  {
  }

  /** Cutting a text with no white space at its start at its first `Node ID:`. */
  lemma CutAtMarker(t: string, k: nat)
    requires t != [] && !IsSpace(t[0])
    requires IndexOf(t, NodeIdMarker, 0) == Some(k)
    requires StartsWith(t[k..], NodeIdMarker)
    ensures CutPreamble(t) == Some(t[k..]) == CutPreamble(t[k..])
  {
    StartsWithOccursAt(t, NodeIdMarker);
    if k > 0 {
      NotStartsWith(t, "\n" + NodeIdMarker, 0);
    } else {
      assert t[k..] == t;
    }
  }

  /** After lines 90-103 the text is empty or starts with a newline, so the guard at 107
      (a text starting with `ode ID:`) never holds. */
  lemma FallbackSplitUnused(t: string)
    requires CutPreamble(t).Some?
    ensures var n := LeadingNewline(CutPreamble(t).value); n == [] || n[0] == '\n'
    ensures !StartsWith(LeadingNewline(CutPreamble(t).value), "ode ID:")
  {
    StartsWithOccursAt(t, NodeIdMarker);
    var c := CutPreamble(t).value;
    if c != t {
      var k := IndexOf(t, NodeIdMarker, 0).value;
      assert c[..8] == t[k..k + 8];
    }
    var n := LeadingNewline(c);
    if n != [] {
      NotStartsWith(n, "ode ID:", 0);
    }
  }

  /** A match found by NextSeparator is an occurrence of `\nNode ID:`, and the separator
      ends where the white space after it ends. */
  lemma {:induction false} NextSeparatorFound(s: string, from: nat)
    requires from <= |s|
    ensures NextSeparator(s, from).Some? ==>
              var (p, next) := NextSeparator(s, from).value;
              OccursAt(s, "\n" + NodeIdMarker, p) && next == p + 9 + SpaceRun(s, p + 9)
    decreases |s| - from
  {
    if from + 9 <= |s| && !OccursAt(s, "\n" + NodeIdMarker, from) {
      NextSeparatorFound(s, from + 1);
    }
  }

  /** The match found is the leftmost: no occurrence starts before it, and none at all
      when there is no match. */
  lemma {:induction false} NextSeparatorLeftmost(s: string, from: nat)
    requires from <= |s|
    ensures forall j :: from <= j && (NextSeparator(s, from).None? || j < NextSeparator(s, from).value.0)
                        ==> !OccursAt(s, "\n" + NodeIdMarker, j)
    decreases |s| - from
  {
    if from + 9 <= |s| && !OccursAt(s, "\n" + NodeIdMarker, from) {
      NextSeparatorLeftmost(s, from + 1);
    }
  }

  /** One piece more than separators. */
  lemma {:induction false} SplitCounts(s: string, from: nat)
    requires from <= |s|
    ensures |SplitOnMarker(s, from)| == |MarkerSeparators(s, from)| + 1
    decreases |s| - from
  {
    match NextSeparator(s, from)
    case None =>
    case Some((p, next)) => SplitCounts(s, next);
  }

  /** The split loses nothing: putting the matched separators back between the pieces
      gives the text again. */
  lemma {:induction false} SplitRoundTrip(s: string, from: nat)
    requires from <= |s|
    ensures |SplitOnMarker(s, from)| == |MarkerSeparators(s, from)| + 1
    ensures Interleave(SplitOnMarker(s, from), MarkerSeparators(s, from)) == s[from..]
    decreases |s| - from
  {
    SplitCounts(s, from);
    match NextSeparator(s, from)
    case None =>
    case Some((p, next)) =>
      SplitRoundTrip(s, next);
      InterleaveCons(s[from..p], s[p..next], SplitOnMarker(s, next), MarkerSeparators(s, next));
      SliceThree(s, from, p, next);
  }

  /** Every separator the split matches is `\nNode ID:` then white space only. */
  lemma {:induction false} SplitSeparators(s: string, from: nat)
    requires from <= |s|
    ensures forall k :: 0 <= k < |MarkerSeparators(s, from)| ==> IsMarkerSeparator(MarkerSeparators(s, from)[k])
    decreases |s| - from
  {
    NextSeparatorFound(s, from);
    match NextSeparator(s, from)
    case None =>
    case Some((p, next)) =>
      SplitSeparators(s, next);
      SeparatorAt(s, p);
      ConsSeparators(s[p..next], MarkerSeparators(s, next));
  }

  lemma ConsSeparators(sep: string, seps: seq<string>)
    requires IsMarkerSeparator(sep)
    requires forall k :: 0 <= k < |seps| ==> IsMarkerSeparator(seps[k])
    ensures forall k :: 0 <= k < |seps| + 1 ==> IsMarkerSeparator(([sep] + seps)[k])
  {
    forall k | 0 <= k < |seps| + 1 ensures IsMarkerSeparator(([sep] + seps)[k]) {
      if k > 0 { assert ([sep] + seps)[k] == seps[k - 1]; }
    }
  }

  lemma InterleaveCons(piece: string, sep: string, pieces: seq<string>, seps: seq<string>)
    requires |pieces| == |seps| + 1
    ensures Interleave([piece] + pieces, [sep] + seps) == piece + sep + Interleave(pieces, seps)
  {
    assert ([piece] + pieces)[1..] == pieces && ([sep] + seps)[1..] == seps;
  }

  lemma SliceThree(s: string, i: nat, j: nat, k: nat)
    requires i <= j <= k <= |s|
    ensures s[i..] == s[i..j] + s[j..k] + s[k..]
  {
  }

  /** What the split matches at an occurrence of `\nNode ID:` is a separator. */
  lemma SeparatorAt(s: string, p: nat)
    requires OccursAt(s, "\n" + NodeIdMarker, p)
    ensures IsMarkerSeparator(s[p..p + 9 + SpaceRun(s, p + 9)])
  {
    assert s[p..p + 9 + SpaceRun(s, p + 9)][..9] == s[p..p + 9];
  }

  /** Every piece of the split is free of the separator. */
  lemma {:induction false} SplitPiecesHaveNoSeparator(s: string, from: nat)
    requires from <= |s|
    ensures forall k :: 0 <= k < |SplitOnMarker(s, from)| ==> !Contains(SplitOnMarker(s, from)[k], "\n" + NodeIdMarker)
    decreases |s| - from
  {
    var m := "\n" + NodeIdMarker;
    NextSeparatorFound(s, from);
    NextSeparatorLeftmost(s, from);
    match NextSeparator(s, from)
    case None =>
      PieceHasNoSeparator(s, m, from, |s|);
      assert s[from..|s|] == s[from..];
    case Some((p, next)) =>
      PieceHasNoSeparator(s, m, from, p);
      SplitPiecesHaveNoSeparator(s, next);
  }

  lemma PieceHasNoSeparator(s: string, m: string, lo: nat, hi: nat)
    requires lo <= hi <= |s|
    requires forall j :: lo <= j && j + |m| <= hi ==> !OccursAt(s, m, j)
    ensures !Contains(s[lo..hi], m)
  {
    match IndexOf(s[lo..hi], m, 0)
    case None =>
    case Some(j) => OccursInSlice(s, m, lo, hi, j);
  }

  /** A segment made of an id line and a body reads back as that id and that body. */
  lemma SegmentEntryOfParts(id: string, body: string)
    requires IsNodeId(id)
    ensures SegmentEntry(id + "\n" + body) == Some((id, body))
  {
    forall i | 0 <= i < |id| ensures id[i] != '\n' {
      assert IsWordChar(id[i]);
    }
    SplitLinesAfterFirst(id, body);
    JoinSplitLines(body);
    assert IsWordChar(id[0]) && IsWordChar(id[|id| - 1]);
    TrimOfTrimmed(id);
    assert SplitLines(id + "\n" + body)[1..] == SplitLines(body);
  }

  /** Lines 137-143 on a map whose keys are not empty: the start is null exactly when the
      map is empty, and otherwise a key; the stored id wins when it is a key, then the
      candidate when it is a key, then the first key. */
  lemma ResolveStartFacts(g: Graph, stored: Option<string>, candidate: Option<string>)
    requires g.Valid()
    requires forall k :: k in g.entries ==> k != ""
    ensures var r := ResolveStart(g, stored, candidate);
            && (r.None? <==> g.keys == [])
            && (r.Some? ==> r.value in g.entries)
            && (!Falsy(stored) && stored.value in g.entries ==> r == stored)
            && ((Falsy(stored) || stored.value !in g.entries) && !Falsy(candidate) && candidate.value in g.entries
                ==> r == candidate)
            && ((Falsy(stored) || stored.value !in g.entries) && (Falsy(candidate) || candidate.value !in g.entries)
                  && g.keys != []
                ==> r == Some(g.keys[0]))
  {
    if g.keys != [] {
      assert g.keys[0] in g.entries;
    }
  }

  /** The plain-text path run on an empty map: a well-formed map whose keys are node ids,
      each holding a node with that id; a start that is a key whenever the map is not empty;
      and with an empty map, a null start or the start the earlier paths left. */
  lemma PlainTextNodes(p: ParseResult, text: string, stored: Option<string>)
    requires p.storyMap == EmptyGraph
    ensures var r := PlainTextResult(p, text, stored);
            && r.storyMap.Valid()
            && (forall k :: k in r.storyMap.entries ==> IsNodeId(k) && r.storyMap.entries[k].id == k)
            && (|r.storyMap.keys| > 0 ==> r.startNodeId.Some? && r.startNodeId.value in r.storyMap.entries)
            && (r.storyMap.keys == [] ==> r.startNodeId == p.startNodeId || r.startNodeId.None?)
  {
    match CutPreamble(Trim(text))
    case None =>
    case Some(t) =>
      var segments := Segments(LeadingNewline(t));
      if |segments| > 0 {
        var items := SegmentItems(segments);
        SegmentItemsIds(segments);
        PutAllIds(items, |segments|);
        var g := PutAll(EmptyGraph, items, |segments|);
        ResolveStartFacts(g, stored, SegmentStart(p.startNodeId, segments, |segments|));
      }
  }

  /** Steps that each set a node id to a node with that id, run on an empty map, give a
      well-formed map of such keys and nodes. */
  lemma PutAllIds(items: seq<Option<(string, StoryNode)>>, n: nat)
    requires n <= |items|
    requires forall i :: 0 <= i < n && items[i].Some? ==> IsNodeId(items[i].value.0) && items[i].value.1.id == items[i].value.0
    ensures PutAll(EmptyGraph, items, n).Valid()
    ensures forall k :: k in PutAll(EmptyGraph, items, n).entries ==> IsNodeId(k) && PutAll(EmptyGraph, items, n).entries[k].id == k
  {
    PutAllValid(EmptyGraph, items, n);
    PutAllKeeps(EmptyGraph, items, n, (k: string, node: StoryNode) => IsNodeId(k) && node.id == k);
  }

  /** Every accepted segment is set under a node id, with a node carrying that id. */
  lemma SegmentItemsIds(segments: seq<string>)
    ensures forall i :: 0 <= i < |segments| && SegmentItems(segments)[i].Some? ==>
              && IsNodeId(SegmentItems(segments)[i].value.0)
              && SegmentItems(segments)[i].value.1.id == SegmentItems(segments)[i].value.0
  {
    forall i | 0 <= i < |segments| && SegmentItems(segments)[i].Some?
      ensures IsNodeId(SegmentItems(segments)[i].value.0)
      ensures SegmentItems(segments)[i].value.1.id == SegmentItems(segments)[i].value.0
    {
      SegmentItemId(segments, i);
    }
  }

  /** An accepted segment is set under a node id, with a node carrying that id. */
  lemma SegmentItemId(segments: seq<string>, i: nat)
    requires i < |segments| && SegmentItems(segments)[i].Some?
    ensures IsNodeId(SegmentItems(segments)[i].value.0)
    ensures SegmentItems(segments)[i].value.1.id == SegmentItems(segments)[i].value.0
  {
    var e := SegmentEntry(segments[i]).value;
    ExtractNodeTitle(e.0, e.1);
  }

  // ---- Every result -------------------------------------------------------------------------

  /** The legacy paths run on an empty map. */
  lemma LegacyResultFacts(p: ParseResult, legacy: Option<LegacyInput>, stored: Option<string>)
    requires p.storyMap == EmptyGraph
    ensures var r := LegacyResult(p, legacy, stored);
            && r.storyMap.Valid()
            && (forall k :: k in r.storyMap.entries ==> r.storyMap.entries[k].id == k)
            && (|r.storyMap.keys| > 0 ==> r.startNodeId.Some?)
  {
    if legacy.Some? && Trim(legacy.value.text) != "" {
      match legacy.value.parsed
      case JsonObject(entries) =>
        JsonResultFacts(p, entries, stored);
        var q := JsonResult(p, entries, stored);
        if |q.storyMap.keys| == 0 {
          PlainTextNodes(q, legacy.value.text, stored);
        }
      case NotJsonObject =>
        PlainTextNodes(p, legacy.value.text, stored);
    }
  }

  /** Whatever the inputs, the map is well formed (each key once, exactly the keys have
      nodes), every node is stored under its own id, and a map with nodes comes with a
      start id. */
  lemma ParseStoryWellFormed(content: Option<map<string, string>>, outline: Option<StoryStructure>,
                             legacy: Option<LegacyInput>, stored: Option<string>)
    ensures var r := ParseStorySpec(content, outline, legacy, stored);
            && r.storyMap.Valid()
            && (forall k :: k in r.storyMap.entries ==> r.storyMap.entries[k].id == k)
            && (|r.storyMap.keys| > 0 ==> r.startNodeId.Some?)
  {
    if StructuredApplies(content, outline) {
      StructuredMapKeys(outline.value.nodes, content.value);
      StructuredMapIds(outline.value.nodes, content.value);
      var r := StructuredResult(content.value, outline.value);
      if |r.storyMap.keys| == 0 {
        LegacyResultFacts(r, legacy, stored);
      }
    } else {
      LegacyResultFacts(ParseResult(EmptyGraph, None), legacy, stored);
    }
  }
}
