/** `parseSingleNodeRawText` (src/lib/story-parser.ts:150-245): one node's raw text to a
    StoryNode. `ExtractNode` is its specification, built from the pure pieces (title,
    metadata filter, boundary, decisions); the method `ParseSingleNodeRawText` runs the
    scan and the decision loop the way the source does and is proved to agree with it. */
module NodeText {
  import opened Wrappers
  import opened Text
  import opened Patterns
  import opened StoryTypes

  const DefaultEndingText: string := "The story concludes here."

  // ---- Title ----------------------------------------------------------------------------

  /** `lines.findIndex(line => line.trim().match(/^(Brief Title:|Title:)/i))`, from index i. */
  function FindTitleLine(lines: seq<string>, i: nat): (r: Option<nat>)
    requires i <= |lines|
    ensures r.Some? ==> i <= r.value < |lines| && IsTitleLine(lines[r.value])
    ensures r.Some? ==> forall j :: i <= j < r.value ==> !IsTitleLine(lines[j])
    ensures r.None? ==> forall j :: i <= j < |lines| ==> !IsTitleLine(lines[j])
    decreases |lines| - i
  {
    if i == |lines| then None
    else if IsTitleLine(lines[i]) then Some(i)
    else FindTitleLine(lines, i + 1)
  }

  /** `.replace(/\b\w/g, c => c.toUpperCase())`: upper-cases each word character that does
      not follow another word character (`afterWord` says whether the previous one was). */
  function CapitalizeWords(s: string, afterWord: bool): (r: string)
    ensures |r| == |s|
    decreases |s|
  {
    if s == [] then []
    else [if IsWordChar(s[0]) && !afterWord then Upper(s[0]) else s[0]]
         + CapitalizeWords(s[1..], IsWordChar(s[0]))
  }

  /** `id.replace(/_/g, ' ')` */
  function UnderscoresToSpaces(id: string): (r: string)
    ensures |r| == |id|
  {
    seq(|id|, i requires 0 <= i < |id| => if id[i] == '_' then ' ' else id[i])
  }

  /** The title made from the id when the text has no title line. */
  function DefaultTitle(id: string): (r: string)
    ensures |r| == |id|
  {
    CapitalizeWords(UnderscoresToSpaces(id), false)
  }

  /** Character i of the id starts a word of the title: it is a word character other than
      `_`, and it is first or follows a non-word character or an `_`. */
  predicate StartsTitleWord(id: string, i: nat)
    requires i < |id|
  {
    IsWordChar(id[i]) && id[i] != '_' && (i == 0 || !IsWordChar(id[i - 1]) || id[i - 1] == '_')
  }

  lemma {:induction false} CapitalizeWordsAt(s: string, afterWord: bool, i: nat)
    requires i < |s|
    ensures CapitalizeWords(s, afterWord)[i]
            == if IsWordChar(s[i]) && !(if i == 0 then afterWord else IsWordChar(s[i - 1]))
               then Upper(s[i]) else s[i]
    decreases |s|
  {
    if i > 0 {
      CapitalizeWordsAt(s[1..], IsWordChar(s[0]), i - 1);
    }
  }

  /** The default title, character by character: `_` becomes a space, the first character
      of each word is upper-cased, and every other character is kept. */
  lemma DefaultTitleAt(id: string, i: nat)
    requires i < |id|
    ensures DefaultTitle(id)[i]
            == if id[i] == '_' then ' ' else if StartsTitleWord(id, i) then Upper(id[i]) else id[i]
  {
    CapitalizeWordsAt(UnderscoresToSpaces(id), false, i);
  }

  // ---- Metadata filter --------------------------------------------------------------------

  /** The filter at 167-172: drop the title line found above and every metadata line. */
  predicate KeepLine(lines: seq<string>, titleIndex: Option<nat>, i: nat)
    requires i < |lines|
  {
    titleIndex != Some(i) && !IsMetadataLine(lines[i])
  }

  /** The indices from i on of the lines the filter keeps, in increasing order. */
  function ContentIndices(lines: seq<string>, titleIndex: Option<nat>, i: nat): (idx: seq<nat>)
    requires i <= |lines|
    ensures forall k :: 0 <= k < |idx| ==> i <= idx[k] < |lines|
    decreases |lines| - i
  {
    if i == |lines| then []
    else (if KeepLine(lines, titleIndex, i) then [i] else []) + ContentIndices(lines, titleIndex, i + 1)
  }

  /** Every index is of a line the filter keeps. */
  lemma {:induction false} ContentIndicesKept(lines: seq<string>, titleIndex: Option<nat>, i: nat)
    requires i <= |lines|
    ensures forall k :: 0 <= k < |ContentIndices(lines, titleIndex, i)| ==>
              KeepLine(lines, titleIndex, ContentIndices(lines, titleIndex, i)[k])
    decreases |lines| - i
  {
    if i < |lines| {
      ContentIndicesKept(lines, titleIndex, i + 1);
      var rest := ContentIndices(lines, titleIndex, i + 1);
      var idx := ContentIndices(lines, titleIndex, i);
      if KeepLine(lines, titleIndex, i) {
        assert idx == [i] + rest;
        forall k | 0 <= k < |idx| ensures KeepLine(lines, titleIndex, idx[k]) {
          if k > 0 { assert idx[k] == rest[k - 1]; }
        }
      } else {
        assert idx == rest;
      }
    }
  }

  /** The indices strictly increase: the kept lines stay in the order of the text. */
  lemma {:induction false} ContentIndicesIncreasing(lines: seq<string>, titleIndex: Option<nat>, i: nat)
    requires i <= |lines|
    ensures forall k1, k2 :: 0 <= k1 < k2 < |ContentIndices(lines, titleIndex, i)| ==>
              ContentIndices(lines, titleIndex, i)[k1] < ContentIndices(lines, titleIndex, i)[k2]
    decreases |lines| - i
  {
    if i < |lines| {
      ContentIndicesIncreasing(lines, titleIndex, i + 1);
      var rest := ContentIndices(lines, titleIndex, i + 1);
      var idx := ContentIndices(lines, titleIndex, i);
      if KeepLine(lines, titleIndex, i) {
        assert idx == [i] + rest;
        ConsIncreasing(i, rest);
      } else {
        assert idx == rest;
      }
    }
  }

  /** A smaller index put in front of increasing indices keeps them increasing. */
  lemma ConsIncreasing(i: nat, rest: seq<nat>)
    requires forall k :: 0 <= k < |rest| ==> i < rest[k]
    requires forall k1, k2 :: 0 <= k1 < k2 < |rest| ==> rest[k1] < rest[k2]
    ensures forall k1, k2 :: 0 <= k1 < k2 < |rest| + 1 ==> ([i] + rest)[k1] < ([i] + rest)[k2]
  {
    forall k1, k2 | 0 <= k1 < k2 < |rest| + 1 ensures ([i] + rest)[k1] < ([i] + rest)[k2] {
      assert ([i] + rest)[k2] == rest[k2 - 1];
      if k1 > 0 { assert ([i] + rest)[k1] == rest[k1 - 1]; }
    }
  }

  /** No kept line is missed: every kept index from i on is among the indices. */
  lemma {:induction false} ContentIndicesComplete(lines: seq<string>, titleIndex: Option<nat>, i: nat)
    requires i <= |lines|
    ensures forall j :: i <= j < |lines| && KeepLine(lines, titleIndex, j) ==> j in ContentIndices(lines, titleIndex, i)
    decreases |lines| - i
  {
    if i < |lines| {
      ContentIndicesComplete(lines, titleIndex, i + 1);
      var rest := ContentIndices(lines, titleIndex, i + 1);
      if KeepLine(lines, titleIndex, i) {
        assert ContentIndices(lines, titleIndex, i) == [i] + rest;
        ConsMembers(i, rest);
      } else {
        assert ContentIndices(lines, titleIndex, i) == rest;
      }
    }
  }

  /** Prepending an index keeps every index already present. */
  lemma ConsMembers(i: nat, rest: seq<nat>)
    ensures i in [i] + rest
    ensures forall j :: j in rest ==> j in [i] + rest
  {
  }

  /** The kept lines from i on, in the order of the text. */
  function ContentLinesFrom(lines: seq<string>, titleIndex: Option<nat>, i: nat): (r: seq<string>)
    requires i <= |lines|
    ensures |r| <= |lines| - i
    decreases |lines| - i
  {
    if i == |lines| then []
    else (if KeepLine(lines, titleIndex, i) then [lines[i]] else [])
         + ContentLinesFrom(lines, titleIndex, i + 1)
  }

  function ContentLines(lines: seq<string>, titleIndex: Option<nat>): seq<string> {
    ContentLinesFrom(lines, titleIndex, 0)
  }

  lemma {:induction false} ContentLinesFromIndices(lines: seq<string>, titleIndex: Option<nat>, i: nat)
    requires i <= |lines|
    ensures |ContentLinesFrom(lines, titleIndex, i)| == |ContentIndices(lines, titleIndex, i)|
    ensures forall k :: 0 <= k < |ContentIndices(lines, titleIndex, i)| ==>
              ContentLinesFrom(lines, titleIndex, i)[k] == lines[ContentIndices(lines, titleIndex, i)[k]]
    decreases |lines| - i
  {
    if i < |lines| {
      ContentLinesFromIndices(lines, titleIndex, i + 1);
      var rest := ContentLinesFrom(lines, titleIndex, i + 1);
      var restIdx := ContentIndices(lines, titleIndex, i + 1);
      if KeepLine(lines, titleIndex, i) {
        ConsIndexed(lines, i, rest, restIdx);
      } else {
        assert ContentLinesFrom(lines, titleIndex, i) == rest;
        assert ContentIndices(lines, titleIndex, i) == restIdx;
      }
    }
  }

  /** Putting line i in front of a selection and i in front of its indices keeps the
      selection read off its indices. */
  lemma ConsIndexed(lines: seq<string>, i: nat, rest: seq<string>, restIdx: seq<nat>)
    requires i < |lines| && |rest| == |restIdx|
    requires forall k :: 0 <= k < |restIdx| ==> restIdx[k] < |lines| && rest[k] == lines[restIdx[k]]
    ensures forall k :: 0 <= k < |restIdx| + 1 ==> ([i] + restIdx)[k] < |lines|
                                                   && ([lines[i]] + rest)[k] == lines[([i] + restIdx)[k]]
  {
  }

  lemma {:induction false} ContentLinesFromMembers(lines: seq<string>, titleIndex: Option<nat>, i: nat)
    requires i <= |lines|
    ensures forall l :: l in ContentLinesFrom(lines, titleIndex, i) ==> !IsMetadataLine(l)
    ensures forall j :: i <= j < |lines| && KeepLine(lines, titleIndex, j)
                        ==> lines[j] in ContentLinesFrom(lines, titleIndex, i)
    ensures forall l :: l in ContentLinesFrom(lines, titleIndex, i) ==> l in lines[i..]
    decreases |lines| - i
  {
    if i < |lines| {
      ContentLinesFromMembers(lines, titleIndex, i + 1);
      var head := if KeepLine(lines, titleIndex, i) then [lines[i]] else [];
      assert ContentLinesFrom(lines, titleIndex, i) == head + ContentLinesFrom(lines, titleIndex, i + 1);
      assert lines[i..] == [lines[i]] + lines[i + 1..];
    }
  }

  /** The content lines are lines of the text; none of them is a metadata line, and every
      line that is neither metadata nor the title line is among them. In full: they are
      exactly the kept lines, in the order of the text. */
  lemma ContentLinesMembers(lines: seq<string>, titleIndex: Option<nat>)
    ensures var idx := ContentIndices(lines, titleIndex, 0);
            && |ContentLines(lines, titleIndex)| == |idx|
            && forall k :: 0 <= k < |idx| ==> ContentLines(lines, titleIndex)[k] == lines[idx[k]]
    ensures forall l :: l in ContentLines(lines, titleIndex) ==> !IsMetadataLine(l)
    ensures forall j :: 0 <= j < |lines| && KeepLine(lines, titleIndex, j)
                        ==> lines[j] in ContentLines(lines, titleIndex)
    ensures forall l :: l in ContentLines(lines, titleIndex) ==> l in lines
  {
    ContentLinesFromIndices(lines, titleIndex, 0);
    ContentLinesFromMembers(lines, titleIndex, 0);
    assert lines[0..] == lines;
  }

  lemma {:induction false} TitleIndexRedundantFrom(lines: seq<string>, t: nat, i: nat)
    requires t < |lines| && IsTitleLine(lines[t]) && i <= |lines|
    ensures ContentLinesFrom(lines, Some(t), i) == ContentLinesFrom(lines, None, i)
    decreases |lines| - i
  {
    if i < |lines| {
      TitleLineIsMetadata(lines[t]);
      TitleIndexRedundantFrom(lines, t, i + 1);
    }
  }

  /** Skipping the title line by its index changes nothing: a title line is also a
      metadata line, so the metadata test drops it anyway. */
  lemma TitleIndexRedundant(lines: seq<string>, titleIndex: Option<nat>)
    requires titleIndex.Some? ==> titleIndex.value < |lines| && IsTitleLine(lines[titleIndex.value])
    ensures ContentLines(lines, titleIndex) == ContentLines(lines, None)
  {
    if titleIndex.Some? {
      TitleIndexRedundantFrom(lines, titleIndex.value, 0);
    }
  }

  // ---- Boundary scan ----------------------------------------------------------------------

  /** Where the narrative ends, and whether an ending marker ended it. */
  datatype Boundary = Boundary(index: nat, isEnding: bool)

  /** How the scan at 175-195 reads a trimmed line; the tests run in this order, so a
      line that is both a decision line and an ending marker is a decision line. */
  datatype LineKind = DecisionLine | HeaderLine | EndingLine | TextLine

  function KindOf(t: string): (k: LineKind)
    ensures k == DecisionLine <==> MatchDecision(t).Some?
    ensures k == HeaderLine ==> IsDecisionHeader(t)
    ensures k == EndingLine ==> IsEndingMarker(t)
    ensures k == HeaderLine <==> MatchDecision(t).None? && IsDecisionHeader(t)
    ensures k == EndingLine <==> MatchDecision(t).None? && !IsDecisionHeader(t) && IsEndingMarker(t)
    ensures k == TextLine <==> MatchDecision(t).None? && !IsDecisionHeader(t) && !IsEndingMarker(t)
  {
    if MatchDecision(t).Some? then DecisionLine
    else if IsDecisionHeader(t) then HeaderLine
    else if IsEndingMarker(t) then EndingLine
    else TextLine
  }

  /** The kind of every content line, trimmed. */
  function LineKinds(content: seq<string>): (kinds: seq<LineKind>)
    ensures |kinds| == |content|
    ensures forall j :: 0 <= j < |content| ==> kinds[j] == KindOf(Trim(content[j]))
  {
    seq(|content|, j requires 0 <= j < |content| => KindOf(Trim(content[j])))
  }

  /** The first line at or after i that stops the scan; without one the index is the
      line count. */
  function FirstBoundary(kinds: seq<LineKind>, i: nat): (b: Boundary)
    requires i <= |kinds|
    ensures i <= b.index <= |kinds|
    ensures forall j :: i <= j < b.index ==> kinds[j] == TextLine
    ensures b.index < |kinds| ==> kinds[b.index] != TextLine
    ensures b.isEnding <==> b.index < |kinds| && kinds[b.index] == EndingLine
    decreases |kinds| - i
  {
    if i == |kinds| then Boundary(|kinds|, false)
    else if kinds[i] != TextLine then Boundary(i, kinds[i] == EndingLine)
    else FirstBoundary(kinds, i + 1)
  }

  // ---- Decisions --------------------------------------------------------------------------

  /** `text.trim().replace(/\.$/, '')` after the trim. */
  function StripFinalPeriod(s: string): (r: string)
    ensures r == s || (s == r + ".")
    ensures |s| > 0 && s[|s| - 1] == '.' ==> s == r + "."
    ensures !(|s| > 0 && s[|s| - 1] == '.') ==> r == s
  {
    if |s| > 0 && s[|s| - 1] == '.' then s[..|s| - 1] else s
  }

  /** A node id has no white space, so trimming leaves it as it is. */
  lemma IdIsTrimmed(id: string)
    requires IsNodeId(id)
    ensures Trim(id) == id
  {
    assert IsWordChar(id[0]) && IsWordChar(id[|id| - 1]);
    TrimOfTrimmed(id);
  }

  /** The decision a line contributes in the loop at 213-222, if it matches: the choice
      text, trimmed and without one final period, leading to the captured id. */
  function DecisionOf(line: string): (r: Option<Decision>)
    ensures r.Some? <==> MatchDecision(Trim(line)).Some?
    ensures r.Some? ==> IsNodeId(r.value.nextNodeId)
    ensures r.Some? ==> var m := MatchDecision(Trim(line)).value;
                        r.value == Decision(StripFinalPeriod(Trim(m.0)), m.1)
  {
    var m := MatchDecision(Trim(line));
    if m.Some? && m.value.0 != "" && m.value.1 != "" then
      IdIsTrimmed(m.value.1);
      Some(Decision(StripFinalPeriod(Trim(m.value.0)), Trim(m.value.1)))
    else None
  }

  /** The indices j in [lo, hi) of the lines `pick` accepts, in increasing order. */
  function PickIndices<T>(pick: string -> Option<T>, lines: seq<string>, lo: nat, hi: nat): (idx: seq<nat>)
    requires lo <= hi <= |lines|
    ensures forall k :: 0 <= k < |idx| ==> lo <= idx[k] < hi && pick(lines[idx[k]]).Some?
    ensures forall k1, k2 :: 0 <= k1 < k2 < |idx| ==> idx[k1] < idx[k2]
    ensures forall j :: lo <= j < hi && pick(lines[j]).Some? ==> j in idx
    decreases hi - lo
  {
    if hi == lo then []
    else PickIndices(pick, lines, lo, hi - 1) + (if pick(lines[hi - 1]).Some? then [hi - 1] else [])
  }

  /** The values `pick` finds among lines[lo..hi], in order: the shape of the loop that
      collects decisions. */
  function CollectFrom<T>(pick: string -> Option<T>, lines: seq<string>, lo: nat, hi: nat): (r: seq<T>)
    requires lo <= hi <= |lines|
    ensures |r| <= hi - lo
    decreases hi - lo
  {
    if hi == lo then []
    else
      CollectFrom(pick, lines, lo, hi - 1)
      + (match pick(lines[hi - 1]) case Some(d) => [d] case None => [])
  }

  /** The values are those of the accepted lines, one each, in the order of the lines. */
  lemma {:induction false} CollectFromIndices<T>(pick: string -> Option<T>, lines: seq<string>, lo: nat, hi: nat)
    requires lo <= hi <= |lines|
    ensures |CollectFrom(pick, lines, lo, hi)| == |PickIndices(pick, lines, lo, hi)|
    ensures forall k :: 0 <= k < |CollectFrom(pick, lines, lo, hi)| ==>
              pick(lines[PickIndices(pick, lines, lo, hi)[k]]) == Some(CollectFrom(pick, lines, lo, hi)[k])
    decreases hi - lo
  {
    if lo < hi {
      CollectFromIndices(pick, lines, lo, hi - 1);
    }
  }

  /** Widening the range never loses a value. */
  lemma {:induction false} CollectFromGrows<T>(pick: string -> Option<T>, lines: seq<string>, lo: nat, mid: nat, hi: nat)
    requires lo <= mid <= hi <= |lines|
    ensures |CollectFrom(pick, lines, lo, mid)| <= |CollectFrom(pick, lines, lo, hi)|
    decreases hi - mid
  {
    if mid < hi {
      CollectFromGrows(pick, lines, lo, mid, hi - 1);
    }
  }

  /** A range whose first line yields a value yields at least one value. */
  lemma CollectFromFirst<T>(pick: string -> Option<T>, lines: seq<string>, lo: nat, hi: nat)
    requires lo < hi <= |lines| && pick(lines[lo]).Some?
    ensures |CollectFrom(pick, lines, lo, hi)| >= 1
  {
    CollectFromGrows(pick, lines, lo, lo + 1, hi);
  }

  /** Every value collected satisfies what `pick` promises of all its values. */
  lemma {:induction false} CollectFromAll<T>(pick: string -> Option<T>, lines: seq<string>, lo: nat, hi: nat, p: T -> bool)
    requires lo <= hi <= |lines|
    requires forall j :: lo <= j < hi && pick(lines[j]).Some? ==> p(pick(lines[j]).value)
    ensures forall k :: 0 <= k < |CollectFrom(pick, lines, lo, hi)| ==> p(CollectFrom(pick, lines, lo, hi)[k])
    decreases hi - lo
  {
    if lo < hi {
      CollectFromAll(pick, lines, lo, hi - 1, p);
    }
  }

  /** The decisions of lines[lo..hi], in order: one for each decision line, taken in the
      order of the lines. */
  function CollectDecisions(lines: seq<string>, lo: nat, hi: nat): (r: seq<Decision>)
    requires lo <= hi <= |lines|
    ensures |r| <= hi - lo
    ensures |r| == |PickIndices(DecisionOf, lines, lo, hi)|
    ensures forall k :: 0 <= k < |r| ==> DecisionOf(lines[PickIndices(DecisionOf, lines, lo, hi)[k]]) == Some(r[k])
  {
    CollectFromIndices(DecisionOf, lines, lo, hi);
    CollectFrom(DecisionOf, lines, lo, hi)
  }

  /** A range whose first line is a decision line yields at least one decision. */
  lemma CollectDecisionsFromFirst(lines: seq<string>, lo: nat, hi: nat)
    requires lo < hi <= |lines| && DecisionOf(lines[lo]).Some?
    ensures |CollectDecisions(lines, lo, hi)| >= 1
  {
    CollectFromFirst(DecisionOf, lines, lo, hi);
  }

  /** Every collected decision points at a well-formed id. */
  lemma CollectDecisionsTargets(lines: seq<string>, lo: nat, hi: nat)
    requires lo <= hi <= |lines|
    ensures forall k :: 0 <= k < |CollectDecisions(lines, lo, hi)|
                        ==> IsNodeId(CollectDecisions(lines, lo, hi)[k].nextNodeId)
  {
    CollectFromAll(DecisionOf, lines, lo, hi, (d: Decision) => IsNodeId(d.nextNodeId));
  }

  // ---- Ending text ------------------------------------------------------------------------

  /** `contentProcessingLines.findIndex(...)` at 201, from index i. */
  function FindExplicitEnding(content: seq<string>, i: nat): (r: Option<nat>)
    requires i <= |content|
    ensures r.Some? ==> i <= r.value < |content| && IsExplicitEndingLine(content[r.value])
    ensures r.Some? ==> forall j :: i <= j < r.value ==> !IsExplicitEndingLine(content[j])
    ensures r.None? ==> forall j :: i <= j < |content| ==> !IsExplicitEndingLine(content[j])
    decreases |content| - i
  {
    if i == |content| then None
    else if IsExplicitEndingLine(content[i]) then Some(i)
    else FindExplicitEnding(content, i + 1)
  }

  /** Lines 201-204: the text between the first `Ending:` line (or end banner) and the
      boundary, if that line lies before the boundary. */
  function ExplicitEndingText(content: seq<string>, end: nat): (r: Option<string>)
    requires end <= |content|
    ensures r.None? <==> forall j :: 0 <= j < end ==> !IsExplicitEndingLine(content[j])
    ensures r.Some? ==> exists k :: 0 <= k < end && IsExplicitEndingLine(content[k])
                                    && (forall j :: 0 <= j < k ==> !IsExplicitEndingLine(content[j]))
                                    && r.value == Trim(JoinLines(content[k + 1..end]))
  {
    match FindExplicitEnding(content, 0)
    case Some(k) => if k < end then Some(Trim(JoinLines(content[k + 1..end]))) else None
    case None => None
  }

  /** `narrativeContent || "The story concludes here."` */
  function EndingOrDefault(narrative: string): (r: string)
    ensures r != ""
    ensures narrative != "" ==> r == narrative
    ensures narrative == "" ==> r == DefaultEndingText
  {
    if narrative != "" then narrative else DefaultEndingText
  }

  // ---- The whole node ---------------------------------------------------------------------

  /** The lines of the raw text that survive the metadata filter. */
  function NodeContent(rawNodeText: string): seq<string> {
    var lines := SplitLines(rawNodeText);
    ContentLines(lines, FindTitleLine(lines, 0))
  }

  function NodeBoundary(rawNodeText: string): Boundary {
    FirstBoundary(LineKinds(NodeContent(rawNodeText)), 0)
  }

  /** The trimmed text of the content lines before the boundary. */
  function Narrative(rawNodeText: string): string {
    var content := NodeContent(rawNodeText);
    Trim(JoinLines(content[..NodeBoundary(rawNodeText).index]))
  }

  /** The title before the `Chapter <id>` fallback at 232-234. */
  function FoundTitle(id: string, rawNodeText: string): string {
    var lines := SplitLines(rawNodeText);
    match FindTitleLine(lines, 0)
    case Some(i) => Trim(StripTitleMarker(lines[i]))
    case None => DefaultTitle(id)
  }

  /** The title of the node: the one found, or `Chapter <id>` when that is empty. */
  function NodeTitle(id: string, rawNodeText: string): (r: string)
    ensures r != ""
    ensures FoundTitle(id, rawNodeText) != "" ==> r == FoundTitle(id, rawNodeText)
    ensures FoundTitle(id, rawNodeText) == "" ==> r == "Chapter " + id
  {
    var t := FoundTitle(id, rawNodeText);
    if t == "" then "Chapter " + id else t
  }

  /** What `parseSingleNodeRawText(id, rawNodeText)` returns. */
  function ExtractNode(id: string, rawNodeText: string): StoryNode {
    var content := NodeContent(rawNodeText);
    var boundary := NodeBoundary(rawNodeText);
    var narrative := Narrative(rawNodeText);
    var title := NodeTitle(id, rawNodeText);
    if boundary.isEnding then
      var explicit := ExplicitEndingText(content, boundary.index);
      var endingText := if !Falsy(explicit) then explicit.value else EndingOrDefault(narrative);
      StoryNode(id, title, "", [], true, Some(endingText))
    else
      var decisions := CollectDecisions(content, boundary.index, |content|);
      if |decisions| == 0 && |content| > 0 && boundary.index == |content| then
        StoryNode(id, title, "", decisions, true, Some(EndingOrDefault(narrative)))
      else
        StoryNode(id, title, narrative, decisions, false, None)
  }

  /** The boundary scan at 175-195: the first decision line, decision header or ending
      marker among the content lines, and whether it was an ending marker. */
  method ScanBoundary(contentProcessingLines: seq<string>) returns (contentEndIndex: nat, isEnding: bool)
    ensures Boundary(contentEndIndex, isEnding) == FirstBoundary(LineKinds(contentProcessingLines), 0)
  {
    ghost var kinds := LineKinds(contentProcessingLines);
    contentEndIndex := |contentProcessingLines|;
    isEnding := false;
    for i := 0 to |contentProcessingLines|
      invariant FirstBoundary(kinds, i) == FirstBoundary(kinds, 0)
      invariant contentEndIndex == |contentProcessingLines| && !isEnding
    {
      var kind := KindOf(Trim(contentProcessingLines[i]));
      if kind != TextLine {
        contentEndIndex := i;
        isEnding := kind == EndingLine;
        break;
      }
    }
  }

  /** The decision loop at 213-222: the decisions of the lines from `contentEndIndex` on. */
  method CollectDecisionLines(contentProcessingLines: seq<string>, contentEndIndex: nat)
    returns (decisions: seq<Decision>)
    requires contentEndIndex <= |contentProcessingLines|
    ensures decisions == CollectDecisions(contentProcessingLines, contentEndIndex, |contentProcessingLines|)
  {
    decisions := [];
    for i := contentEndIndex to |contentProcessingLines|
      invariant decisions == CollectDecisions(contentProcessingLines, contentEndIndex, i)
    {
      var d := DecisionOf(contentProcessingLines[i]);
      if d.Some? {
        decisions := decisions + [d.value];
      }
    }
  }

  /** `parseSingleNodeRawText`: title, metadata filter, boundary scan, then either the
      ending text or the decisions. */
  method ParseSingleNodeRawText(id: string, rawNodeText: string) returns (node: StoryNode)
    ensures node == ExtractNode(id, rawNodeText)
  {
    var lines := SplitLines(rawNodeText);
    var narrativeContent := "";
    var decisions: seq<Decision> := [];
    var endingText: Option<string> := None;

    var titleLineIndex := FindTitleLine(lines, 0);
    var title := if titleLineIndex.Some? then Trim(StripTitleMarker(lines[titleLineIndex.value]))
                 else DefaultTitle(id);
    assert title == FoundTitle(id, rawNodeText);

    var contentProcessingLines := ContentLines(lines, titleLineIndex);
    var contentEndIndex, isEnding := ScanBoundary(contentProcessingLines);

    narrativeContent := Trim(JoinLines(contentProcessingLines[..contentEndIndex]));

    if isEnding {
      endingText := ExplicitEndingText(contentProcessingLines, contentEndIndex);
      if Falsy(endingText) && narrativeContent != "" {
        endingText := Some(narrativeContent);
      } else if Falsy(endingText) {
        endingText := Some(DefaultEndingText);
      }
      narrativeContent := "";
    } else {
      decisions := CollectDecisionLines(contentProcessingLines, contentEndIndex);
      if |decisions| == 0 && |contentProcessingLines| > 0 && contentEndIndex == |contentProcessingLines| {
        isEnding := true;
        endingText := Some(if narrativeContent != "" then narrativeContent else DefaultEndingText);
        narrativeContent := "";
      }
    }

    if title == "" {
      title := "Chapter " + id;
    }
    node := StoryNode(id, title, narrativeContent, decisions, isEnding, endingText);
  }

  // ---- Properties -------------------------------------------------------------------------

  /** Every node is an ending or a page, never both: an ending has ending text, no
      decisions and no narrative; a page has no ending text. */
  lemma ExtractNodeExclusive(id: string, rawNodeText: string)
    ensures var n := ExtractNode(id, rawNodeText);
            && (n.isEnding ==> n.decisions == [] && n.rawContent == "" && n.endingText.Some? && n.endingText.value != "")
            && (!n.isEnding ==> n.endingText.None?)
  {
    var content := NodeContent(rawNodeText);
    var b := NodeBoundary(rawNodeText);
    if b.isEnding {
      ExplicitEndingNeverBeforeBoundary(content);
    }
  }

  /** The `Ending:` line and the end banner are ending markers, so the first of them can
      never come before the boundary: the guard at 202 never holds. */
  lemma ExplicitEndingNeverBeforeBoundary(content: seq<string>)
    ensures var b := FirstBoundary(LineKinds(content), 0);
            ExplicitEndingText(content, b.index).None?
  {
    var b := FirstBoundary(LineKinds(content), 0);
    match FindExplicitEnding(content, 0)
    case None =>
    case Some(k) =>
      ExplicitEndingIsEndingMarker(content[k]);
      assert LineKinds(content)[k] != TextLine;
  }

  /** The title is never empty. Without a title line it is made from a non-empty id; a
      title line whose text is not empty gives that text. */
  lemma NodeTitleFacts(id: string, rawNodeText: string)
    ensures NodeTitle(id, rawNodeText) != ""
    ensures var lines := SplitLines(rawNodeText);
            FindTitleLine(lines, 0).None? && id != ""
            ==> NodeTitle(id, rawNodeText) == DefaultTitle(id)
    ensures var lines := SplitLines(rawNodeText);
            var i := FindTitleLine(lines, 0);
            i.Some? && Trim(StripTitleMarker(lines[i.value])) != ""
            ==> NodeTitle(id, rawNodeText) == Trim(StripTitleMarker(lines[i.value]))
    ensures var lines := SplitLines(rawNodeText);
            var i := FindTitleLine(lines, 0);
            (i.Some? && Trim(StripTitleMarker(lines[i.value])) == "") || (i.None? && id == "")
            ==> NodeTitle(id, rawNodeText) == "Chapter " + id
  {
  }

  /** The node carries its id and the title above. */
  lemma ExtractNodeTitle(id: string, rawNodeText: string)
    ensures ExtractNode(id, rawNodeText).id == id
    ensures ExtractNode(id, rawNodeText).title == NodeTitle(id, rawNodeText)
  {
  }

  /** A title line indented by white space keeps its marker: the marker is stripped from
      the untrimmed line, which does not start with it. */
  lemma IndentedTitleKeepsMarker(line: string)
    requires |line| > 0 && IsSpace(line[0]) && IsTitleLine(line)
    ensures Trim(StripTitleMarker(line)) == Trim(line)
    ensures StartsWithCI(Trim(StripTitleMarker(line)), "brief title:")
            || StartsWithCI(Trim(StripTitleMarker(line)), "title:")
  {
    assert Lower(line[0]) == line[0];
  }

  /** An ending marker as boundary: the ending text is the narrative before the marker
      (or the default sentence); nothing after the marker is used. */
  lemma EndingMarkerBoundary(id: string, rawNodeText: string)
    requires NodeBoundary(rawNodeText).isEnding
    ensures var n := ExtractNode(id, rawNodeText);
            && n.isEnding && n.decisions == [] && n.rawContent == ""
            && n.endingText == Some(EndingOrDefault(Narrative(rawNodeText)))
  {
    ExplicitEndingNeverBeforeBoundary(NodeContent(rawNodeText));
  }

  /** No boundary line at all: the node is an implicit ending whose text is the narrative
      (or the default sentence) when some content line is left, and an empty page
      otherwise. */
  lemma NoBoundary(id: string, rawNodeText: string)
    requires NodeBoundary(rawNodeText).index == |NodeContent(rawNodeText)|
    ensures var n := ExtractNode(id, rawNodeText);
            && n.decisions == []
            && n.rawContent == ""
            && (n.isEnding <==> |NodeContent(rawNodeText)| > 0)
            && (n.isEnding ==> n.endingText == Some(EndingOrDefault(Narrative(rawNodeText))))
  {
  }

  /** A decision line or decision header as boundary: the node is a page whose narrative
      is the text before it and whose decisions come from the lines from it on. */
  lemma DecisionBoundary(id: string, rawNodeText: string)
    requires NodeBoundary(rawNodeText).index < |NodeContent(rawNodeText)|
    requires !NodeBoundary(rawNodeText).isEnding
    ensures var n := ExtractNode(id, rawNodeText);
            var b := NodeBoundary(rawNodeText);
            && !n.isEnding
            && n.rawContent == Narrative(rawNodeText)
            && n.decisions == CollectDecisions(NodeContent(rawNodeText), b.index, |NodeContent(rawNodeText)|)
  {
  }

  /** When the scan stops at a decision line, the same pattern yields at least one
      decision in the second loop, so the node is a page with choices. */
  lemma DecisionLineGivesDecision(id: string, rawNodeText: string)
    requires NodeBoundary(rawNodeText).index < |NodeContent(rawNodeText)|
    requires MatchDecision(Trim(NodeContent(rawNodeText)[NodeBoundary(rawNodeText).index])).Some?
    ensures !ExtractNode(id, rawNodeText).isEnding
    ensures |ExtractNode(id, rawNodeText).decisions| >= 1
  {
    var content := NodeContent(rawNodeText);
    var b := NodeBoundary(rawNodeText);
    CollectDecisionsFromFirst(content, b.index, |content|);
  }

  /** Every decision of every node points at a well-formed id. */
  lemma DecisionTargetsAreIds(id: string, rawNodeText: string)
    ensures forall k :: 0 <= k < |ExtractNode(id, rawNodeText).decisions|
                        ==> IsNodeId(ExtractNode(id, rawNodeText).decisions[k].nextNodeId)
  {
    var content := NodeContent(rawNodeText);
    CollectDecisionsTargets(content, NodeBoundary(rawNodeText).index, |content|);
  }
}
