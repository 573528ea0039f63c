/** The line patterns of src/lib/story-parser.ts, written as predicates over (trimmed) lines
    instead of regular expressions: title and metadata prefixes, decision-section headers,
    ending markers, and the decision-line pattern with its capture groups. */
module Patterns {
  import opened Wrappers
  import opened Text

  // ---- Title and metadata lines -------------------------------------------------------

  /** `line.trim().match(/^(Brief Title:|Title:)/i)` */
  predicate IsTitleLine(line: string) {
    StartsWithCI(Trim(line), "brief title:") || StartsWithCI(Trim(line), "title:")
  }

  /** `line.replace(/^(Brief Title:|Title:)/i, "")`, applied to the line as it stands
      (not trimmed), so an indented marker is left in place. */
  function StripTitleMarker(line: string): (r: string)
    ensures StartsWithCI(line, "brief title:") ==> line == line[..12] + r
    ensures !StartsWithCI(line, "brief title:") && StartsWithCI(line, "title:") ==> line == line[..6] + r
    ensures !StartsWithCI(line, "brief title:") && !StartsWithCI(line, "title:") ==> r == line
  {
    if StartsWithCI(line, "brief title:") then line[12..]
    else if StartsWithCI(line, "title:") then line[6..]
    else line
  }

  /** `trimmedLine.match(/^(Node ID:|Brief Title:|Title:|Segment Summary:|Content:)/i)` */
  predicate IsMetadataLine(line: string) {
    var t := Trim(line);
    StartsWithCI(t, "node id:") || StartsWithCI(t, "brief title:") || StartsWithCI(t, "title:")
    || StartsWithCI(t, "segment summary:") || StartsWithCI(t, "content:")
  }

  /** Every title line is also a metadata line. */
  lemma TitleLineIsMetadata(line: string)
    requires IsTitleLine(line)
    ensures IsMetadataLine(line)
  {
  }

  // ---- Section headers and ending markers (applied to trimmed lines) ------------------

  /** `line.match(/^Decision(s?):/i) || line.match(/^(What do you do\?|Choose one:)/i)` */
  predicate IsDecisionHeader(t: string) {
    StartsWithCI(t, "decision:") || StartsWithCI(t, "decisions:")
    || StartsWithCI(t, "what do you do?") || StartsWithCI(t, "choose one:")
  }

  /** `/^Ending:\s*$/i` */
  predicate IsEndingColonLine(t: string) {
    StartsWithCI(t, "ending:") && forall j :: 7 <= j < |t| ==> IsSpace(t[j])
  }

  /** `/^--- THE END ---$/i` */
  predicate IsEndBanner(t: string) {
    LowerStr(t) == "--- the end ---"
  }

  /** The ending test of the boundary scan: an `Ending:` line, the end banner, or any line
      whose lower-case form contains `the end.`. */
  predicate IsEndingMarker(t: string) {
    IsEndingColonLine(t) || IsEndBanner(t) || Contains(LowerStr(t), "the end.")
  }

  /** The test of the second `findIndex`, on an untrimmed line. */
  predicate IsExplicitEndingLine(line: string) {
    IsEndingColonLine(Trim(line)) || IsEndBanner(Trim(line))
  }

  lemma ExplicitEndingIsEndingMarker(line: string)
    requires IsExplicitEndingLine(line)
    ensures IsEndingMarker(Trim(line))
  {
  }

  // ---- The decision-line pattern ------------------------------------------------------
  //
  //   /^(?:\d+\.|\-)\s*(.+?)\s*(?:\(Go to page|\(Go to|\(->|Go to page|Go to|->)\s+([a-zA-Z0-9_]+)\)?\.?$/i
  //
  // A backtracking matcher tries the `\s*` after the bullet longest first, and for each of
  // those the lazy choice text shortest first, and the connectors in the order written.
  // The other quantifiers can succeed in one way only, so that order fixes both captures.

  /** Length of the bullet `\d+\.` or `-` at the start of the line, 0 if there is none. */
  function BulletLength(line: string): (n: nat)
    ensures n <= |line|
    ensures n > 0 ==> (line[0] == '-' && n == 1)
                      || (n >= 2 && line[n - 1] == '.' && forall j :: 0 <= j < n - 1 ==> IsDigit(line[j]))
    ensures |line| > 0 && line[0] == '-' ==> n == 1
    ensures forall d :: 0 < d < |line| && line[d] == '.' && (forall j :: 0 <= j < d ==> IsDigit(line[j])) ==> n == d + 1
  {
    if |line| > 0 && line[0] == '-' then 1
    else
      var d := DigitRun(line, 0);
      if d > 0 && d < |line| && line[d] == '.' then d + 1 else 0
  }

  const Connectors: seq<string> := ["(go to page", "(go to", "(->", "go to page", "go to", "->"]

  /** `\)?\.?$` at position k: what may follow the target id up to the end of the line. */
  predicate IdSuffixAt(line: string, k: nat) {
    || k == |line|
    || (k + 1 == |line| && (line[k] == ')' || line[k] == '.'))
    || (k + 2 == |line| && line[k] == ')' && line[k + 1] == '.')
  }

  /** `\s+([a-zA-Z0-9_]+)\)?\.?$` laid out from q: white space up to i, the id line[i..j],
      then only what `\)?\.?$` allows. */
  predicate IdAt(line: string, q: nat, i: nat, j: nat) {
    && q < i < j <= |line|
    && (forall k :: q <= k < i ==> IsSpace(line[k]))
    && (forall k :: i <= k < j ==> IsWordChar(line[k]))
    && IdSuffixAt(line, j)
  }

  /** That layout, when there is one, is unique: the white space and the id are whole runs. */
  lemma IdAtUnique(line: string, q: nat)
    requires q <= |line|
    ensures forall i: nat, j: nat :: IdAt(line, q, i, j) ==> i == q + SpaceRun(line, q) && j == i + WordRun(line, i)
  {
    forall i: nat, j: nat | IdAt(line, q, i, j)
      ensures i == q + SpaceRun(line, q) && j == i + WordRun(line, i)
    {
      assert IsWordChar(line[i]) && !IsSpace(line[i]);
      assert j < |line| ==> !IsWordChar(line[j]);
    }
  }

  /** The connector, ignoring case, at position p of the line. */
  predicate ConnectorAt(line: string, p: nat, connector: string) {
    p + |connector| <= |line| && forall k :: 0 <= k < |connector| ==> Lower(line[p + k]) == connector[k]
  }

  /** `connector\s+([a-zA-Z0-9_]+)\)?\.?$` matches at p, with the id at line[i..j]. */
  predicate ConnectorMatch(line: string, p: nat, connector: string, i: nat, j: nat)
    requires p <= |line|
  {
    ConnectorAt(line, p, connector) && IdAt(line, p + |connector|, i, j)
  }

  /** `connector\s+([a-zA-Z0-9_]+)\)?\.?$` at position p: the captured id, if it matches. */
  function ConnectorTarget(line: string, p: nat, connector: string): (r: Option<string>)
    requires p <= |line|
    ensures r.Some? ==> IsNodeId(r.value) && ConnectorAt(line, p, connector)
  {
    if !ConnectorAt(line, p, connector) then None
    else
      var q := p + |connector|;
      var w := SpaceRun(line, q);
      var i := q + w;
      var n := WordRun(line, i);
      if w == 0 || n == 0 || !IdSuffixAt(line, i + n) then None
      else Some(line[i..i + n])
  }

  /** ConnectorTarget matches exactly when the connector, white space, an id and the
      allowed suffix lay out from p. */
  lemma ConnectorTargetMatches(line: string, p: nat, connector: string)
    requires p <= |line|
    ensures ConnectorTarget(line, p, connector).Some? <==> exists i: nat, j: nat :: ConnectorMatch(line, p, connector, i, j)
  {
    if ConnectorTarget(line, p, connector).Some? {
      var q := p + |connector|;
      var i := q + SpaceRun(line, q);
      assert ConnectorMatch(line, p, connector, i, i + WordRun(line, i));
    } else {
      ConnectorTargetCaptures(line, p, connector);
    }
  }

  /** What ConnectorTarget captures: the id of the layout from p, which is unique. */
  lemma ConnectorTargetCaptures(line: string, p: nat, connector: string)
    requires p <= |line|
    ensures forall i: nat, j: nat :: ConnectorMatch(line, p, connector, i, j) ==> ConnectorTarget(line, p, connector) == Some(line[i..j])
  {
    forall i: nat, j: nat | ConnectorMatch(line, p, connector, i, j)
      ensures ConnectorTarget(line, p, connector) == Some(line[i..j])
    {
      IdAtUnique(line, p + |connector|);
    }
  }

  /** The connectors from index k on, in the order of the alternation: the id captured
      after the first connector that matches. */
  function FirstTarget(line: string, p: nat, k: nat): (r: Option<string>)
    requires p <= |line| && k <= |Connectors|
    ensures r.Some? ==> IsNodeId(r.value)
    decreases |Connectors| - k
  {
    if k == |Connectors| then None
    else
      var r := ConnectorTarget(line, p, Connectors[k]);
      if r.Some? then r else FirstTarget(line, p, k + 1)
  }

  /** FirstTarget is None exactly when no connector from k on matches. */
  lemma {:induction false} FirstTargetNone(line: string, p: nat, k: nat)
    requires p <= |line| && k <= |Connectors|
    ensures FirstTarget(line, p, k).None? <==> forall c :: k <= c < |Connectors| ==> ConnectorTarget(line, p, Connectors[c]).None?
    decreases |Connectors| - k
  {
    if k < |Connectors| && ConnectorTarget(line, p, Connectors[k]).None? {
      FirstTargetNone(line, p, k + 1);
    }
  }

  /** FirstTarget follows the alternation order: when connector c matches and none from
      k up to c does, the target is the capture of c. */
  lemma {:induction false} FirstTargetFirst(line: string, p: nat, k: nat)
    requires p <= |line| && k <= |Connectors|
    ensures forall c :: && k <= c < |Connectors| && ConnectorTarget(line, p, Connectors[c]).Some?
                        && (forall c' :: k <= c' < c ==> ConnectorTarget(line, p, Connectors[c']).None?)
                        ==> FirstTarget(line, p, k) == ConnectorTarget(line, p, Connectors[c])
    decreases |Connectors| - k
  {
    if k < |Connectors| && ConnectorTarget(line, p, Connectors[k]).None? {
      FirstTargetFirst(line, p, k + 1);
    }
  }

  /** Every connector starts with `(`, `g` or `-`. */
  lemma ConnectorHead(c: nat)
    requires c < |Connectors|
    ensures |Connectors[c]| > 0 && Connectors[c][0] in "(g-"
  {
    if c == 0 {} else if c == 1 {} else if c == 2 {} else if c == 3 {} else if c == 4 {} else {}
  }

  /** No connector starts with white space, so none matches at a white-space character. */
  lemma {:induction false} NoTargetAtSpace(line: string, p: nat, k: nat)
    requires p < |line| && IsSpace(line[p]) && k <= |Connectors|
    ensures FirstTarget(line, p, k).None?
    decreases |Connectors| - k
  {
    if k < |Connectors| {
      ConnectorHead(k);
      assert Lower(line[p]) != Connectors[k][0];
      NoTargetAtSpace(line, p, k + 1);
    }
  }

  /** line[e..q] is white space. */
  predicate SpacesBetween(line: string, e: nat, q: nat) {
    e <= q <= |line| && forall j :: e <= j < q ==> IsSpace(line[j])
  }

  /** White space from e up to q lies within the white-space run at e. */
  lemma WithinSpaceRun(line: string, e: nat, q: nat)
    requires SpacesBetween(line, e, q)
    ensures q <= e + SpaceRun(line, e)
    ensures q < e + SpaceRun(line, e) ==> q < |line| && IsSpace(line[q])
  {
  }

  /** The `\s*` before the connector: a connector can match only after all of the white
      space at e, so giving some of it back never finds a target. */
  lemma ConnectorAfterAllSpace(line: string, e: nat)
    requires e <= |line|
    ensures SpacesBetween(line, e, e + SpaceRun(line, e))
    ensures forall q: nat :: SpacesBetween(line, e, q) && q != e + SpaceRun(line, e) ==> FirstTarget(line, q, 0).None?
  {
    forall q: nat | SpacesBetween(line, e, q) && q != e + SpaceRun(line, e)
      ensures FirstTarget(line, q, 0).None?
    {
      WithinSpaceRun(line, e, q);
      NoTargetAtSpace(line, q, 0);
    }
  }

  /** Everything after the choice text, `\s*(?:connectors)\s+(id)\)?\.?$`, tried at
      position e: the captured id, if it matches. The greedy `\s*` first takes all of the
      white space at e, and ConnectorAfterAllSpace shows that giving some back never finds
      a connector, so the connectors tried right after that white space decide. */
  function TargetAfter(line: string, e: nat): (r: Option<string>)
    requires e <= |line|
    ensures r.Some? ==> IsNodeId(r.value)
  {
    FirstTarget(line, e + SpaceRun(line, e), 0)
  }

  /** The shape of a decision line: a bullet, white space up to s, a choice text
      line[s..e] free of line terminators, and a tail that matches at e. */
  predicate DecisionShape(line: string, s: nat, e: nat) {
    var b := BulletLength(line);
    && 0 < b <= s < e <= |line|
    && (forall j :: b <= j < s ==> IsSpace(line[j]))
    && (forall j :: s <= j < e ==> !IsLineTerminator(line[j]))
    && TargetAfter(line, e).Some?
  }

  /** The test for the rest of the pattern after the choice text, as a function of
      the position e where the choice text ends. */
  function TailMatcher(line: string): nat -> bool {
    (e: nat) => e <= |line| && TargetAfter(line, e).Some?
  }

  /** The choice text line[s..e], after white space from b, lets the line match. */
  predicate SpanWorks(line: string, tail: nat -> bool, b: nat, s: nat, e: nat) {
    && b <= s < e <= |line|
    && (forall j :: b <= j < s ==> IsSpace(line[j]))
    && (forall j :: s <= j < e ==> !IsLineTerminator(line[j]))
    && tail(e)
  }

  /** The lazy `(.+?)` starting at s: the shortest end e' >= e at which the rest of the
      pattern matches, stopping at the first line terminator. */
  function LazyEnd(line: string, tail: nat -> bool, s: nat, e: nat): (r: Option<nat>)
    requires s < e <= |line|
    requires forall j :: s <= j < e - 1 ==> !IsLineTerminator(line[j])
    ensures r.Some? ==> e <= r.value <= |line| && tail(r.value)
    ensures r.Some? ==> forall j :: s <= j < r.value ==> !IsLineTerminator(line[j])
    ensures r.Some? ==> forall e' :: e <= e' < r.value ==> !tail(e')
    decreases |line| - e
  {
    if IsLineTerminator(line[e - 1]) then None
    else if tail(e) then Some(e)
    else if e < |line| then LazyEnd(line, tail, s, e + 1)
    else None
  }

  lemma {:induction false} LazyEndFinds(line: string, tail: nat -> bool, s: nat, e0: nat, e: nat)
    requires s < e0 <= e <= |line|
    requires forall j :: s <= j < e ==> !IsLineTerminator(line[j])
    requires tail(e)
    ensures LazyEnd(line, tail, s, e0).Some?
    decreases e - e0
  {
    if !tail(e0) {
      LazyEndFinds(line, tail, s, e0 + 1, e);
    }
  }

  /** When the lazy search from s finds nothing, no choice text starting at s works. */
  lemma LazyEndNone(line: string, tail: nat -> bool, s: nat)
    requires s <= |line|
    requires s < |line| ==> LazyEnd(line, tail, s, s + 1).None?
    ensures forall e :: s < e <= |line| && (forall j :: s <= j < e ==> !IsLineTerminator(line[j])) ==> !tail(e)
  {
    forall e | s < e <= |line| && (forall j :: s <= j < e ==> !IsLineTerminator(line[j]))
      ensures !tail(e)
    {
      if tail(e) {
        LazyEndFinds(line, tail, s, s + 1, e);
      }
    }
  }

  /** The `\s*` after the bullet, giving back one white-space character at a time:
      the span (s, e) of the choice text, if some choice makes the line match. The
      latest start wins, and for it the earliest end. */
  function LeadSpan(line: string, tail: nat -> bool, b: nat, w: nat): (r: Option<(nat, nat)>)
    requires b + w <= |line|
    requires forall j :: b <= j < b + w ==> IsSpace(line[j])
    ensures r.Some? ==> b <= r.value.0 <= b + w && r.value.0 < r.value.1 <= |line|
    ensures r.Some? ==> (forall j :: b <= j < r.value.0 ==> IsSpace(line[j]))
                        && (forall j :: r.value.0 <= j < r.value.1 ==> !IsLineTerminator(line[j]))
                        && tail(r.value.1)
    ensures r.Some? ==> forall s: nat, e: nat :: s <= b + w && SpanWorks(line, tail, b, s, e) ==>
                                         s <= r.value.0 && (s == r.value.0 ==> r.value.1 <= e)
    ensures r.None? ==> forall s: nat, e: nat :: s <= b + w ==> !SpanWorks(line, tail, b, s, e)
    decreases w
  {
    var s := b + w;
    if s < |line| && LazyEnd(line, tail, s, s + 1).Some? then Some((s, LazyEnd(line, tail, s, s + 1).value))
    else
      LazyEndNone(line, tail, s);
      if w == 0 then None
      else LeadSpan(line, tail, b, w - 1)
  }

  /** A decision shape is a working span after the bullet and within its white space. */
  lemma ShapeIsSpan(line: string)
    ensures var b := BulletLength(line);
            forall s: nat, e: nat :: DecisionShape(line, s, e) <==>
                             0 < b && s <= b + SpaceRun(line, b) && SpanWorks(line, TailMatcher(line), b, s, e)
  {
    var b := BulletLength(line);
  }

  /** The span of the first capture group, if the whole line matches the pattern: the
      decision shape a backtracking matcher finds first. */
  function DecisionSpan(line: string): (r: Option<(nat, nat)>)
    ensures r.Some? ==> DecisionShape(line, r.value.0, r.value.1)
    ensures r.Some? ==> forall s: nat, e: nat :: DecisionShape(line, s, e) ==> s <= r.value.0 && (s == r.value.0 ==> r.value.1 <= e)
    ensures r.None? ==> forall s: nat, e: nat :: !DecisionShape(line, s, e)
  {
    ShapeIsSpan(line);
    var b := BulletLength(line);
    if b == 0 then None else LeadSpan(line, TailMatcher(line), b, SpaceRun(line, b))
  }

  /** `line.match(decisionPattern)`: the two capture groups (choice text, target id). The
      line matches exactly when it has a decision shape. */
  function MatchDecision(line: string): (r: Option<(string, string)>)
    ensures r.Some? <==> DecisionSpan(line).Some?
    ensures r.Some? ==> |r.value.0| > 0 && IsNodeId(r.value.1)
    ensures r.None? ==> forall s: nat, e: nat :: !DecisionShape(line, s, e)
  {
    match DecisionSpan(line)
    case None => None
    case Some((s, e)) => Some((line[s..e], TargetAfter(line, e).value))
  }

  /** Which match a backtracking matcher returns: the choice text is the decision shape
      with the latest start and, for that start, the earliest end, and the id is the one
      the tail captures after it. */
  lemma MatchDecisionCaptures(line: string)
    requires MatchDecision(line).Some?
    ensures exists s: nat, e: nat :: && DecisionShape(line, s, e)
                                     && MatchDecision(line).value == (line[s..e], TargetAfter(line, e).value)
                                     && forall s': nat, e': nat :: DecisionShape(line, s', e') ==> s' <= s && (s' == s ==> e <= e')
  {
    var (s, e) := DecisionSpan(line).value;
    assert DecisionShape(line, s, e);
  }
}
