/** The records the parser consumes and produces (src/types/story.ts), and the shapes that
    stand in for what `JSON.parse` and session storage hand to it. */
module StoryTypes {
  import opened Wrappers

  /** A choice offered on a page: `{ text, nextNodeId }` (StoryDecision and
      DecisionStructure have the same shape). */
  datatype Decision = Decision(text: string, nextNodeId: string)

  /** StoryNodeData: one parsed page. The parser always fills in `title`. */
  datatype StoryNode = StoryNode(
    id: string,
    title: string,
    rawContent: string,
    decisions: seq<Decision>,
    isEnding: bool,
    endingText: Option<string>)

  /** StoryNodeStructure: one node of the declared outline. `decisions` may be omitted. */
  datatype NodeStructure = NodeStructure(
    id: string,
    title: string,
    summary: string,
    decisions: Option<seq<Decision>>,
    isEnding: bool)

  /** StoryStructureOutput: the declared outline and its start node. */
  datatype StoryStructure = StoryStructure(nodes: seq<NodeStructure>, startNodeId: string)

  /** A property value of a parsed JSON object: a string, or anything else. */
  datatype JsonValue = JString(s: string) | JOther

  /** What `JSON.parse` made of the legacy text: a non-array object, given by its own
      properties in enumeration order, or anything else (including a parse error). */
  datatype LegacyJson = JsonObject(entries: seq<(string, JsonValue)>) | NotJsonObject

  /** The legacy story text together with the outcome of parsing it as JSON. */
  datatype LegacyInput = LegacyInput(text: string, parsed: LegacyJson)
}
