/** The check that `generateStoryStructureFlow` (src/ai/flows/generate-story-structure.ts)
    runs on the outline the model returns: it rejects a missing or empty outline and a
    missing start id, and it repairs a start id that names no node by pointing it at the
    first node. */
module StructureFlow {
  import opened Wrappers
  import opened StoryTypes
  import opened StoryMaps
  import opened StoryParser
  import opened StoryParserFacts

  /** The two errors the flow throws. */
  datatype FlowError =
    | InvalidStructure      // no output, no `nodes` array, no nodes, or a falsy start id
    | StartNotRecoverable   // the start id names no node and the first node's id is falsy

  /** The output object of the prompt. `nodes` is None when it is not an array; the start
      id is overwritten in place by the repair. */
  class StructureOutput {
    var nodes: Option<seq<NodeStructure>>
    var startNodeId: string

    constructor (nodes: Option<seq<NodeStructure>>, startNodeId: string)
      ensures this.nodes == nodes && this.startNodeId == startNodeId
    {
      this.nodes := nodes;
      this.startNodeId := startNodeId;
    }
  }

  /** The first guard passes: there is a non-empty array of nodes and a truthy start id. */
  predicate WellFormedOutline(nodes: Option<seq<NodeStructure>>, start: string) {
    nodes.Some? && |nodes.value| > 0 && start != ""
  }

  /** `nodes.some(node => node.id === id)` */
  predicate HasNodeWithId(nodes: seq<NodeStructure>, id: string) {
    exists k :: 0 <= k < |nodes| && nodes[k].id == id
  }

  /** The start id the flow returns, or the error it throws. */
  function RepairedStart(nodes: Option<seq<NodeStructure>>, start: string): (r: Result<string, FlowError>)
    ensures r == Failure(InvalidStructure) <==> !WellFormedOutline(nodes, start)
    ensures r == Failure(StartNotRecoverable) <==>
              WellFormedOutline(nodes, start) && !HasNodeWithId(nodes.value, start) && nodes.value[0].id == ""
    ensures r.Success? ==> nodes.Some? && r.value != "" && HasNodeWithId(nodes.value, r.value)
    ensures r.Success? ==> (r.value == start <==> HasNodeWithId(nodes.value, start))
    ensures r.Success? && r.value != start ==> r.value == nodes.value[0].id
  {
    if !WellFormedOutline(nodes, start) then Failure(InvalidStructure)
    else if HasNodeWithId(nodes.value, start) then Success(start)
    else if nodes.value[0].id != "" then Success(nodes.value[0].id)
    else Failure(StartNotRecoverable)
  }

  /** Lines 157-177: validate the output and repair its start id in place. On success the
      same object is returned; only its start id may have changed. */
  method FinishStructureFlow(output: StructureOutput?) returns (r: Result<StructureOutput, FlowError>)
    modifies output
    ensures output == null ==> r == Failure(InvalidStructure)
    ensures output != null ==> output.nodes == old(output.nodes)
    ensures output != null ==>
              match RepairedStart(old(output.nodes), old(output.startNodeId))
              case Success(s) => r == Success(output) && output.startNodeId == s
              case Failure(e) => r == Failure(e) && output.startNodeId == old(output.startNodeId)
  {
    if output == null || output.nodes.None? || |output.nodes.value| == 0 || output.startNodeId == "" {
      return Failure(InvalidStructure);
    }
    var nodes := output.nodes.value;
    if !HasNodeWithId(nodes, output.startNodeId) {
      var firstNodeId := nodes[0].id;
      if firstNodeId != "" {
        output.startNodeId := firstNodeId;
      } else {
        return Failure(StartNotRecoverable);
      }
    }
    return Success(output);
  }

  /** A repaired outline passes the check again unchanged. */
  lemma RepairIdempotent(nodes: Option<seq<NodeStructure>>, start: string)
    requires RepairedStart(nodes, start).Success?
    ensures RepairedStart(nodes, RepairedStart(nodes, start).value) == RepairedStart(nodes, start)
  {
    var s := RepairedStart(nodes, start).value;
    var k :| 0 <= k < |nodes.value| && nodes.value[k].id == s;
    assert HasNodeWithId(nodes.value, s);
  }

  /** An outline that passed the check, parsed together with its generated content, gives a
      story whose start id is a node of the story map. */
  lemma RepairedStartIsStoryNode(nodes: seq<NodeStructure>, start: string, content: map<string, string>,
                                 legacy: Option<LegacyInput>, stored: Option<string>)
    requires RepairedStart(Some(nodes), start).Success?
    ensures var s := RepairedStart(Some(nodes), start).value;
            var r := ParseStorySpec(Some(content), Some(StoryStructure(nodes, s)), legacy, stored);
            r.startNodeId == Some(s) && s in r.storyMap.entries
  {
    var s := RepairedStart(Some(nodes), start).value;
    var outline := StoryStructure(nodes, s);
    StructuredPathTaken(Some(content), Some(outline), legacy, stored);
    StructuredMapKeys(nodes, content);
    var k :| 0 <= k < |nodes| && nodes[k].id == s;
    assert s in DeclaredIds(nodes);
  }
}
