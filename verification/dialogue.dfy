/** The dialogue engine (main.go): each character owns named dialogue graphs;
    the active graph has a current node whose phrase is revealed one character per
    frame, whose options can be cycled through, and which is left along an
    edge when the player confirms. Also the graph build from parsed entries. */
module Dialogue {
  import opened Util
  import opened Entities

  /** The source looks up the active graph and its current node without a
      check; both must exist or it dereferences nil. */
  predicate Ready(c: Character)
  {
    c.dialogueKey in c.graphs && c.graphs[c.dialogueKey].nodeKey in c.graphs[c.dialogueKey].nodes
  }

  function ActiveGraph(c: Character): DialogueGraph
    requires c.dialogueKey in c.graphs
  {
    c.graphs[c.dialogueKey]
  }

  function CurrentNode(c: Character): DialogueNode
    requires Ready(c)
  {
    ActiveGraph(c).nodes[ActiveGraph(c).nodeKey]
  }

  /** The successors of the current node; a missing entry reads as none. */
  function Connections(g: DialogueGraph): seq<string>
  {
    if g.nodeKey in g.edges then g.edges[g.nodeKey] else []
  }

  /** `c` with its active graph replaced. */
  function WithGraph(c: Character, g: DialogueGraph): Character
    requires c.dialogueKey in c.graphs
  {
    c.(graphs := c.graphs[c.dialogueKey := g])
  }

  /** `c` with the node under the current key replaced. */
  function WithCurrentNode(c: Character, n: DialogueNode): Character
    requires Ready(c)
  {
    var g := ActiveGraph(c);
    WithGraph(c, g.(nodes := g.nodes[g.nodeKey := n]))
  }

  // ---------------------------------------------------------------------------
  // Well-formedness: what the loaded data and the operations keep true.

  /** The selected option exists and names a target (the source indexes both). */
  predicate SelectionValid(n: DialogueNode)
  {
    |n.options| > 0 ==> 0 <= n.optionNum < |n.options| && |n.options[n.optionNum]| >= 2
  }

  predicate NodeWellFormed(n: DialogueNode)
  {
    && 0 <= n.runeNum <= |n.phrase|
    && (|n.options| > 0 ==> 0 <= n.optionNum < |n.options|)
    && forall j :: 0 <= j < |n.options| ==> |n.options[j]| >= 2
  }

  /** Every edge leads to an existing node. */
  predicate EdgesClosed(g: DialogueGraph)
  {
    forall k, t :: k in g.edges && t in g.edges[k] ==> t in g.nodes
  }

  predicate GraphWellFormed(g: DialogueGraph)
  {
    && g.nodeKey in g.nodes
    && EdgesClosed(g)
    && forall k :: k in g.nodes ==> NodeWellFormed(g.nodes[k])
  }

  predicate WellFormed(c: Character)
  {
    c.dialogueKey in c.graphs && GraphWellFormed(c.graphs[c.dialogueKey])
  }

  lemma WellFormedIsReady(c: Character)
    requires WellFormed(c)
    ensures Ready(c) && SelectionValid(CurrentNode(c))
  {
  }

  // ---------------------------------------------------------------------------
  // The InteractionTarget methods of Character.

  /** The revealed text: the first `runeNum` characters of the current phrase. */
  function Dialogue(c: Character): (r: string)
    requires Ready(c)
    requires 0 <= CurrentNode(c).runeNum <= |CurrentNode(c).phrase|
    ensures |r| == CurrentNode(c).runeNum
    ensures r <= CurrentNode(c).phrase
  {
    CurrentNode(c).phrase[..CurrentNode(c).runeNum]
  }

  function Options(c: Character): seq<seq<string>>
    requires Ready(c)
  {
    CurrentNode(c).options
  }

  function SelectedOption(c: Character): int
    requires Ready(c)
  {
    CurrentNode(c).optionNum
  }

  function IsExhausted(c: Character): bool
    requires Ready(c)
  {
    CurrentNode(c).end
  }

  /** Moves the selection by `dir`, clamped to the options; with no options
      the clamp yields -1. Only the current node's selection changes. */
  function SelectOption(c: Character, dir: int): (r: Character)
    requires Ready(c)
    ensures Ready(r)
    ensures r == WithCurrentNode(c, CurrentNode(c).(optionNum := SelectedOption(r)))
    ensures |Options(c)| > 0 ==> 0 <= SelectedOption(r) < |Options(c)|
    ensures |Options(c)| == 0 ==> SelectedOption(r) == -1
    ensures 0 <= SelectedOption(c) + dir < |Options(c)| ==> SelectedOption(r) == SelectedOption(c) + dir
    ensures |Options(c)| > 0 && SelectedOption(c) + dir < 0 ==> SelectedOption(r) == 0
    ensures SelectedOption(c) + dir >= |Options(c)| ==> SelectedOption(r) == |Options(c)| - 1
    ensures WellFormed(c) ==> WellFormed(r)
  {
    var n := CurrentNode(c);
    WithCurrentNode(c, n.(optionNum := Min(Max(n.optionNum + dir, 0), |n.options| - 1)))
  }

  /** Reveals one more character of the phrase, never past its end. */
  function AdvanceRune(c: Character): (r: Character)
    requires Ready(c)
    ensures Ready(r)
    ensures r == WithCurrentNode(c, CurrentNode(c).(runeNum := CurrentNode(r).runeNum))
    ensures CurrentNode(c).runeNum < |CurrentNode(c).phrase| ==> CurrentNode(r).runeNum == CurrentNode(c).runeNum + 1
    ensures CurrentNode(c).runeNum >= |CurrentNode(c).phrase| ==> CurrentNode(r).runeNum == |CurrentNode(c).phrase|
    ensures CurrentNode(c).runeNum == |CurrentNode(c).phrase| ==> r == c
    ensures WellFormed(c) ==> WellFormed(r)
  {
    var n := CurrentNode(c);
    var r := WithCurrentNode(c, n.(runeNum := Min(n.runeNum + 1, |n.phrase|)));
    assert n.runeNum == |n.phrase| ==> ActiveGraph(r) == ActiveGraph(c);
    r
  }

  /** The revealed text only grows, one character at a time, up to the whole phrase. */
  lemma RevealOnlyGrows(c: Character)
    requires WellFormed(c)
    ensures Ready(AdvanceRune(c))
    ensures 0 <= CurrentNode(AdvanceRune(c)).runeNum <= |CurrentNode(AdvanceRune(c)).phrase|
    ensures Dialogue(c) <= Dialogue(AdvanceRune(c))
    ensures |Dialogue(AdvanceRune(c))| == Min(|Dialogue(c)| + 1, |CurrentNode(c).phrase|)
  {
  }

  /** `r` is `c` after leaving the current node for `target`: the departed
      node's reveal and selection are reset to 0 and nothing else changes. */
  predicate Departed(c: Character, r: Character, target: string)
    requires Ready(c)
  {
    var g := ActiveGraph(c);
    && r.(graphs := c.graphs) == c
    && r.graphs.Keys == c.graphs.Keys
    && (forall k :: k in c.graphs && k != c.dialogueKey ==> r.graphs[k] == c.graphs[k])
    && var h := r.graphs[c.dialogueKey];
    && h.nodeKey == target && h.edges == g.edges && h.rootKey == g.rootKey
    && h.nodes.Keys == g.nodes.Keys
    && (forall k :: k in g.nodes && k != g.nodeKey ==> h.nodes[k] == g.nodes[k])
    && h.nodes[g.nodeKey] == g.nodes[g.nodeKey].(runeNum := 0, optionNum := 0)
  }

  function Depart(c: Character, target: string): (r: Character)
    requires Ready(c)
    ensures Departed(c, r, target)
  {
    var g := ActiveGraph(c);
    var n := CurrentNode(c);
    WithGraph(c, g.(nodes := g.nodes[g.nodeKey := n.(runeNum := 0, optionNum := 0)], nodeKey := target))
  }

  /** Follows the first edge of an option-less node, or the selected option's
      target when that target is wired as an edge of the current node. */
  function AdvancePhrase(c: Character): (r: Character)
    requires Ready(c)
    requires SelectionValid(CurrentNode(c))
    ensures var n := CurrentNode(c); var conns := Connections(ActiveGraph(c));
      |n.options| == 0 && |conns| > 0 ==> Departed(c, r, conns[0])
    ensures var n := CurrentNode(c); var conns := Connections(ActiveGraph(c));
      |n.options| == 0 && |conns| == 0 ==> r == c
    ensures var n := CurrentNode(c); var conns := Connections(ActiveGraph(c));
      |n.options| > 0 && n.options[n.optionNum][1] in conns ==> Departed(c, r, n.options[n.optionNum][1])
    ensures var n := CurrentNode(c); var conns := Connections(ActiveGraph(c));
      |n.options| > 0 && n.options[n.optionNum][1] !in conns ==> r == c
    ensures EdgesClosed(ActiveGraph(c)) ==> Ready(r)
    ensures WellFormed(c) ==> WellFormed(r)
  {
    var g := ActiveGraph(c);
    var n := CurrentNode(c);
    var conns := Connections(g);
    if |n.options| == 0 && |conns| > 0 then
      Depart(c, conns[0])
    else if |n.options| > 0 && Contains(conns, n.options[n.optionNum][1]) then
      Depart(c, n.options[n.optionNum][1])
    else
      c
  }

  // ---------------------------------------------------------------------------
  // Graph construction from the parsed dialogue entries.

  /** One parsed dialogue entry (DialogueJSON). */
  datatype DialogueEntry = DialogueEntry(
    id: string,
    phrase: string,
    options: seq<seq<string>>,
    connections: seq<string>,
    end: bool)

  function NodeOf(e: DialogueEntry): DialogueNode
  {
    DialogueNode(e.phrase, e.options, 0, 0, e.end)
  }

  /** The entry a lookup of `k` ends up with: later entries with the same id
      overwrite earlier ones, so it is the last entry with that id. */
  function LastEntry(es: seq<DialogueEntry>, k: string): Option<DialogueEntry>
  {
    if |es| == 0 then None
    else if es[|es| - 1].id == k then Some(es[|es| - 1])
    else LastEntry(es[..|es| - 1], k)
  }

  /** Some entry carries id `k` exactly when the lookup finds one, and what it
      finds is an entry with that id and no later entry sharing it. */
  lemma {:induction false} LastEntryIff(es: seq<DialogueEntry>, k: string)
    ensures LastEntry(es, k).Some? <==> exists i :: 0 <= i < |es| && es[i].id == k
    ensures LastEntry(es, k).Some? ==>
      exists i :: 0 <= i < |es| && es[i] == LastEntry(es, k).value && es[i].id == k
        && forall j :: i < j < |es| ==> es[j].id != k
    decreases |es|
  {
    if |es| > 0 {
      var n := |es| - 1;
      var p := es[..n];
      LastEntryIff(p, k);
      assert forall i :: 0 <= i < n ==> p[i] == es[i];
      if es[n].id != k {
        if exists i :: 0 <= i < |es| && es[i].id == k {
          var i :| 0 <= i < |es| && es[i].id == k;
          assert p[i].id == k;
        }
      }
    }
  }

  /** What building from `es` promises of `g`: one node and one edge list per
      distinct id, taken from the last entry with that id, and the first
      entry's id as both root and current key. */
  ghost predicate BuiltFrom(es: seq<DialogueEntry>, g: DialogueGraph)
  {
    && g.edges.Keys == g.nodes.Keys
    && (forall k :: k in g.nodes <==> LastEntry(es, k).Some?)
    && (forall k :: k in g.nodes ==>
          g.nodes[k] == NodeOf(LastEntry(es, k).value) && g.edges[k] == LastEntry(es, k).value.connections)
    && (|es| > 0 ==> g.rootKey == es[0].id && g.nodeKey == es[0].id)
    && (|es| == 0 ==> g.rootKey == "" && g.nodeKey == "")
  }

  /** Inserts the entries in order; the first entry's id becomes both the root and the current key. */
  function BuildGraph(es: seq<DialogueEntry>): (g: DialogueGraph)
    ensures BuiltFrom(es, g)
    ensures |es| > 0 ==> g.nodeKey in g.nodes
    decreases |es|
  {
    if |es| == 0 then
      DialogueGraph(map[], map[], "", "")
    else
      var g := BuildGraph(es[..|es| - 1]);
      var e := es[|es| - 1];
      assert |es| > 1 ==> es[..|es| - 1][0] == es[0];
      LastEntryIff(es, es[0].id);
      DialogueGraph(g.nodes[e.id := NodeOf(e)], g.edges[e.id := e.connections],
                    if |es| == 1 then e.id else g.nodeKey,
                    if |es| == 1 then e.id else g.rootKey)
  }

  /** Every node of a built graph starts unrevealed with the first option selected. */
  lemma BuiltNodesStartFresh(es: seq<DialogueEntry>)
    ensures forall k :: k in BuildGraph(es).nodes ==>
      BuildGraph(es).nodes[k].runeNum == 0 && BuildGraph(es).nodes[k].optionNum == 0
  {
  }

  /** Built from entries whose options name targets and whose connections name
      existing ids, a non-empty graph is well formed. */
  lemma BuiltGraphWellFormed(es: seq<DialogueEntry>)
    requires |es| > 0
    requires forall i, j :: 0 <= i < |es| && 0 <= j < |es[i].options| ==> |es[i].options[j]| >= 2
    requires forall i, t :: 0 <= i < |es| && t in es[i].connections ==> exists j :: 0 <= j < |es| && es[j].id == t
    ensures GraphWellFormed(BuildGraph(es))
  {
    var g := BuildGraph(es);
    assert BuiltFrom(es, g);
    LastEntryIff(es, es[0].id);
    forall k, t | k in g.edges && t in g.edges[k]
      ensures t in g.nodes
    {
      LastEntryIff(es, k);
      var i :| 0 <= i < |es| && es[i] == LastEntry(es, k).value && es[i].id == k;
      LastEntryIff(es, t);
    }
    forall k | k in g.nodes
      ensures NodeWellFormed(g.nodes[k])
    {
      LastEntryIff(es, k);
      var i :| 0 <= i < |es| && es[i] == LastEntry(es, k).value && es[i].id == k;
    }
  }

  /** The per-character map of graphs built from the parsed file. */
  function BuildGraphs(parsed: map<string, seq<DialogueEntry>>): (graphs: map<string, DialogueGraph>)
    ensures graphs.Keys == parsed.Keys
    ensures forall k :: k in parsed ==> BuiltFrom(parsed[k], graphs[k])
    ensures forall k :: k in parsed && |parsed[k]| > 0 ==> graphs[k].nodeKey in graphs[k].nodes
  {
    map k | k in parsed :: BuildGraph(parsed[k])
  }
}
