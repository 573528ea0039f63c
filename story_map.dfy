/** The story map: a JavaScript `Map<string, StoryNodeData>`. Keys keep their insertion
    order; `set` on a present key replaces the value and keeps the key where it was. */
module StoryMaps {
  import opened Wrappers
  import opened StoryTypes

  /** The value of a map: its keys in insertion order and the node stored under each. */
  datatype Graph = Graph(keys: seq<string>, entries: map<string, StoryNode>) {

    /** Each key is listed once, and exactly the listed keys have entries. */
    ghost predicate Valid() {
      && (forall i, j :: 0 <= i < j < |keys| ==> keys[i] != keys[j])
      && (forall k :: k in entries <==> k in keys)
    }

    /** `map.set(id, node)`. */
    function Put(id: string, node: StoryNode): (g: Graph)
      ensures g.entries == entries[id := node]
      ensures id in entries ==> g.keys == keys
      ensures id !in entries ==> g.keys == keys + [id]
    {
      if id in entries then Graph(keys, entries[id := node])
      else Graph(keys + [id], entries[id := node])
    }

    /** `map.keys().next().value || null`: the first key, unless the map is empty or that
        key is the (falsy) empty string. */
    function FirstKeyOrNull(): Option<string> {
      if |keys| > 0 && keys[0] != "" then Some(keys[0]) else None
    }
  }

  const EmptyGraph: Graph := Graph([], map[])

  /** `set` keeps a map well formed, keeps its first key, and never loses a key. */
  lemma PutKeepsValid(g: Graph, id: string, node: StoryNode)
    requires g.Valid()
    ensures g.Put(id, node).Valid()
    ensures |g.keys| > 0 ==> g.Put(id, node).keys[0] == g.keys[0]
    ensures g.Put(id, node).keys[0] == if |g.keys| > 0 then g.keys[0] else id
    ensures forall k :: k in g.entries ==> k in g.Put(id, node).entries
  {
    var h := g.Put(id, node);
    if id !in g.entries {
      forall i, j | 0 <= i < j < |h.keys| ensures h.keys[i] != h.keys[j] {
        if j == |g.keys| {
          assert g.keys[i] in g.entries;
        }
      }
    }
  }

  /** The `set` calls of a loop: item i, when present, is the key and node set at step i.
      PutAll(g, items, n) is g after the first n steps. */
  function PutAll(g: Graph, items: seq<Option<(string, StoryNode)>>, n: nat): Graph
    requires n <= |items|
  {
    if n == 0 then g
    else
      var prev := PutAll(g, items, n - 1);
      match items[n - 1]
      case Some((id, node)) => prev.Put(id, node)
      case None => prev
  }

  /** The keys set by the first n steps. */
  function ItemKeys(items: seq<Option<(string, StoryNode)>>, n: nat): set<string>
    requires n <= |items|
  {
    set i | 0 <= i < n && items[i].Some? :: items[i].value.0
  }

  /** A run of `set` calls keeps the map well formed and its first key; its keys are the
      keys it had and the keys set. */
  lemma {:induction false} PutAllValid(g: Graph, items: seq<Option<(string, StoryNode)>>, n: nat)
    requires n <= |items| && g.Valid()
    ensures PutAll(g, items, n).Valid()
    ensures PutAll(g, items, n).entries.Keys == g.entries.Keys + ItemKeys(items, n)
    ensures |g.keys| > 0 ==> |PutAll(g, items, n).keys| > 0 && PutAll(g, items, n).keys[0] == g.keys[0]
  {
    if n > 0 {
      PutAllValid(g, items, n - 1);
      var prev := PutAll(g, items, n - 1);
      match items[n - 1]
      case Some((id, node)) =>
        PutKeepsValid(prev, id, node);
        assert ItemKeys(items, n) == ItemKeys(items, n - 1) + {id};
      case None =>
        assert ItemKeys(items, n) == ItemKeys(items, n - 1);
    }
  }

  /** The last `set` of a key decides its node. */
  lemma {:induction false} PutAllLast(g: Graph, items: seq<Option<(string, StoryNode)>>, n: nat, i: nat)
    requires i < n <= |items| && items[i].Some?
    requires forall j :: i < j < n && items[j].Some? ==> items[j].value.0 != items[i].value.0
    ensures items[i].value.0 in PutAll(g, items, n).entries
    ensures PutAll(g, items, n).entries[items[i].value.0] == items[i].value.1
  {
    if n > i + 1 {
      PutAllLast(g, items, n - 1, i);
    }
  }

  /** A property every node of g and every node set has holds of every node of the result. */
  lemma {:induction false} PutAllKeeps(g: Graph, items: seq<Option<(string, StoryNode)>>, n: nat,
                                       p: (string, StoryNode) -> bool)
    requires n <= |items|
    requires forall k :: k in g.entries ==> p(k, g.entries[k])
    requires forall i :: 0 <= i < n && items[i].Some? ==> p(items[i].value.0, items[i].value.1)
    ensures forall k :: k in PutAll(g, items, n).entries ==> p(k, PutAll(g, items, n).entries[k])
  {
    if n > 0 {
      PutAllKeeps(g, items, n - 1, p);
    }
  }

  /** Steps that set nothing leave the map as it was. */
  lemma {:induction false} PutAllNothing(g: Graph, items: seq<Option<(string, StoryNode)>>, n: nat)
    requires n <= |items|
    requires forall j :: 0 <= j < n ==> items[j].None?
    ensures PutAll(g, items, n) == g
  {
    if n > 0 {
      PutAllNothing(g, items, n - 1);
    }
  }

  /** Starting from an empty map, the first key is the key of the first step that sets one. */
  lemma {:induction false} PutAllFirstKey(g: Graph, items: seq<Option<(string, StoryNode)>>, n: nat, i: nat)
    requires i < n <= |items| && items[i].Some?
    requires forall j :: 0 <= j < i ==> items[j].None?
    requires g.Valid() && g.keys == []
    ensures |PutAll(g, items, n).keys| > 0 && PutAll(g, items, n).keys[0] == items[i].value.0
  {
    if n == i + 1 {
      PutAllNothing(g, items, i);
    } else {
      PutAllFirstKey(g, items, n - 1, i);
    }
  }

  /** The JavaScript Map object the parser fills in place. */
  class StoryMap {
    var keys: seq<string>
    var entries: map<string, StoryNode>

    function Model(): Graph
      reads this
    {
      Graph(keys, entries)
    }

    ghost predicate Valid()
      reads this
    {
      Model().Valid()
    }

    /** `new Map()` */
    constructor ()
      ensures Valid() && Model() == EmptyGraph
    {
      keys := [];
      entries := map[];
    }

    /** `map.set(id, node)` */
    method Set(id: string, node: StoryNode)
      requires Valid()
      modifies this
      ensures Valid()
      ensures Model() == old(Model()).Put(id, node)
    {
      PutKeepsValid(Model(), id, node);
      if id !in entries {
        keys := keys + [id];
      }
      entries := entries[id := node];
    }

    /** `map.has(id)` */
    function Has(id: string): bool
      reads this
    {
      id in entries
    }

    /** `map.keys().next().value || null` */
    function FirstKeyOrNull(): Option<string>
      reads this
    {
      Model().FirstKeyOrNull()
    }

    /** `map.size`: with Valid(), the number of keys is the number of entries. */
    function Size(): nat
      reads this
    {
      |keys|
    }
  }
}
