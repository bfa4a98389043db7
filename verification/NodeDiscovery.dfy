/** The table of discovered nodes and their wires, as the discovery bundle changes it. */
module NodeDiscovery {
  import opened Collections

  type Table = map<string, seq<string>>

  /** Wire w of node n is known. */
  predicate Knows(t: Table, n: string, w: string) {
    n in t && w in t[n]
  }

  /** Appends the wires that the list does not hold yet. */
  function AppendNew(list: seq<string>, wires: seq<string>): seq<string>
    decreases |wires|
  {
    if wires == [] then list
    else AppendNew(if wires[0] in list then list else list + [wires[0]], wires[1..])
  }

  function WithoutAll(list: seq<string>, wires: seq<string>): seq<string>
    decreases |wires|
  {
    if wires == [] then list else WithoutAll(Without(list, wires[0]), wires[1..])
  }

  function Added(t: Table, n: string, wires: seq<string>): Table {
    t[n := if n in t then AppendNew(t[n], wires) else wires]
  }

  function Removed(t: Table, n: string, wires: seq<string>): Table {
    if n in t then t[n := WithoutAll(t[n], wires)] else t
  }

  lemma {:induction false} AppendNewElements(list: seq<string>, wires: seq<string>, w: string)
    ensures w in AppendNew(list, wires) <==> w in list || w in wires
    decreases |wires|
  {
    if wires != [] {
      AppendNewElements(if wires[0] in list then list else list + [wires[0]], wires[1..], w);
    }
  }

  /** The new wires go behind the known ones, none of them twice. */
  lemma {:induction false} AppendNewOrder(list: seq<string>, wires: seq<string>)
    ensures list <= AppendNew(list, wires)
    ensures Distinct(list) ==> Distinct(AppendNew(list, wires))
    decreases |wires|
  {
    if wires != [] {
      AppendNewOrder(if wires[0] in list then list else list + [wires[0]], wires[1..]);
    }
  }

  lemma {:induction false} WithoutAllElements(list: seq<string>, wires: seq<string>, w: string)
    ensures w in WithoutAll(list, wires) <==> w in list && w !in wires
    decreases |wires|
  {
    if wires != [] {
      WithoutElements(list, wires[0], w);
      WithoutAllElements(Without(list, wires[0]), wires[1..], w);
    }
  }

  /** Adding a node description makes exactly its wires known and forgets none. */
  lemma AddedKnows(t: Table, n: string, wires: seq<string>, m: string, w: string)
    ensures Knows(Added(t, n, wires), m, w) <==> Knows(t, m, w) || (m == n && w in wires)
  {
    if n in t {
      AppendNewElements(t[n], wires, w);
    }
  }

  /** Removing a node description forgets exactly its wires. */
  lemma RemovedKnows(t: Table, n: string, wires: seq<string>, m: string, w: string)
    ensures Knows(Removed(t, n, wires), m, w) <==> Knows(t, m, w) && !(m == n && w in wires)
  {
    if n in t {
      WithoutAllElements(t[n], wires, w);
    }
  }

  class Discovery {
    var nodes: Table

    constructor ()
      ensures nodes == map[]
    {
      nodes := map[];
    }

    method AddNode(n: string, wires: seq<string>)
      modifies this
      ensures nodes == Added(old(nodes), n, wires)
    {
      if n in nodes {
        var available := nodes[n];
        var i := 0;
        while i < |wires|
          invariant i <= |wires|
          invariant AppendNew(available, wires[i..]) == AppendNew(nodes[n], wires)
        {
          var found := false;
          var k := 0;
          while k < |available| && !found
            invariant k <= |available| && (found <==> wires[i] in available[..k])
          {
            found := available[k] == wires[i];
            k := k + 1;
          }
          assert found <==> wires[i] in available by {
            assert available[..|available|] == available;
          }
          if !found {
            available := available + [wires[i]];
          }
          i := i + 1;
        }
        assert wires[i..] == [];
        nodes := nodes[n := available];
      } else {
        nodes := nodes[n := wires];
      }
    }

    method RemoveNode(n: string, wires: seq<string>)
      modifies this
      ensures nodes == Removed(old(nodes), n, wires)
    {
      if n in nodes {
        var list := nodes[n];
        for i := 0 to |wires|
          invariant nodes == old(nodes) && WithoutAll(list, wires[i..]) == WithoutAll(nodes[n], wires)
        {
          list := RemoveWire(list, wires[i]);
        }
        assert wires[|wires|..] == [];
        nodes := nodes[n := list];
      }
    }

    /** Removal through an iterator over the list. */
    static method RemoveWire(from: seq<string>, w: string) returns (list: seq<string>)
      ensures list == Without(from, w)
    {
      list := from;
      var k := 0;
      while k < |list|
        invariant k <= |list| && list[..k] + Without(list[k..], w) == Without(from, w)
        decreases |list| - k
      {
        if list[k] == w {
          assert (list[..k] + list[k + 1..])[k..] == list[k..][1..];
          list := list[..k] + list[k + 1..];
        } else {
          assert list[..k + 1] == list[..k] + [list[k]] && list[k + 1..] == list[k..][1..];
          k := k + 1;
        }
      }
    }
  }
}
