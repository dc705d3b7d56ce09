/** The chained hash table of dependency nodes. */
module DependencyTables {

  const ARRAY_SIZE: nat := 200

  import opened Options

  /** A node: how many unfinished packets the packet waits for, and the packet itself once it has been read. */
  datatype Node = Node(id: nat, refCount: nat, packet: Option<nat>)

  type Chains = seq<seq<Node>>

  ghost predicate ChainOk(chain: seq<Node>, h: int, m: map<nat, Node>) {
    && (forall j :: 0 <= j < |chain| ==> chain[j].id % ARRAY_SIZE == h && chain[j].id in m && m[chain[j].id] == chain[j])
    && (forall j, k :: 0 <= j < k < |chain| ==> chain[j].id != chain[k].id)
  }

  ghost predicate HasNode(chain: seq<Node>, id: nat) {
    exists j :: 0 <= j < |chain| && chain[j].id == id
  }

  /** The chains hold exactly the nodes of m, each in the chain of its identifier and once only. */
  ghost predicate Represents(chains: Chains, m: map<nat, Node>) {
    && |chains| == ARRAY_SIZE
    && (forall h :: 0 <= h < ARRAY_SIZE ==> ChainOk(chains[h], h, m))
    && (forall id :: id in m ==> HasNode(chains[id % ARRAY_SIZE], id))
  }

  lemma EmptyRepresents()
    ensures Represents(seq(ARRAY_SIZE, _ => []), map[])
  {
  }

  /** A change of one chain and of the entries that hash to it. */
  lemma OneChain(chains: Chains, m: map<nat, Node>, m1: map<nat, Node>, h: nat, chain: seq<Node>)
    requires Represents(chains, m) && h < ARRAY_SIZE && ChainOk(chain, h, m1)
    requires forall id :: id % ARRAY_SIZE != h ==> (id in m <==> id in m1) && (id in m ==> m1[id] == m[id])
    requires forall id :: id in m1 && id % ARRAY_SIZE == h ==> HasNode(chain, id)
    ensures Represents(chains[h := chain], m1)
  {
    var chains1 := chains[h := chain];
    forall g | 0 <= g < ARRAY_SIZE
      ensures ChainOk(chains1[g], g, m1)
    {
      if g != h {
        assert ChainOk(chains[g], g, m);
      }
    }
  }

  class DependencyTable {
    var chains: Chains
    ghost var nodes: map<nat, Node>

    ghost predicate Valid()
      reads this
    {
      Represents(chains, nodes)
    }

    constructor ()
      ensures Valid() && nodes == map[]
    {
      chains := seq(ARRAY_SIZE, _ => []);
      nodes := map[];
      EmptyRepresents();
    }

    /** The place of a node in its chain, or -1. */
    method Find(id: nat) returns (j: int)
      requires Valid()
      ensures id !in nodes ==> j == -1
      ensures id in nodes ==> 0 <= j < |chains[id % ARRAY_SIZE]| && chains[id % ARRAY_SIZE][j] == nodes[id]
    {
      var chain := chains[id % ARRAY_SIZE];
      assert ChainOk(chain, id % ARRAY_SIZE, nodes);
      j := 0;
      while j < |chain|
        invariant 0 <= j <= |chain| && forall k :: 0 <= k < j ==> chain[k].id != id
      {
        if chain[j].id == id {
          return;
        }
        j := j + 1;
      }
      j := -1;
    }

    method Get(id: nat) returns (r: Option<Node>)
      requires Valid()
      ensures r == if id in nodes then Some(nodes[id]) else None
    {
      var j := Find(id);
      r := if j < 0 then None else Some(chains[id % ARRAY_SIZE][j]);
    }

    /** Appends a node with no references at the end of its chain. */
    method Add(id: nat)
      requires Valid() && id !in nodes
      modifies this
      ensures Valid() && nodes == old(nodes)[id := Node(id, 0, None)]
    {
      var h := id % ARRAY_SIZE;
      var node := Node(id, 0, None);
      ghost var m1 := nodes[id := node];
      var chain := chains[h] + [node];
      assert ChainOk(chains[h], h, nodes);
      assert ChainOk(chain, h, m1);
      forall x | x in m1 && x % ARRAY_SIZE == h
        ensures HasNode(chain, x)
      {
        if x == id {
          assert chain[|chain| - 1].id == id;
        } else {
          var j :| 0 <= j < |chains[h]| && chains[h][j].id == x;
          assert chain[j].id == x;
        }
      }
      OneChain(chains, nodes, m1, h, chain);
      chains := chains[h := chain];
      nodes := m1;
    }

    /** Writes through the node found for an identifier. */
    method Put(id: nat, node: Node)
      requires Valid() && id in nodes && node.id == id
      modifies this
      ensures Valid() && nodes == old(nodes)[id := node]
    {
      var h := id % ARRAY_SIZE;
      var j := Find(id);
      ghost var m1 := nodes[id := node];
      var chain := chains[h][j := node];
      assert ChainOk(chains[h], h, nodes);
      assert ChainOk(chain, h, m1);
      forall x | x in m1 && x % ARRAY_SIZE == h
        ensures HasNode(chain, x)
      {
        var k :| 0 <= k < |chains[h]| && chains[h][k].id == x;
        assert chain[k].id == x;
      }
      OneChain(chains, nodes, m1, h, chain);
      chains := chains[h := chain];
      nodes := m1;
    }

    /** Unlinks a node; an identifier without one is ignored. */
    method Remove(id: nat)
      requires Valid()
      modifies this
      ensures Valid() && nodes == old(nodes) - {id}
    {
      var h := id % ARRAY_SIZE;
      var j := Find(id);
      if j < 0 {
        assert nodes == nodes - {id};
        return;
      }
      ghost var m1 := nodes - {id};
      var chain := chains[h][..j] + chains[h][j + 1..];
      assert ChainOk(chains[h], h, nodes);
      assert ChainOk(chain, h, m1);
      forall x | x in m1 && x % ARRAY_SIZE == h
        ensures HasNode(chain, x)
      {
        var k :| 0 <= k < |chains[h]| && chains[h][k].id == x;
        assert k < j ==> chain[k].id == x;
        assert k > j ==> chain[k - 1].id == x;
      }
      OneChain(chains, nodes, m1, h, chain);
      chains := chains[h := chain];
      nodes := m1;
    }
  }
}
