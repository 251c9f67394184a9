/**
  The symbol table: a singly linked list of nodes, one per variable name,
  hung off a head pointer, with a node counter and a fixed capacity.

  The C program keeps `head` and `numberOfNodes` as globals; here they are
  the fields of one `Table` object. The ghost sequence `nodes` lists the
  nodes from the head along the `next` pointers.
*/
module SymbolTable {
  import opened Wrappers
  import opened Values

  /** The largest number of symbols the table holds. */
  const MAX_SIZE_SYMBOL_TABLE: nat := 64

  predicate Distinct(ids: seq<string>) {
    forall i, j :: 0 <= i < j < |ids| ==> ids[i] != ids[j]
  }

  /** Position of the first `s` in `ids`, the node a walk from the head stops at. */
  function IndexOf(ids: seq<string>, s: string): (k: Option<nat>)
    ensures k.None? <==> s !in ids
    ensures k.Some? ==> k.value < |ids| && ids[k.value] == s
    ensures k.Some? ==> forall j :: 0 <= j < k.value ==> ids[j] != s
  {
    if ids == [] then None
    else if ids[0] == s then Some(0)
    else match IndexOf(ids[1..], s)
      case None => None
      case Some(j) => Some(j + 1)
  }

  /** The ids after a lookup-or-insert of `s`: appended at the tail when absent and there is room. */
  function FindOrAddIds(ids: seq<string>, s: string): seq<string> {
    if s in ids || |ids| >= MAX_SIZE_SYMBOL_TABLE then ids else ids + [s]
  }

  /** Ids stay pairwise distinct and the table never grows past its capacity. */
  lemma FindOrAddKeepsInvariant(ids: seq<string>, s: string)
    requires Distinct(ids) && |ids| <= MAX_SIZE_SYMBOL_TABLE
    ensures Distinct(FindOrAddIds(ids, s)) && |FindOrAddIds(ids, s)| <= MAX_SIZE_SYMBOL_TABLE
  {
  }

  /** After the call `s` is in the table unless the table was full; no other id is added or lost. */
  lemma FindOrAddContents(ids: seq<string>, s: string, t: string)
    ensures s in FindOrAddIds(ids, s) <==> s in ids || |ids| < MAX_SIZE_SYMBOL_TABLE
    ensures t != s ==> (t in FindOrAddIds(ids, s) <==> t in ids)
    ensures ids <= FindOrAddIds(ids, s) && |FindOrAddIds(ids, s)| <= |ids| + 1
  {
  }

  /** Looking a name up a second time changes nothing. */
  lemma FindOrAddIdempotent(ids: seq<string>, s: string)
    ensures FindOrAddIds(FindOrAddIds(ids, s), s) == FindOrAddIds(ids, s)
  {
  }

  /** Appending at the tail leaves every earlier name at its position. */
  lemma {:induction false} IndexOfAppend(ids: seq<string>, s: string, t: string)
    requires t in ids
    ensures IndexOf(ids + [s], t) == IndexOf(ids, t)
  {
    if ids[0] != t {
      assert (ids + [s])[1..] == ids[1..] + [s];
      IndexOfAppend(ids[1..], s, t);
    }
  }

  /** Insertion order: old names keep their positions and a new name is found at the old length. */
  lemma FindOrAddPositions(ids: seq<string>, s: string, t: string)
    ensures t in ids ==> IndexOf(FindOrAddIds(ids, s), t) == IndexOf(ids, t)
    ensures s !in ids && |ids| < MAX_SIZE_SYMBOL_TABLE ==> IndexOf(FindOrAddIds(ids, s), s) == Some(|ids|)
  {
    if s !in ids && |ids| < MAX_SIZE_SYMBOL_TABLE {
      if t in ids {
        IndexOfAppend(ids, s, t);
      }
      assert (ids + [s])[..|ids|] == ids;
    }
  }

  /** One `table_node`. Its id never changes once the node exists. */
  class TableNode {
    const id: string
    var typeDeclared: bool
    var initialised: bool
    var next: TableNode?
    var value: Value

    /** A fresh node: no type, no value, end of the list. */
    constructor (id: string)
      ensures this.id == id && !typeDeclared && !initialised && next == null && value == Undef
    {
      this.id := id;
      typeDeclared := false;
      initialised := false;
      next := null;
      value := Undef;
    }
  }

  /** The table's state: the head pointer and the node counter. */
  class Table {
    var head: TableNode?
    var numberOfNodes: int
    ghost var nodes: seq<TableNode>

    /** The ids along the list, head first. */
    ghost function Ids(): seq<string>
      reads this
    {
      seq(|nodes|, i requires 0 <= i < |nodes| reads this => nodes[i].id)
    }

    /** `nodes` is the list from `head`, the counter is its length, and ids are unique. */
    ghost predicate Valid()
      reads this, nodes
    {
      && numberOfNodes == |nodes| <= MAX_SIZE_SYMBOL_TABLE
      && (head == null <==> nodes == [])
      && (nodes != [] ==> head == nodes[0] && nodes[|nodes| - 1].next == null)
      && (forall i :: 0 <= i < |nodes| - 1 ==> nodes[i].next == nodes[i + 1])
      && Distinct(Ids())
    }

    /** The empty table: no head, no nodes. */
    constructor ()
      ensures Valid() && nodes == [] && head == null && numberOfNodes == 0
    {
      head := null;
      numberOfNodes := 0;
      nodes := [];
    }

    /** `addNode`: links a fresh node for `str` after the last node and counts it. */
    method AddNode(str: string, lastNode: TableNode) returns (addedNode: TableNode)
      requires Valid()
      requires nodes != [] && lastNode == nodes[|nodes| - 1]
      requires str !in Ids() && numberOfNodes < MAX_SIZE_SYMBOL_TABLE
      modifies this, lastNode
      ensures Valid()
      ensures fresh(addedNode)
      ensures nodes == old(nodes) + [addedNode] && Ids() == old(Ids()) + [str]
      ensures addedNode.id == str && !addedNode.typeDeclared && !addedNode.initialised
      ensures numberOfNodes == old(numberOfNodes) + 1 && head == old(head)
      ensures lastNode.next == addedNode
      ensures lastNode.typeDeclared == old(lastNode.typeDeclared) && lastNode.initialised == old(lastNode.initialised)
      ensures lastNode.value == old(lastNode.value)
    {
      addedNode := new TableNode(str);
      lastNode.next := addedNode;
      numberOfNodes := numberOfNodes + 1;
      nodes := nodes + [addedNode];
      assert Ids() == old(Ids()) + [str];
      forall i | 0 <= i < |nodes| - 1
        ensures nodes[i].next == nodes[i + 1]
      {
        if i < |nodes| - 2 {
          assert old(Ids())[i] != old(Ids())[|nodes| - 2];
        }
      }
    }

    /**
      `findOrAdd`: the node named `s`, found by walking from the head, or a
      fresh node appended at the tail. When the table is full and `s` is
      absent there is no node to return.
    */
    method FindOrAdd(s: string) returns (r: Option<TableNode>)
      requires Valid()
      modifies this, nodes
      ensures Valid()
      ensures Ids() == FindOrAddIds(old(Ids()), s)
      ensures old(nodes) <= nodes
      ensures r.None? <==> s !in old(Ids()) && old(numberOfNodes) == MAX_SIZE_SYMBOL_TABLE
      ensures r.Some? ==> r.value in nodes && r.value.id == s
      ensures r.Some? ==> IndexOf(Ids(), s).Some? && r.value == nodes[IndexOf(Ids(), s).value]
      ensures s in old(Ids()) || r.None? ==>
        nodes == old(nodes) && head == old(head) && numberOfNodes == old(numberOfNodes)
      ensures s !in old(Ids()) && r.Some? ==>
        && fresh(r.value) && nodes == old(nodes) + [r.value]
        && numberOfNodes == old(numberOfNodes) + 1
        && !r.value.typeDeclared && !r.value.initialised && r.value.next == null
      ensures forall n :: n in old(nodes) ==>
        n.typeDeclared == old(n.typeDeclared) && n.initialised == old(n.initialised) && n.value == old(n.value)
      ensures forall n :: n in old(nodes) && n.next != old(n.next) ==> n == old(nodes)[|old(nodes)| - 1]
    {
      if head == null {
        head := new TableNode(s);
        numberOfNodes := numberOfNodes + 1;
        nodes := [head];
        return Some(head);
      }
      var node: TableNode := head;
      ghost var k := 0;
      while node.id != s
        invariant unchanged(this) && unchanged(nodes) && Valid()
        invariant 0 <= k < |nodes| && node == nodes[k]
        invariant node.next == if k + 1 < |nodes| then nodes[k + 1] else null
        invariant s !in Ids()[..k]
        decreases |nodes| - k
      {
        if node.next == null && numberOfNodes < MAX_SIZE_SYMBOL_TABLE {
          assert Ids() == Ids()[..k] + [Ids()[k]];
          var added := AddNode(s, node);
          return Some(added);
        }
        if node.next == null {
          // The C `findOrAdd` loop would go on to compare against a NULL node here.
          assert Ids() == Ids()[..k] + [Ids()[k]];
          return None;
        }
        assert Ids()[..k + 1] == Ids()[..k] + [Ids()[k]];
        node := node.next;
        k := k + 1;
      }
      assert Ids()[k] == s;
      assert IndexOf(Ids(), s) == Some(k);
      return Some(node);
    }
  }
}
