/** The generic linked list and its iterators. */
module LinkedLists {

  class Node<T> {
    var data: T
    var next: Node?<T>

    constructor (data: T)
      ensures this.data == data && next == null
    {
      this.data, next := data, null;
    }
  }

  class LinkedList<T> {
    var head: Node?<T>
    var tail: Node?<T>
    var size: nat

    /** The nodes in list order. */
    ghost var nodes: seq<Node<T>>

    ghost function NodeAt(k: nat): Node?<T>
      reads this
    {
      if k < |nodes| then nodes[k] else null
    }

    ghost predicate Valid()
      reads this, nodes
    {
      && size == |nodes|
      && head == NodeAt(0)
      && tail == (if nodes == [] then null else nodes[|nodes| - 1])
      && (forall i {:trigger nodes[i].next} :: 0 <= i < |nodes| ==> nodes[i].next == NodeAt(i + 1))
      && (forall i, j :: 0 <= i < j < |nodes| ==> nodes[i] != nodes[j])
    }

    /** The sequence the list stands for. */
    ghost function Contents(): (s: seq<T>)
      reads this, nodes
      ensures |s| == |nodes|
      ensures forall i :: 0 <= i < |s| ==> s[i] == nodes[i].data
    {
      seq(|nodes|, i requires 0 <= i < |nodes| reads this, nodes => nodes[i].data)
    }

    constructor ()
      ensures Valid() && nodes == []
    {
      head, tail, size, nodes := null, null, 0, [];
    }

    method Add(data: T) returns (node: Node<T>)
      requires Valid()
      modifies this, nodes
      ensures Valid() && fresh(node) && nodes == old(nodes) + [node]
      ensures Contents() == old(Contents()) + [data]
    {
      hide Contents;
      node := new Node(data);
      if tail == null {
        head, tail := node, node;
      } else {
        tail.next := node;
        tail := node;
      }
      size := size + 1;
      nodes := nodes + [node];
    }

    /** The loop of Remove: `index` steps from the head, and the node one step earlier. */
    method Walk(index: nat) returns (current: Node<T>, previous: Node?<T>)
      requires Valid() && index < |nodes|
      ensures current == nodes[index] && previous == if index == 0 then null else nodes[index - 1]
    {
      current, previous := head, null;
      for i := 0 to index
        invariant current == nodes[i] && previous == if i == 0 then null else nodes[i - 1]
      {
        previous := current;
        current := current.next;
      }
    }

    /** Takes the node at `index` out of the chain. */
    method Unlink(index: nat, current: Node<T>, previous: Node?<T>)
      requires Valid() && index < |nodes|
      requires current == nodes[index] && previous == if index == 0 then null else nodes[index - 1]
      modifies this, nodes
      ensures Valid() && nodes == old(nodes)[..index] + old(nodes)[index + 1..]
      ensures forall n :: n in old(nodes) ==> n.data == old(n.data)
    {
      if previous == null {
        head := current.next;
      } else {
        previous.next := current.next;
      }
      if current == tail {
        tail := previous;
      }
      size := size - 1;
      nodes := nodes[..index] + nodes[index + 1..];
    }

    method Remove(index: nat) returns (removed: bool)
      requires Valid()
      modifies this, nodes
      ensures Valid() && removed == (index < |old(nodes)|)
      ensures nodes == if removed then old(nodes)[..index] + old(nodes)[index + 1..] else old(nodes)
      ensures forall n :: n in old(nodes) ==> n.data == old(n.data)
      ensures Contents() == if removed then old(Contents())[..index] + old(Contents())[index + 1..] else old(Contents())
    {
      hide Valid;
      SizeIsLength();
      if index >= size {
        return false;
      }
      var current, previous := Walk(index);
      Unlink(index, current, previous);
      return true;
    }

    lemma SizeIsLength()
      requires Valid()
      ensures size == |nodes|
    {
    }

    method Length() returns (n: nat)
      requires Valid()
      ensures n == |Contents()|
    {
      n := size;
    }
  }

  class Iterator<T> {
    var current: Node?<T>

    constructor (list: LinkedList<T>)
      ensures current == list.head
    {
      current := list.head;
    }

    method Restart(list: LinkedList<T>)
      modifies this
      ensures current == list.head
    {
      current := list.head;
    }

    /** Yields the current node, and moves past it before yielding. */
    method Next() returns (node: Node?<T>)
      modifies this
      ensures node == old(current)
      ensures current == if node == null then null else node.next
    {
      if current == null {
        return null;
      }
      node := current;
      current := current.next;
    }
  }

  /** An undisturbed iterator yields the contents in order, then null. */
  method Drain<T>(list: LinkedList<T>) returns (s: seq<T>)
    requires list.Valid()
    ensures s == list.Contents()
  {
    var it := new Iterator(list);
    s := [];
    var node := it.Next();
    while node != null
      invariant |s| <= |list.nodes| && s == list.Contents()[..|s|]
      invariant node == list.NodeAt(|s|)
      invariant it.current == list.NodeAt(if node == null then |s| else |s| + 1)
      decreases |list.nodes| - |s|
    {
      s := s + [node.data];
      node := it.Next();
    }
  }

  /** The node reached by following `k` links. */
  ghost function Follow<T(!new)>(node: Node?<T>, k: nat): Node?<T>
    reads *
    decreases k
  {
    if node == null || k == 0 then node else Follow(node.next, k - 1)
  }

  /** What can be reached from the head is exactly the nodes of the list, in order, then null forever;
      so a removed node cannot be reached. */
  lemma {:induction false} FollowReachesNodes<T(!new)>(list: LinkedList<T>, i: nat, k: nat)
    requires list.Valid()
    ensures Follow(list.NodeAt(i), k) == list.NodeAt(i + k)
    decreases k
  {
    if i < |list.nodes| && k > 0 {
      assert list.nodes[i].next == list.NodeAt(i + 1);
      FollowReachesNodes(list, i + 1, k - 1);
    }
  }
}
