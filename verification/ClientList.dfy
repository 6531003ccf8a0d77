/** The list of clients: a linked list that allocates ids, with an iterator of its own. */
module ClientLists {
  import opened Bytes
  import opened LinkedLists
  import opened Records

  class ClientList {
    const list: LinkedList<Client>
    var nextClientId: uint32
    const it: Iterator<Client>
    /** How many clients were ever added. */
    ghost var added: nat

    ghost function Clients(): seq<Client>
      reads this, list, list.nodes
    {
      list.Contents()
    }

    /** Until 2^32 clients were added, ids rise along the list. */
    ghost predicate Valid()
      reads this, list, list.nodes
    {
      && list.Valid()
      && nextClientId == added % TWO_TO_THE_32
      && (added <= TWO_TO_THE_32 ==> ClientIdsRise(Clients(), added))
    }

    constructor ()
      ensures Valid() && fresh(list) && fresh(it) && Clients() == [] && added == 0
    {
      var clients := new LinkedList<Client>();
      list := clients;
      nextClientId, added := 0, 0;
      it := new Iterator(clients);
    }

    /** Appends a client with the next id; `memory` is what the other fields of the new element hold. */
    method Add(memory: Client) returns (node: Node<Client>)
      requires Valid()
      modifies this, list, list.nodes
      ensures Valid() && fresh(node) && list.nodes == old(list.nodes) + [node]
      ensures added == old(added) + 1
      ensures Clients() == old(Clients()) + [memory.(id := old(nextClientId))]
    {
      hide ClientIdsRise, list.Contents;
      ghost var cs := Clients();
      node := list.Add(memory.(id := nextClientId));
      nextClientId := (nextClientId + 1) % TWO_TO_THE_32;
      added := added + 1;
      if added <= TWO_TO_THE_32 {
        AddClientKeepsIds(cs, added - 1, Clients()[|cs|]);
      }
    }

    /** Writes through the pointer to an element; its id stays. */
    method Update(node: Node<Client>, ghost k: nat, value: Client)
      requires Valid() && k < |list.nodes| && node == list.nodes[k] && value.id == node.data.id
      modifies node
      ensures Valid() && Clients() == old(Clients())[k := value]
    {
      hide ClientIdsRise, list.Contents;
      ghost var before := Clients();
      node.data := value;
      assert list.Valid() && Clients() == before[k := value];
      SameIdsRise(before, Clients(), added);
    }

    method FindById(id: uint32) returns (node: Node?<Client>)
      requires list.Valid()
      ensures node == list.NodeAt(ClientIndex(Clients(), id))
    {
      ghost var k := 0;
      ghost var cs := Clients();
      var walk := new Iterator(list);
      node := walk.Next();
      while node != null && node.data.id != id
        invariant k <= |cs| && node == list.NodeAt(k) && walk.current == list.NodeAt(if node == null then k else k + 1)
        invariant forall j :: 0 <= j < k ==> cs[j].id != id
        decreases |cs| - k
      {
        k := k + 1;
        node := walk.Next();
      }
    }

    method FindByName(name: CString) returns (node: Node?<Client>)
      requires list.Valid()
      ensures node == list.NodeAt(UsernameIndex(Clients(), name))
    {
      ghost var k := 0;
      ghost var cs := Clients();
      var walk := new Iterator(list);
      node := walk.Next();
      while node != null && node.data.name != name
        invariant k <= |cs| && node == list.NodeAt(k) && walk.current == list.NodeAt(if node == null then k else k + 1)
        invariant forall j :: 0 <= j < k ==> cs[j].name != name
        decreases |cs| - k
      {
        k := k + 1;
        node := walk.Next();
      }
    }

    /** The loop of Remove: counts elements up to the first with the given id. */
    method CountTo(id: uint32) returns (i: nat)
      requires list.Valid()
      ensures i == ClientIndex(Clients(), id)
    {
      hide list.Contents;
      ghost var cs := Clients();
      i := 0;
      var walk := new Iterator(list);
      var node := walk.Next();
      while node != null && node.data.id != id
        invariant i <= |cs| && node == list.NodeAt(i) && walk.current == list.NodeAt(if node == null then i else i + 1)
        invariant forall j :: 0 <= j < i ==> cs[j].id != id
        decreases |cs| - i
      {
        i := i + 1;
        node := walk.Next();
      }
    }

    method Remove(id: uint32) returns (found: bool)
      requires Valid()
      modifies this, list, list.nodes
      ensures Valid() && added == old(added)
      ensures list.nodes == Without(old(list.nodes), ClientIndex(old(Clients()), id))
      ensures found == (ClientIndex(old(Clients()), id) < |old(Clients())|)
      ensures Clients() == RemoveClientById(old(Clients()), id)
      ensures forall n :: n in old(list.nodes) ==> n.data == old(n.data)
    {
      hide ClientIdsRise, ClientIndex, list.Contents, list.Valid;
      ghost var cs := Clients();
      var i := CountTo(id);
      found := list.Remove(i);
      if added <= TWO_TO_THE_32 {
        RemoveClientKeepsIds(cs, added, id);
      }
    }

    method Length() returns (n: nat)
      requires list.Valid()
      ensures n == |Clients()|
    {
      n := list.Length();
    }

    /** A new iterator takes the place of the old one. */
    method IteratorRewind()
      requires list.Valid()
      modifies it
      ensures it.current == list.NodeAt(0)
    {
      it.Restart(list);
    }

    method IteratorNext() returns (node: Node?<Client>)
      modifies it
      ensures node == old(it.current)
      ensures it.current == if node == null then null else node.next
    {
      node := it.Next();
    }
  }

  lemma SameIdsRise(before: seq<Client>, after: seq<Client>, added: nat)
    requires |before| == |after| && forall i :: 0 <= i < |before| ==> before[i].id == after[i].id
    ensures ClientIdsRise(before, added) ==> ClientIdsRise(after, added)
  {
  }
}
