/** The list of shared files: a linked list that allocates ids. */
module SharedFileLists {
  import opened Bytes
  import opened LinkedLists
  import opened Records

  class SharedFileList {
    const list: LinkedList<SharedFile>
    var nextFileId: uint32
    /** How many files were ever added. */
    ghost var added: nat

    ghost function Files(): seq<SharedFile>
      reads this, list, list.nodes
    {
      list.Contents()
    }

    /** Until 2^32 files were added, ids rise along the list. */
    ghost predicate Valid()
      reads this, list, list.nodes
    {
      && list.Valid()
      && nextFileId == added % TWO_TO_THE_32
      && (added <= TWO_TO_THE_32 ==> FileIdsRise(Files(), added))
    }

    constructor ()
      ensures Valid() && fresh(list) && Files() == [] && added == 0
    {
      list := new LinkedList();
      nextFileId, added := 0, 0;
    }

    /** Appends a file with the next id; `memory` is what the other fields of the new element hold. */
    method Add(memory: SharedFile) returns (node: Node<SharedFile>)
      requires Valid()
      modifies this, list, list.nodes
      ensures Valid() && fresh(node) && list.nodes == old(list.nodes) + [node]
      ensures added == old(added) + 1
      ensures Files() == old(Files()) + [memory.(id := old(nextFileId))]
    {
      hide FileIdsRise, list.Contents;
      ghost var fs := Files();
      node := list.Add(memory.(id := nextFileId));
      nextFileId := (nextFileId + 1) % TWO_TO_THE_32;
      added := added + 1;
      if added <= TWO_TO_THE_32 {
        AddFileKeepsIds(fs, added - 1, Files()[|fs|]);
      }
    }

    /** The id of the next file to be added: until the ids wrap around, above that of every listed file. */
    method GetNextId() returns (id: uint32)
      requires Valid()
      ensures id == added % TWO_TO_THE_32
      ensures added < TWO_TO_THE_32 ==> forall f :: f in Files() ==> f.id < id
    {
      id := nextFileId;
    }

    /** Writes through the pointer to an element; its id stays. */
    method Update(node: Node<SharedFile>, ghost k: nat, value: SharedFile)
      requires Valid() && k < |list.nodes| && node == list.nodes[k] && value.id == node.data.id
      modifies node
      ensures Valid() && Files() == old(Files())[k := value]
    {
      hide FileIdsRise, list.Contents;
      ghost var before := Files();
      node.data := value;
      assert list.Valid() && Files() == before[k := value];
      SameIdsRise(before, Files(), added);
    }

    method FindById(id: uint32) returns (node: Node?<SharedFile>)
      requires list.Valid()
      ensures node == list.NodeAt(FileIndex(Files(), id))
    {
      ghost var k := 0;
      ghost var fs := Files();
      var it := new Iterator(list);
      node := it.Next();
      while node != null && node.data.id != id
        invariant k <= |fs| && node == list.NodeAt(k) && it.current == list.NodeAt(if node == null then k else k + 1)
        invariant forall j :: 0 <= j < k ==> fs[j].id != id
        decreases |fs| - k
      {
        k := k + 1;
        node := it.Next();
      }
    }

    method FindByName(name: CString) returns (node: Node?<SharedFile>)
      requires list.Valid()
      ensures node == list.NodeAt(NameIndex(Files(), name))
    {
      ghost var k := 0;
      ghost var fs := Files();
      var it := new Iterator(list);
      node := it.Next();
      while node != null && node.data.name != name
        invariant k <= |fs| && node == list.NodeAt(k) && it.current == list.NodeAt(if node == null then k else k + 1)
        invariant forall j :: 0 <= j < k ==> fs[j].name != name
        decreases |fs| - k
      {
        k := k + 1;
        node := it.Next();
      }
    }

    method CountName(name: CString) returns (count: nat)
      requires list.Valid()
      ensures count == NameCount(Files(), name)
    {
      hide list.Contents, NameCount;
      ghost var k := 0;
      ghost var fs := Files();
      var it := new Iterator(list);
      count := 0;
      var node := it.Next();
      CountStep(fs, name, 0);
      while node != null
        invariant k <= |fs| && node == list.NodeAt(k) && it.current == list.NodeAt(if node == null then k else k + 1)
        invariant NameCount(fs, name) == count + NameCount(fs[k..], name)
        decreases |fs| - k
      {
        CountStep(fs, name, k);
        if node.data.name == name {
          count := count + 1;
        }
        k := k + 1;
        node := it.Next();
      }
      CountStep(fs, name, k);
    }

    /** The loop of Remove: counts elements up to the first with the given id. */
    method CountTo(id: uint32) returns (i: nat)
      requires list.Valid()
      ensures i == FileIndex(Files(), id)
    {
      hide list.Contents;
      ghost var fs := Files();
      i := 0;
      var it := new Iterator(list);
      var node := it.Next();
      while node != null && node.data.id != id
        invariant i <= |fs| && node == list.NodeAt(i) && it.current == list.NodeAt(if node == null then i else i + 1)
        invariant forall j :: 0 <= j < i ==> fs[j].id != id
        decreases |fs| - i
      {
        i := i + 1;
        node := it.Next();
      }
    }

    method Remove(id: uint32) returns (found: bool)
      requires Valid()
      modifies this, list, list.nodes
      ensures Valid() && added == old(added)
      ensures list.nodes == Without(old(list.nodes), FileIndex(old(Files()), id))
      ensures found == (FileIndex(old(Files()), id) < |old(Files())|)
      ensures Files() == RemoveFileById(old(Files()), id)
      ensures forall n :: n in old(list.nodes) ==> n.data == old(n.data)
    {
      hide FileIdsRise, FileIndex, list.Contents, list.Valid;
      ghost var fs := Files();
      var i := CountTo(id);
      found := list.Remove(i);
      if added <= TWO_TO_THE_32 {
        RemoveFileKeepsIds(fs, added, id);
      }
    }
  }

  lemma CountStep(fs: seq<SharedFile>, name: CString, k: nat)
    requires k <= |fs|
    ensures fs[0..] == fs
    ensures NameCount(fs[k..], name)
         == if k == |fs| then 0 else (if fs[k].name == name then 1 else 0) + NameCount(fs[k + 1..], name)
  {
    if k < |fs| {
      assert fs[k..][1..] == fs[k + 1..];
    }
  }

  lemma SameIdsRise(before: seq<SharedFile>, after: seq<SharedFile>, added: nat)
    requires |before| == |after| && forall i :: 0 <= i < |before| ==> before[i].id == after[i].id
    ensures FileIdsRise(before, added) ==> FileIdsRise(after, added)
  {
  }
}
