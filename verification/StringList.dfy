/** Lists of owned strings, on top of the linked list. */
module StringLists {
  import opened Bytes
  import opened LinkedLists

  class StringList {
    const list: LinkedList<CString>
    ghost var Repr: set<object>

    ghost predicate Valid()
      reads this, Repr
      ensures Valid() ==> this in Repr && list in Repr
    {
      && this in Repr && list in Repr && (forall n :: n in list.nodes ==> n in Repr)
      && list.Valid()
    }

    ghost function Strings(): (s: seq<CString>)
      requires Valid()
      reads this, Repr
      ensures |s| == |list.nodes|
    {
      list.Contents()
    }

    constructor ()
      ensures Valid() && fresh(Repr) && Strings() == []
    {
      list := new LinkedList<CString>();
      new;
      Repr := {this, list};
    }

    /** Appends a copy of the string. */
    method Add(s: CString)
      requires Valid()
      modifies Repr
      ensures Valid() && fresh(Repr - old(Repr)) && old(Repr) <= Repr
      ensures Strings() == old(Strings()) + [s]
    {
      var node := list.Add(s);
      Repr := Repr + {node};
    }
  }

  class StringListIterator {
    const it: Iterator<CString>

    constructor (list: StringList)
      requires list.Valid()
      ensures fresh(it) && it.current == list.list.NodeAt(0)
    {
      it := new Iterator(list.list);
    }

    /** The string at index `k`, where the iterator stands; None at the end, and from then on. */
    method Next(ghost list: StringList, ghost k: nat) returns (s: Option<CString>)
      requires list.Valid() && k <= |list.Strings()| && it.current == list.list.NodeAt(k)
      modifies it
      ensures s == if k < |list.Strings()| then Some(list.Strings()[k]) else None
      ensures it.current == list.list.NodeAt(if k < |list.Strings()| then k + 1 else k)
    {
      var node := it.Next();
      s := if node == null then None else Some(node.data);
    }
  }
}
