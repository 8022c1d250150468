/**
 * src/server/client_manager.c: the connected clients, newest first, as a singly linked
 * list that is relinked in place and whose records handlers change through pointers.
 */
module Registry {

  /** One Client record; its SSL handle is identified with its descriptor. */
  datatype Conn = Conn(fd: int, uid: nat, username: string, online: bool)

  /** Position of the first record with descriptor fd, |cs| if there is none. */
  function FdIndex(cs: seq<Conn>, fd: int): (i: nat)
    ensures i <= |cs|
    ensures i < |cs| ==> cs[i].fd == fd
    ensures forall j :: 0 <= j < i ==> cs[j].fd != fd
  {
    if cs == [] || cs[0].fd == fd then 0 else
      var i := FdIndex(cs[1..], fd);
      assert forall j :: 0 < j < i + 1 ==> cs[j] == cs[1..][j - 1];
      i + 1
  }

  /** Position of the first online record of uid, |cs| if there is none. */
  function SessionIndex(cs: seq<Conn>, uid: nat): (i: nat)
    ensures i <= |cs|
    ensures i < |cs| ==> cs[i].uid == uid && cs[i].online
    ensures forall j :: 0 <= j < i ==> !(cs[j].uid == uid && cs[j].online)
  {
    if cs == [] || (cs[0].uid == uid && cs[0].online) then 0 else
      var i := SessionIndex(cs[1..], uid);
      assert forall j :: 0 < j < i + 1 ==> cs[j] == cs[1..][j - 1];
      i + 1
  }

  function Drop<T>(s: seq<T>, i: nat): (r: seq<T>)
    requires i < |s|
  {
    s[..i] + s[i + 1..]
  }

  lemma Dropped<T>(s: seq<T>, i: nat)
    requires i < |s|
    ensures |Drop(s, i)| == |s| - 1
    ensures forall j :: 0 <= j < i ==> Drop(s, i)[j] == s[j]
    ensures forall j :: i <= j < |s| - 1 ==> Drop(s, i)[j] == s[j + 1]
    ensures forall x :: x in Drop(s, i) ==> x in s
  {
  }

  /** The list without the first record of the descriptor, all others in their order. */
  function Removed(cs: seq<Conn>, fd: int): (r: seq<Conn>)
    ensures var i := FdIndex(cs, fd);
            if i == |cs| then r == cs
            else |r| == |cs| - 1 && forall j :: 0 <= j < |r| ==> r[j] == cs[if j < i then j else j + 1]
  {
    var i := FdIndex(cs, fd);
    if i == |cs| then cs else Drop(cs, i)
  }

  class ClientNode {
    var data: Conn
    var next: ClientNode?

    constructor (data: Conn, next: ClientNode?)
      ensures this.data == data && this.next == next
    {
      this.data, this.next := data, next;
    }
  }

  ghost function Nth(ns: seq<ClientNode>, i: int): ClientNode? {
    if 0 <= i < |ns| then ns[i] else null
  }

  ghost predicate Distinct(ns: seq<ClientNode>) {
    forall i, j :: 0 <= i < j < |ns| ==> ns[i] != ns[j]
  }

  lemma DistinctDropped(ns: seq<ClientNode>, i: nat)
    requires i < |ns| && Distinct(ns)
    ensures Distinct(Drop(ns, i))
  {
    Dropped(ns, i);
  }

  /** Every node's link leads to the next node of ns, and the last one's nowhere. */
  ghost predicate Linked(ns: seq<ClientNode>)
    reads ns
  {
    forall i :: 0 <= i < |ns| ==> ns[i].next == Nth(ns, i + 1)
  }

  class ClientList {
    var head: ClientNode?
    /** The nodes in list order, and the records they hold. */
    ghost var nodes: seq<ClientNode>
    ghost var view: seq<Conn>

    /** The links run through `nodes` and end, and no node occurs twice: no cycle. */
    ghost predicate Valid()
      reads this, nodes
    {
      && head == Nth(nodes, 0) && Distinct(nodes) && Linked(nodes)
      && |view| == |nodes| && forall i :: 0 <= i < |nodes| ==> nodes[i].data == view[i]
    }

    ghost function Repr(): set<ClientNode>
      reads this
    {
      set n | n in nodes
    }

    /** init_clients. */
    constructor ()
      ensures Valid() && view == [] && nodes == []
    {
      head, nodes, view := null, [], [];
    }

    /** add_client. */
    method Add(fd: int)
      requires Valid()
      modifies this
      ensures Valid() && view == [Conn(fd, 0, "", false)] + old(view)
      ensures |nodes| == |old(nodes)| + 1 && fresh(nodes[0]) && nodes[1..] == old(nodes)
    {
      var node := new ClientNode(Conn(fd, 0, "", false), head);
      head := node;
      nodes := [node] + nodes;
      view := [node.data] + view;
    }

    /** remove_client: unlinks the first node with the descriptor. */
    method Remove(fd: int)
      requires Valid()
      modifies this, nodes`next
      ensures Valid() && view == Removed(old(view), fd)
      ensures forall n :: n in nodes ==> n in old(nodes)
    {
      ghost var i := FdIndex(view, fd);
      var prev, current := Walk(fd);
      if current != null {
        Unlink(prev, current, i);
        Forget(i);
        Dropped(old(nodes), i);
      }
    }

    /** The walk of remove_client, one node behind itself. */
    method Walk(fd: int) returns (prev: ClientNode?, current: ClientNode?)
      requires Valid()
      ensures current == Nth(nodes, FdIndex(view, fd)) && prev == Nth(nodes, FdIndex(view, fd) - 1)
    {
      current := head;
      prev := null;
      ghost var i := 0;
      while current != null && current.data.fd != fd
        invariant i <= FdIndex(view, fd) && Reached(i, current) && Reached(i - 1, prev)
        decreases |nodes| - i
      {
        NextNode(i, current);
        prev := current;
        current := current.next;
        i := i + 1;
      }
      if current != null {
        NextNode(i, current);
      }
    }

    /** A walk has come to position i. */
    ghost predicate Reached(i: int, c: ClientNode?)
      reads this
    {
      c == Nth(nodes, i)
    }

    /** A link leads to the next position, and the record there is the one in view. */
    lemma NextNode(i: nat, c: ClientNode)
      requires Valid() && Reached(i, c)
      ensures i < |nodes| && Reached(i + 1, c.next) && c.data == view[i]
    {
    }

    /** The links run through `nodes` but lead past position i. */
    ghost predicate Bypassed(i: nat)
      reads this, nodes
    {
      && head == Nth(nodes, if i == 0 then 1 else 0)
      && forall k :: 0 <= k < |nodes| ==> nodes[k].next == Nth(nodes, if k == i - 1 then i + 1 else k + 1)
    }

    /** Relinks around the node at position i, leaving every other link alone. */
    method Unlink(prev: ClientNode?, current: ClientNode, ghost i: nat)
      requires Valid() && i < |nodes| && current == nodes[i]
      requires prev == Nth(nodes, i - 1)
      modifies `head, nodes`next
      ensures Bypassed(i)
      ensures forall k :: 0 <= k < |nodes| ==> nodes[k].data == view[k]
    {
      if prev == null {
        head := current.next;
      } else {
        prev.next := current.next;
        assert forall k :: 0 <= k < |nodes| && k != i - 1 ==> nodes[k] != prev;
      }
    }

    /** Position i is no longer in the list. */
    ghost method Forget(i: nat)
      requires Distinct(nodes) && i < |nodes|
      requires Bypassed(i)
      requires |view| == |nodes| && forall k :: 0 <= k < |nodes| ==> nodes[k].data == view[k]
      modifies `nodes, `view
      ensures Valid() && nodes == Drop(old(nodes), i) && view == Drop(old(view), i)
    {
      Dropped(nodes, i);
      Dropped(view, i);
      DistinctDropped(nodes, i);
      nodes, view := Drop(nodes, i), Drop(view, i);
    }

    /** get_client_by_uid. */
    method ByUid(uid: nat) returns (c: ClientNode?)
      requires Valid()
      ensures c == Nth(nodes, SessionIndex(view, uid))
    {
      c := head;
      ghost var i := 0;
      while c != null
        invariant i <= SessionIndex(view, uid) && Reached(i, c)
        decreases |nodes| - i
      {
        NextNode(i, c);
        if c.data.uid == uid && c.data.online {
          return;
        }
        c := c.next;
        i := i + 1;
      }
    }

    /** get_client_by_fd. */
    method ByFd(fd: int) returns (c: ClientNode?)
      requires Valid()
      ensures c == Nth(nodes, FdIndex(view, fd))
    {
      c := head;
      ghost var i := 0;
      while c != null
        invariant i <= FdIndex(view, fd) && Reached(i, c)
        decreases |nodes| - i
      {
        NextNode(i, c);
        if c.data.fd == fd {
          return;
        }
        c := c.next;
        i := i + 1;
      }
    }

    /** A handler writing through the pointer it was given. */
    method Rewrite(c: ClientNode, ghost i: nat, data: Conn)
      requires Valid() && Nth(nodes, i) == c
      modifies c`data, `view
      ensures Valid() && view == old(view)[i := data] && c.data == data
    {
      c.data := data;
      view := view[i := data];
    }
  }
}
