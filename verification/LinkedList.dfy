/** The doubly linked list of the GPS utilities: elements are added at the head and removed at the
    tail. */
module LinkedList {

  datatype ListError = Success | InvalidParameter | UnavailableResource

  /** Data pointers are numbers; the null pointer is 0. */
  const NULL: nat := 0

  class Element {
    var next: Element?
    var prev: Element?
    var data: nat
    var hasDealloc: bool

    constructor (data: nat, hasDealloc: bool)
      ensures next == null && prev == null && this.data == data && this.hasDealloc == hasDealloc
    {
      next, prev := null, null;
      this.data, this.hasDealloc := data, hasDealloc;
    }
  }

  /** An element's data, and whether it came with a deallocation function. */
  datatype Item = Item(data: nat, hasDealloc: bool)

  /** The data of the items that come with a deallocation function. */
  function Deallocable(s: seq<Item>): seq<nat> {
    if s == [] then [] else (if s[0].hasDealloc then [s[0].data] else []) + Deallocable(s[1..])
  }

  /** Each datum is in it as often as it came with a deallocation function. */
  lemma {:induction false} DeallocableCounts(s: seq<Item>, data: nat)
    ensures multiset(Deallocable(s))[data] == multiset(s)[Item(data, true)]
  {
    if s != [] {
      DeallocableCounts(s[1..], data);
      assert s == [s[0]] + s[1..];
    }
  }

  lemma {:induction false} DeallocableAppends(s: seq<Item>, x: Item)
    ensures Deallocable(s + [x]) == Deallocable(s) + if x.hasDealloc then [x.data] else []
  {
    if s == [] {
      assert s + [x] == [x];
      assert [x][1..] == [];
    } else {
      assert (s + [x])[1..] == s[1..] + [x] && (s + [x])[0] == s[0];
      DeallocableAppends(s[1..], x);
    }
  }

  /** The element at position `i`; beyond the ends, null. */
  function At(s: seq<Element>, i: int): Element? {
    if 0 <= i < |s| then s[i] else null
  }

  lemma AtRemoved(s: seq<Element>, k: nat, i: int)
    requires k < |s|
    ensures At(s[..k] + s[k + 1..], i) == At(s, if i < k then i else i + 1)
  {}

  lemma RemovedDistinct(s: seq<Element>, k: nat)
    requires k < |s| && forall i, j :: 0 <= i < j < |s| ==> s[i] != s[j]
    ensures var r := s[..k] + s[k + 1..]; forall i, j :: 0 <= i < j < |r| ==> r[i] != r[j]
  {
    var r := s[..k] + s[k + 1..];
    forall i, j | 0 <= i < j < |r| ensures r[i] != r[j] {
      assert r[i] == s[if i < k then i else i + 1] && r[j] == s[if j < k then j else j + 1];
    }
  }

  class List {
    var head: Element?
    var tail: Element?
    // the calls of deallocation functions so far
    var dealloced: seq<nat>
    ghost var nodes: seq<Element>
    ghost var items: seq<Item>

    /** The element at position `i` from the head is linked to its neighbours. */
    ghost predicate LinkedAt(i: nat)
      requires i < |nodes|
      reads this`nodes, nodes
    {
      nodes[i].prev == At(nodes, i - 1) && nodes[i].next == At(nodes, i + 1)
    }

    ghost predicate Valid()
      reads this, nodes
    {
      && head == At(nodes, 0) && tail == At(nodes, |nodes| - 1)
      && (forall i, j :: 0 <= i < j < |nodes| ==> nodes[i] != nodes[j])
      && (forall i :: 0 <= i < |nodes| ==> LinkedAt(i))
      && |items| == |nodes|
      && (forall i :: 0 <= i < |nodes| ==> items[i] == Item(nodes[i].data, nodes[i].hasDealloc))
    }

    constructor ()
      ensures Valid() && items == [] && dealloced == [] && nodes == []
    {
      head, tail := null, null;
      dealloced, nodes, items := [], [], [];
    }

    method Empty() returns (empty: bool)
      requires Valid()
      ensures empty == (items == [])
    {
      empty := head == null;
    }

    method Add(data: nat, hasDealloc: bool) returns (err: ListError)
      requires Valid()
      modifies this, nodes
      ensures Valid() && fresh(set n | n in nodes && n !in old(nodes)) && dealloced == old(dealloced)
      ensures err == if data == NULL then InvalidParameter else Success
      ensures items == if data == NULL then old(items) else [Item(data, hasDealloc)] + old(items)
    {
      if data == NULL {
        return InvalidParameter;
      }
      var elem := new Element(data, hasDealloc);
      var tmp := head;
      head := elem;
      head.next := tmp;
      if tmp != null {
        tmp.prev := head;
      } else {
        tail := head;
      }
      nodes := [elem] + nodes;
      items := [Item(data, hasDealloc)] + items;
      forall i | 0 <= i < |nodes| ensures LinkedAt(i) {
        if i > 0 { assert old(LinkedAt(i - 1)) && nodes[i] == old(nodes)[i - 1]; }
      }
      return Success;
    }

    method Remove() returns (err: ListError, data: nat)
      requires Valid()
      modifies this, nodes
      ensures Valid() && fresh(set n | n in nodes && n !in old(nodes)) && dealloced == old(dealloced)
      ensures old(items) == [] ==> err == UnavailableResource && items == []
      ensures old(items) != [] ==>
        err == Success && old(items) == items + [Item(data, old(items)[|old(items)| - 1].hasDealloc)]
    {
      if tail == null {
        return UnavailableResource, NULL;
      }
      assert LinkedAt(|nodes| - 1);
      var tmp := tail;
      tail := tmp.prev;
      if tail != null {
        tail.next := null;
      } else {
        head := tail;
      }
      data := tmp.data;
      nodes := nodes[..|nodes| - 1];
      items := items[..|items| - 1];
      forall i | 0 <= i < |nodes| ensures LinkedAt(i) {
        assert old(LinkedAt(i)) && nodes[i] == old(nodes)[i];
      }
      return Success, data;
    }

    /** Removes all elements, calling their deallocation functions from head to tail. */
    method Flush()
      requires Valid()
      modifies this
      ensures Valid() && items == [] && nodes == []
      ensures dealloced == old(dealloced) + Deallocable(old(items))
    {
      ghost var k := 0;
      assert items[..0] == [];
      while head != null
        invariant 0 <= k <= |nodes| && nodes == old(nodes) && items == old(items)
        invariant head == if k == |nodes| then null else nodes[k]
        invariant dealloced == old(dealloced) + Deallocable(items[..k])
        decreases |nodes| - k
      {
        assert LinkedAt(k);
        var tmp := head.next;
        assert items[..k + 1] == items[..k] + [items[k]];
        DeallocableAppends(items[..k], items[k]);
        if head.hasDealloc {
          dealloced := dealloced + [head.data];
        }
        head := tmp;
        k := k + 1;
      }
      assert items[..k] == items;
      tail := null;
      nodes, items := [], [];
    }

    /** The element at position `i` is linked past position `k`. */
    ghost predicate LinkedPast(i: nat, k: nat)
      requires i < |nodes|
      reads this`nodes, nodes
    {
      && nodes[i].prev == At(nodes, if i == k + 1 then k - 1 else i - 1)
      && nodes[i].next == At(nodes, if i + 1 == k then k + 1 else i + 1)
    }

    /** Links the neighbours of `elem`, the element at position `k`, to each other. */
    method Bypass(elem: Element, ghost k: nat)
      requires Valid() && k < |nodes| && nodes[k] == elem
      modifies this`head, this`tail, nodes`next, nodes`prev
      ensures head == At(nodes, if k == 0 then 1 else 0)
      ensures tail == At(nodes, if k == |nodes| - 1 then k - 1 else |nodes| - 1)
      ensures forall i :: 0 <= i < |nodes| && i != k ==> LinkedPast(i, k)
    {
      assert LinkedAt(k);
      if elem.prev == null {
        head := elem.next;
      } else {
        elem.prev.next := elem.next;
      }
      if elem.next == null {
        tail := elem.prev;
      } else {
        elem.next.prev := elem.prev;
      }
      elem.prev, elem.next := null, null;
      forall i | 0 <= i < |nodes| && i != k ensures LinkedPast(i, k) {
        assert old(LinkedAt(i));
      }
    }

    /** Strikes the bypassed element at position `k` out of the list. */
    ghost method StrikeOut(k: nat)
      requires k < |nodes| && |items| == |nodes| && forall i, j :: 0 <= i < j < |nodes| ==> nodes[i] != nodes[j]
      requires forall i :: 0 <= i < |nodes| ==> items[i] == Item(nodes[i].data, nodes[i].hasDealloc)
      requires head == At(nodes, if k == 0 then 1 else 0)
      requires tail == At(nodes, if k == |nodes| - 1 then k - 1 else |nodes| - 1)
      requires forall i :: 0 <= i < |nodes| && i != k ==> LinkedPast(i, k)
      modifies this`nodes, this`items
      ensures Valid()
      ensures nodes == old(nodes)[..k] + old(nodes)[k + 1..]
      ensures items == old(items)[..k] + old(items)[k + 1..]
    {
      ghost var was := nodes;
      nodes := was[..k] + was[k + 1..];
      items := items[..k] + items[k + 1..];
      AtRemoved(was, k, 0);
      AtRemoved(was, k, |nodes| - 1);
      RemovedDistinct(was, k);
      forall i | 0 <= i < |nodes| ensures LinkedAt(i) {
        AtRemoved(was, k, i);
        AtRemoved(was, k, i - 1);
        AtRemoved(was, k, i + 1);
        assert old(LinkedPast(if i < k then i else i + 1, k));
      }
    }

    /** Takes the element at position `k`, which `elem` points to, out of the list. */
    method Unlink(elem: Element, ghost k: nat)
      requires Valid() && k < |nodes| && nodes[k] == elem
      modifies this, nodes
      ensures Valid() && dealloced == old(dealloced)
      ensures nodes == old(nodes)[..k] + old(nodes)[k + 1..]
      ensures items == old(items)[..k] + old(items)[k + 1..]
      ensures elem.data == old(elem.data) && elem.hasDealloc == old(elem.hasDealloc)
    {
      Bypass(elem, k);
      StrikeOut(k);
    }

    /** Searches the list from the head for data that `equal` accepts, and removes the element if
        asked to; the data are handed out through `data` if `wantData`, and deallocated if not. */
    method Search(equal: nat -> bool, wantData: bool, rmIfFound: bool)
      returns (err: ListError, data: nat, ghost at: nat)
      requires Valid()
      modifies this, nodes
      ensures Valid() && at <= |old(items)| && err == if old(items) == [] then UnavailableResource else Success
      ensures forall i :: 0 <= i < at ==> !equal(old(items)[i].data)
      ensures at < |old(items)| ==> equal(old(items)[at].data)
      ensures data == if wantData && at < |old(items)| then old(items)[at].data else NULL
      ensures items == if rmIfFound && at < |old(items)| then old(items)[..at] + old(items)[at + 1..] else old(items)
      ensures fresh(set n | n in nodes && n !in old(nodes))
      ensures dealloced == old(dealloced) +
        if rmIfFound && at < |old(items)| && !wantData && old(items)[at].hasDealloc then [old(items)[at].data] else []
    {
      data, at := NULL, 0;
      if tail == null {
        return UnavailableResource, data, at;
      }
      var tmp := head;
      while tmp != null
        invariant Valid() && unchanged(this) && unchanged(nodes)
        invariant at <= |nodes| && tmp == (if at == |nodes| then null else nodes[at])
        invariant forall i :: 0 <= i < at ==> !equal(items[i].data)
        decreases |nodes| - at
      {
        if equal(tmp.data) {
          break;
        }
        assert LinkedAt(at);
        tmp := tmp.next;
        at := at + 1;
      }
      if tmp != null {
        if wantData {
          data := tmp.data;
        }
        if rmIfFound {
          Unlink(tmp, at);
          if !wantData && tmp.hasDealloc {
            dealloced := dealloced + [tmp.data];
          }
        }
      }
      err := Success;
    }
  }
}
