/** The heap as linked nodes.  Each method changes the nodes exactly as the tree operation
    of `HeapTree` of the same name changes the tree they form. */
module LocHeap {
  import opened Common
  import opened HeapTree

  class LocHeapNode {
    var mSize: int
    var mLeft: LocHeapNode?
    var mRight: LocHeapNode?
    var mData: Rankable
    ghost var tree: Tree
    ghost var repr: set<LocHeapNode>

    ghost predicate Valid()
      reads this, repr
      decreases repr
    {
      && Linked()
      && (mLeft != null ==> mLeft.Valid())
      && (mRight != null ==> mRight.Valid())
      && tree == Node(TreeOf(mLeft), TreeOf(mRight), mSize, mData)
    }

    /** The subtrees lie inside this node's footprint and apart from each other. */
    ghost predicate Linked()
      reads this, repr
    {
      && this in repr
      && (mLeft != null ==> mLeft in repr && mLeft.repr <= repr && this !in mLeft.repr)
      && (mRight != null ==> mRight in repr && mRight.repr <= repr && this !in mRight.repr)
      && (mLeft != null && mRight != null ==> mLeft.repr !! mRight.repr)
    }

    ghost predicate ChildrenValid()
      reads this, repr
    {
      Linked() && (mLeft != null ==> mLeft.Valid()) && (mRight != null ==> mRight.Valid())
    }

    static ghost function TreeOf(node: LocHeapNode?): Tree
      reads node
    {
      if node == null then Empty else node.tree
    }

    constructor (data: Rankable)
      ensures Valid() && fresh(repr) && tree == Push(Empty, data) && repr == {this} && mData == data
      ensures mLeft == null && mRight == null
    {
      mSize := 1;
      mLeft := null;
      mRight := null;
      mData := data;
      tree := Node(Empty, Empty, 1, data);
      repr := {this};
    }

    /** Swaps the data of two nodes; the links stay. */
    method Swap(node: LocHeapNode)
      modifies this`mData, this`tree, node`mData, node`tree
      requires node.tree.Node?
      ensures mData == old(node.mData) && node.mData == old(mData)
      ensures node != this ==> tree == old(tree) && node.tree == old(node.tree).(data := node.mData)
    {
      var tmpData := node.mData;
      node.mData := mData;
      mData := tmpData;
      node.tree := node.tree.(data := node.mData);
    }

    /** Records the tree and footprint formed after a subtree has changed. */
    ghost method Refresh(newRepr: set<LocHeapNode>)
      requires this in newRepr
      requires mLeft != null ==> mLeft in newRepr && mLeft.repr <= newRepr && this !in mLeft.repr && mLeft.Valid()
      requires mRight != null ==> mRight in newRepr && mRight.repr <= newRepr && this !in mRight.repr && mRight.Valid()
      requires mLeft != null && mRight != null ==> mLeft.repr !! mRight.repr
      modifies this`tree, this`repr
      ensures Valid() && repr == newRepr && tree == Node(TreeOf(mLeft), TreeOf(mRight), mSize, mData)
    {
      repr := newRepr;
      tree := Node(TreeOf(mLeft), TreeOf(mRight), mSize, mData);
    }

    /** Drops the single node `node` into this subtree. */
    method PushNode(node: LocHeapNode)
      requires Valid() && node !in repr
      requires node.Valid() && node.repr == {node} && node.tree == Push(Empty, node.mData)
      modifies repr, node
      ensures Valid() && repr == old(repr) + {node}
      ensures tree == Push(old(tree), old(node.mData))
      decreases repr, 1
    {
      if node.mData.rank > mData.rank {
        Swap(node);
      }
      if mLeft == null {
        mLeft := node;
        mSize := mSize + 1;
        Refresh(repr + {node});
      } else if mRight == null {
        mRight := node;
        mSize := mSize + 1;
        Refresh(repr + {node});
      } else {
        PushInto(mLeft.mSize > mRight.mSize, node);
      }
    }

    /** Drops `node` into the chosen subtree. */
    method PushInto(right: bool, node: LocHeapNode)
      requires ChildrenValid() && mLeft != null && mRight != null && node !in repr
      requires node.Valid() && node.repr == {node} && node.tree == Push(Empty, node.mData)
      modifies repr, node
      ensures Valid() && repr == old(repr) + {node}
      ensures tree == if right
                      then Node(old(mLeft.tree), Push(old(mRight.tree), old(node.mData)), old(mSize) + 1, old(mData))
                      else Node(Push(old(mLeft.tree), old(node.mData)), old(mRight.tree), old(mSize) + 1, old(mData))
      decreases repr, 0
    {
      if right {
        mRight.PushNode(node);
      } else {
        mLeft.PushNode(node);
      }
      mSize := mSize + 1;
      Refresh(repr + {node});
    }

    /** Pops the data of `top` out of its subtree; `top'` is what the link to `top` becomes. */
    static method PopNode(top: LocHeapNode) returns (top': LocHeapNode?, popped: LocHeapNode)
      requires top.Valid()
      modifies top.repr
      ensures popped in old(top.repr) && popped.mData == old(top.mData)
      ensures TreeOf(top') == Pop(old(top.tree))
      ensures top' != null ==> top' == top && top.Valid() && popped !in top.repr && top.repr == old(top.repr) - {popped}
      decreases top.repr, 1
    {
      top.mSize := top.mSize - 1;
      if top.mLeft == null && top.mRight == null {
        return null, top;
      }
      top' := top;
      popped := top.PopFrom(top.mLeft == null
                            || (top.mRight != null && !(top.mLeft.mData.rank > top.mRight.mData.rank)));
    }

    /** Takes the data of the chosen subtree's top and pops the old data out of that subtree. */
    method PopFrom(right: bool) returns (popped: LocHeapNode)
      requires ChildrenValid() && (if right then mRight != null else mLeft != null)
      modifies repr
      ensures Valid() && popped in old(repr) && popped !in repr && repr == old(repr) - {popped}
      ensures popped.mData == old(mData)
      ensures old(TreeOf(if right then mRight else mLeft)).Node?
      ensures right ==>
        tree == Node(old(TreeOf(mLeft)), Pop(old(mRight.tree)), old(mSize), old(mRight.tree.data))
      ensures !right ==>
        tree == Node(Pop(old(mLeft.tree)), old(TreeOf(mRight)), old(mSize), old(mLeft.tree.data))
      decreases repr, 0
    {
      var sub := if right then mRight else mLeft;
      Swap(sub);
      var sub': LocHeapNode?;
      sub', popped := PopNode(sub);
      if right {
        mRight := sub';
      } else {
        mLeft := sub';
      }
      Refresh(repr - {popped});
    }

    /** Removes `data` by identity; `removed` is null, and nothing changes, when it is not found. */
    static method RemoveNode(top: LocHeapNode, data: Rankable)
      returns (top': LocHeapNode?, removed: LocHeapNode?)
      requires top.Valid()
      modifies top.repr
      ensures removed == null ==> Remove(old(top.tree), data) == None && top' == top && top.tree == old(top.tree)
      ensures removed != null ==> Remove(old(top.tree), data) == Some(TreeOf(top'))
      ensures removed != null ==> removed in old(top.repr) && removed.mData == data
      ensures top' != null ==>
        top' == top && top.Valid() && removed !in top.repr && top.repr == old(top.repr) - {removed}
      decreases top.repr, 1
    {
      top', removed := top, null;
      if data == top.mData {
        top', removed := PopNode(top);
      } else if !(data.rank > top.mData.rank) {
        if top.mLeft != null {
          removed := top.RemoveFrom(false, data);
        }
        if removed == null && top.mRight != null {
          removed := top.RemoveFrom(true, data);
        }
        if removed != null {
          top.mSize := top.mSize - 1;
          top.Refresh(top.repr);
        }
      }
    }

    /** Looks for `data` in one subtree and relinks what is left of it. */
    method RemoveFrom(right: bool, data: Rankable) returns (removed: LocHeapNode?)
      requires Valid() && (if right then mRight != null else mLeft != null)
      modifies repr
      ensures Valid() && removed !in repr && repr == old(repr) - {removed}
      ensures removed == null ==> tree == old(tree)
      ensures removed == null ==> Remove(old(if right then tree.right else tree.left), data) == None
      ensures removed != null ==> removed in old(repr) && removed.mData == data
      ensures removed != null ==>
        var sub := Remove(old(if right then tree.right else tree.left), data);
        sub.Some? && tree == if right then old(tree).(right := sub.value) else old(tree).(left := sub.value)
      ensures mSize == old(mSize)
      decreases repr, 0
    {
      var sub': LocHeapNode?;
      if right {
        sub', removed := RemoveNode(mRight, data);
        mRight := sub';
      } else {
        sub', removed := RemoveNode(mLeft, data);
        mLeft := sub';
      }
      Refresh(repr - {removed});
    }
  }

  class LocHeap {
    var mTree: LocHeapNode?

    ghost function Footprint(): set<LocHeapNode>
      reads this, mTree
    {
      if mTree == null then {} else mTree.repr
    }

    /** The nodes are linked properly and pass the heap's own check. */
    ghost predicate Valid()
      reads this, mTree, Footprint()
    {
      (mTree != null ==> mTree.Valid()) && CheckTree(Contents())
    }

    ghost function Contents(): Tree
      reads this, mTree
    {
      if mTree == null then Empty else mTree.tree
    }

    constructor ()
      ensures Valid() && Contents() == Empty && Footprint() == {}
    {
      mTree := null;
    }

    method PushItem(x: Rankable)
      requires Valid()
      modifies this, Footprint()
      ensures Valid() && fresh(Footprint() - old(Footprint()))
      ensures Contents() == Push(old(Contents()), x)
    {
      PushChecks(Contents(), x);
      var heapNode := new LocHeapNode(x);
      if mTree == null {
        mTree := heapNode;
      } else {
        mTree.PushNode(heapNode);
      }
    }

    method Peek() returns (r: Option<Rankable>)
      requires Valid()
      ensures r.None? <==> Bag(Contents()) == multiset{}
      ensures r.Some? ==> r.value in Bag(Contents())
      ensures r.Some? ==> forall y :: y in Bag(Contents()) ==> !OutRanks(y, r.value)
    {
      CheckedIsRankedAndSized(Contents());
      if mTree == null {
        return None;
      }
      assert mTree.mData in Bag(Contents());
      return Some(mTree.mData);
    }

    method PopItem() returns (r: Option<Rankable>)
      requires Valid()
      modifies this, Footprint()
      ensures Valid() && Footprint() <= old(Footprint())
      ensures (Contents(), r) == Apply(old(Contents()), PopOp)
    {
      if mTree == null {
        return None;
      }
      PopChecks(Contents());
      var top', popped := LocHeapNode.PopNode(mTree);
      mTree := top';
      return Some(popped.mData);
    }

    method RemoveItem(x: Rankable) returns (r: Option<Rankable>)
      requires Valid()
      modifies this, Footprint()
      ensures Valid() && Footprint() <= old(Footprint())
      ensures (Contents(), r) == Apply(old(Contents()), RemoveOp(x))
    {
      if mTree == null {
        return None;
      }
      if Remove(Contents(), x).Some? { RemoveChecks(Contents(), x); }
      var top', removed := LocHeapNode.RemoveNode(mTree, x);
      mTree := top';
      return if removed == null then None else Some(removed.mData);
    }
  }
}
