/** What the ranked heap computes, on values: a binary tree whose nodes carry the stored
    subtree size.  Every operation is proved to be an operation on the bag of ranked items. */
module HeapTree {
  import opened Common

  /** A client object: its address and its rank. */
  datatype Rankable = Rankable(id: nat, rank: int)

  datatype Tree = Empty | Node(left: Tree, right: Tree, size: int, data: Rankable)

  predicate OutRanks(a: Rankable, b: Rankable) {
    a.rank > b.rank
  }

  ghost function Bag(t: Tree): multiset<Rankable> {
    match t
    case Empty => multiset{}
    case Node(l, r, _, d) => Bag(l) + Bag(r) + multiset{d}
  }

  /** The stored size of a subtree, 0 for a null pointer. */
  function Size(t: Tree): int {
    if t.Empty? then 0 else t.size
  }

  /** The source's own consistency check of a subtree. */
  predicate CheckNodes(t: Tree)
    requires t.Node?
  {
    && (t.left.Node? ==> !OutRanks(t.left.data, t.data) && CheckNodes(t.left))
    && (t.right.Node? ==> !OutRanks(t.right.data, t.data) && CheckNodes(t.right))
    && t.size - Size(t.left) - Size(t.right) == 1
  }

  predicate CheckTree(t: Tree) {
    t.Empty? || CheckNodes(t)
  }

  /** What the check is for: sizes count nodes and no node is outranked inside its subtree. */
  ghost predicate RankedAndSized(t: Tree) {
    t.Node? ==>
      && (forall y :: y in Bag(t) ==> !OutRanks(y, t.data))
      && t.size == |Bag(t)|
      && RankedAndSized(t.left) && RankedAndSized(t.right)
  }

  /** At every node the left subtree has as many nodes as the right one, or one more. */
  predicate Balanced(t: Tree) {
    t.Node? ==>
      && Size(t.right) <= Size(t.left) <= Size(t.right) + 1
      && Balanced(t.left) && Balanced(t.right)
  }

  function Height(t: Tree): nat {
    if t.Empty? then 0
    else 1 + if Height(t.left) > Height(t.right) then Height(t.left) else Height(t.right)
  }

  function Pow2(n: nat): nat {
    if n == 0 then 1 else 2 * Pow2(n - 1)
  }

  // ---------------------------------------------------------------- operations

  /** A new item goes left if there is no left subtree, or if both exist and left is no larger. */
  predicate PushesLeft(t: Tree)
    requires t.Node?
  {
    t.left.Empty? || (t.right.Node? && t.left.size <= t.right.size)
  }

  function Push(t: Tree, x: Rankable): Tree {
    match t
    case Empty => Node(Empty, Empty, 1, x)
    case Node(l, r, n, d) =>
      var high := if OutRanks(x, d) then x else d;
      var low := if OutRanks(x, d) then d else x;
      if PushesLeft(t) then Node(Push(l, low), r, n + 1, high) else Node(l, Push(r, low), n + 1, high)
  }

  /** Whether popping continues into the right subtree. */
  predicate PopsRight(t: Tree)
    requires t.Node? && !(t.left.Empty? && t.right.Empty?)
  {
    t.left.Empty? || (t.right.Node? && !OutRanks(t.left.data, t.right.data))
  }

  function Pop(t: Tree): Tree
    requires t.Node?
  {
    if t.left.Empty? && t.right.Empty? then Empty
    else if PopsRight(t) then Node(t.left, Pop(t.right), t.size - 1, t.right.data)
    else Node(Pop(t.left), t.right, t.size - 1, t.left.data)
  }

  /** The new top comes from the child that is ranked higher, and from the right one if neither is; the
      other subtree stays as it is. */
  lemma PopTakesHigherChild(t: Tree)
    requires t.Node? && t.left.Node? && t.right.Node?
    ensures Pop(t).Node?
    ensures if t.left.data.rank > t.right.data.rank
            then Pop(t).data == t.left.data && Pop(t).left == Pop(t.left) && Pop(t).right == t.right
            else Pop(t).data == t.right.data && Pop(t).right == Pop(t.right) && Pop(t).left == t.left
  {}

  /** Removal by identity; None when the item is not found. */
  function Remove(t: Tree, x: Rankable): Option<Tree> {
    match t
    case Empty => None
    case Node(l, r, n, d) =>
      if x == d then Some(Pop(t))
      else if OutRanks(x, d) then None
      else
        match Remove(l, x)
        case Some(l') => Some(Node(l', r, n - 1, d))
        case None =>
          match Remove(r, x)
          case Some(r') => Some(Node(l, r', n - 1, d))
          case None => None
  }

  // ---------------------------------------------------------------- the check means what it should

  lemma {:induction false} CheckedIsRankedAndSized(t: Tree)
    requires CheckTree(t)
    ensures RankedAndSized(t)
  {
    if t.Node? {
      CheckedIsRankedAndSized(t.left);
      CheckedIsRankedAndSized(t.right);
    }
  }

  lemma {:induction false} RankedAndSizedIsChecked(t: Tree)
    requires RankedAndSized(t)
    ensures CheckTree(t)
  {
    if t.Node? {
      RankedAndSizedIsChecked(t.left);
      RankedAndSizedIsChecked(t.right);
      assert t.left.Node? ==> t.left.data in Bag(t.left) && t.left.data in Bag(t);
      assert t.right.Node? ==> t.right.data in Bag(t.right) && t.right.data in Bag(t);
    }
  }

  lemma CheckIffRankedAndSized(t: Tree)
    ensures CheckTree(t) <==> RankedAndSized(t)
  {
    if CheckTree(t) { CheckedIsRankedAndSized(t); }
    if RankedAndSized(t) { RankedAndSizedIsChecked(t); }
  }

  // ---------------------------------------------------------------- each operation on the bag

  lemma {:induction false} PushChecks(t: Tree, x: Rankable)
    requires CheckTree(t)
    ensures CheckNodes(Push(t, x))
    ensures Push(t, x).data == if t.Empty? || OutRanks(x, t.data) then x else t.data
    ensures Push(t, x).size == Size(t) + 1
  {
    if t.Node? {
      var low := if OutRanks(x, t.data) then t.data else x;
      if PushesLeft(t) { PushChecks(t.left, low); } else { PushChecks(t.right, low); }
    }
  }

  lemma {:induction false} PushAddsOne(t: Tree, x: Rankable)
    ensures Bag(Push(t, x)) == Bag(t) + multiset{x}
  {
    if t.Node? {
      var low := if OutRanks(x, t.data) then t.data else x;
      if PushesLeft(t) { PushAddsOne(t.left, low); } else { PushAddsOne(t.right, low); }
    }
  }

  lemma {:induction false} PushBalances(t: Tree, x: Rankable)
    requires CheckTree(t) && Balanced(t)
    ensures Balanced(Push(t, x))
  {
    if t.Node? {
      var low := if OutRanks(x, t.data) then t.data else x;
      SizePositive(t.left);
      SizePositive(t.right);
      if PushesLeft(t) {
        PushBalances(t.left, low);
        PushChecks(t.left, low);
      } else {
        PushBalances(t.right, low);
        PushChecks(t.right, low);
      }
    }
  }

  lemma {:induction false} PopChecks(t: Tree)
    requires t.Node? && CheckNodes(t)
    ensures CheckTree(Pop(t))
    ensures Pop(t).Node? ==> !OutRanks(Pop(t).data, t.data)
    ensures Size(Pop(t)) == t.size - 1
  {
    if !(t.left.Empty? && t.right.Empty?) {
      if PopsRight(t) { PopChecks(t.right); } else { PopChecks(t.left); }
    }
  }

  lemma {:induction false} PopTakesTop(t: Tree)
    requires t.Node?
    ensures Bag(t) == Bag(Pop(t)) + multiset{t.data}
  {
    if !(t.left.Empty? && t.right.Empty?) {
      if PopsRight(t) { PopTakesTop(t.right); } else { PopTakesTop(t.left); }
    }
  }

  lemma TopIsHighest(t: Tree, y: Rankable)
    requires t.Node? && CheckNodes(t) && y in Bag(t)
    ensures !OutRanks(y, t.data)
  {
    CheckedIsRankedAndSized(t);
  }

  /** Pruning by rank loses nothing: removal succeeds exactly for the items that are present. */
  lemma {:induction false} RemoveIsComplete(t: Tree, x: Rankable)
    requires CheckTree(t)
    ensures Remove(t, x).Some? <==> x in Bag(t)
  {
    if t.Node? {
      CheckedIsRankedAndSized(t);
      RemoveIsComplete(t.left, x);
      RemoveIsComplete(t.right, x);
    }
  }

  lemma {:induction false} RemoveTakesOne(t: Tree, x: Rankable)
    requires Remove(t, x).Some?
    ensures Bag(t) == Bag(Remove(t, x).value) + multiset{x}
  {
    if x == t.data {
      PopTakesTop(t);
    } else if Remove(t.left, x).Some? {
      RemoveTakesOne(t.left, x);
    } else {
      RemoveTakesOne(t.right, x);
    }
  }

  lemma {:induction false} RemoveChecks(t: Tree, x: Rankable)
    requires CheckTree(t) && Remove(t, x).Some?
    ensures var t' := Remove(t, x).value;
            && CheckTree(t')
            && Size(t') == t.size - 1
            && (t'.Node? ==> !OutRanks(t'.data, t.data))
            && (x != t.data ==> t'.Node? && t'.data == t.data)
  {
    if x == t.data {
      PopChecks(t);
    } else if Remove(t.left, x).Some? {
      RemoveChecks(t.left, x);
    } else {
      RemoveChecks(t.right, x);
    }
  }

  // ---------------------------------------------------------------- shape of a push-only heap

  lemma {:induction false} BalancedIsShallow(t: Tree)
    requires CheckTree(t) && Balanced(t) && t.Node?
    ensures Pow2(Height(t) - 1) <= t.size
    ensures t.size < Pow2(Height(t))
  {
    if t.left.Node? { BalancedIsShallow(t.left); }
    if t.right.Node? {
      BalancedIsShallow(t.right);
      HeightMonotone(t.left, t.right);
    }
  }

  /** Of two balanced heaps the one with more nodes is at least as high. */
  lemma {:induction false} HeightMonotone(a: Tree, b: Tree)
    requires CheckTree(a) && Balanced(a) && CheckTree(b) && Balanced(b)
    requires Size(b) <= Size(a)
    ensures Height(b) <= Height(a)
  {
    if b.Node? {
      SizePositive(b.left);
      SizePositive(b.right);
      HeightMonotone(a.left, b.left);
      HeightMonotone(a.right, b.right);
    }
  }

  lemma SizePositive(t: Tree)
    requires CheckTree(t)
    ensures Size(t) >= 0 && (t.Node? ==> Size(t) >= 1)
  {
    CheckedIsRankedAndSized(t);
    assert t.Node? ==> t.data in Bag(t);
  }

  function PushAll(xs: seq<Rankable>): Tree {
    if xs == [] then Empty else Push(PushAll(xs[..|xs| - 1]), xs[|xs| - 1])
  }

  /** A heap of n items built by pushes alone has height h with 2^(h-1) <= n < 2^h. */
  lemma {:induction false} PushOnlyHeapIsShallow(xs: seq<Rankable>)
    ensures CheckTree(PushAll(xs)) && Balanced(PushAll(xs))
    ensures Bag(PushAll(xs)) == multiset(xs)
    ensures xs != [] ==> Pow2(Height(PushAll(xs)) - 1) <= |xs| < Pow2(Height(PushAll(xs)))
  {
    if xs != [] {
      var rest := xs[..|xs| - 1];
      assert xs == rest + [xs[|xs| - 1]];
      PushOnlyHeapIsShallow(rest);
      PushAddsOne(PushAll(rest), xs[|xs| - 1]);
      PushChecks(PushAll(rest), xs[|xs| - 1]);
      PushBalances(PushAll(rest), xs[|xs| - 1]);
      CheckedIsRankedAndSized(PushAll(xs));
      BalancedIsShallow(PushAll(xs));
    }
  }

  // ---------------------------------------------------------------- every run refines a bag

  datatype Op = PushOp(x: Rankable) | PopOp | RemoveOp(x: Rankable)

  /** One heap operation: the new tree and the item handed back. */
  function Apply(t: Tree, op: Op): (Tree, Option<Rankable>) {
    match op
    case PushOp(x) => (Push(t, x), None)
    case PopOp => if t.Empty? then (t, None) else (Pop(t), Some(t.data))
    case RemoveOp(x) =>
      match Remove(t, x)
      case None => (t, None)
      case Some(t') => (t', Some(x))
  }

  function Run(t: Tree, ops: seq<Op>): (Tree, seq<Option<Rankable>>)
    decreases ops
  {
    if ops == [] then (t, [])
    else
      var (t', r) := Apply(t, ops[0]);
      var (t'', rs) := Run(t', ops[1..]);
      (t'', [r] + rs)
  }

  /** May a bag of ranked items answer `op` with `r`? */
  ghost predicate BagAllows(bag: multiset<Rankable>, op: Op, r: Option<Rankable>) {
    match op
    case PushOp(_) => r == None
    case PopOp =>
      if r == None then bag == multiset{}
      else r.value in bag && forall y :: y in bag ==> !OutRanks(y, r.value)
    case RemoveOp(x) => r == if x in bag then Some(x) else None
  }

  ghost function BagAfter(bag: multiset<Rankable>, op: Op, r: Option<Rankable>): multiset<Rankable> {
    if op.PushOp? then bag + multiset{op.x} else if r == None then bag else bag - multiset{r.value}
  }

  ghost predicate BagRun(bag: multiset<Rankable>, ops: seq<Op>, rs: seq<Option<Rankable>>, last: multiset<Rankable>)
    decreases ops
  {
    |rs| == |ops| &&
    if ops == [] then last == bag
    else BagAllows(bag, ops[0], rs[0]) && BagRun(BagAfter(bag, ops[0], rs[0]), ops[1..], rs[1..], last)
  }

  lemma PopRefinesBag(t: Tree)
    requires t.Node? && CheckNodes(t)
    ensures CheckTree(Pop(t)) && Bag(Pop(t)) == Bag(t) - multiset{t.data}
    ensures t.data in Bag(t) && forall y :: y in Bag(t) ==> !OutRanks(y, t.data)
  {
    PopTakesTop(t);
    PopChecks(t);
    CheckedIsRankedAndSized(t);
  }

  lemma RemoveRefinesBag(t: Tree, x: Rankable)
    requires CheckTree(t)
    ensures if x in Bag(t)
            then Remove(t, x).Some? && CheckTree(Remove(t, x).value) && Bag(Remove(t, x).value) == Bag(t) - multiset{x}
            else Remove(t, x) == None
  {
    RemoveIsComplete(t, x);
    if x in Bag(t) {
      RemoveTakesOne(t, x);
      RemoveChecks(t, x);
    }
  }

  lemma ApplyRefinesBag(t: Tree, op: Op)
    requires CheckTree(t)
    ensures var (t', r) := Apply(t, op);
            CheckTree(t') && BagAllows(Bag(t), op, r) && Bag(t') == BagAfter(Bag(t), op, r)
  {
    match op
    case PushOp(x) =>
      PushAddsOne(t, x);
      PushChecks(t, x);
    case PopOp =>
      if t.Node? { PopRefinesBag(t); }
    case RemoveOp(x) =>
      RemoveRefinesBag(t, x);
  }

  /** Whatever the sequence of operations, the heap answers as a bag of ranked items would. */
  lemma {:induction false} RunRefinesBag(t: Tree, ops: seq<Op>)
    requires CheckTree(t)
    ensures var (t', rs) := Run(t, ops); CheckTree(t') && BagRun(Bag(t), ops, rs, Bag(t'))
    decreases ops
  {
    if ops != [] {
      ApplyRefinesBag(t, ops[0]);
      RunRefinesBag(Apply(t, ops[0]).0, ops[1..]);
    }
  }
}
