/** The in-memory B-tree of any degree (archive/btree.go, archive/util.go): heap nodes edited in place. */
module Archive {
  import opened Bytes
  import opened ArchiveTree
  import opened ArchiveSteps

  /** calculateAppropriateIdx */
  method CalculateAppropriateIdx(keys: seq<u16>, k: u16) returns (idx: nat)
    ensures IsIndex(keys, k, idx)
  {
    idx := 0;
    while idx < |keys|
      invariant idx <= |keys| && forall j | 0 <= j < idx :: keys[j] < k
    {
      if k <= keys[idx] {
        return;
      }
      idx := idx + 1;
    }
  }

  /** A well-formed tree on the heap. */
  ghost predicate Sound(s: Shadow, h: nat, t: nat)
    reads Nodes(s)
  {
    Matches(s) && Distinct(s) && Shape(s, h, t) && Ascending(Flat(s))
  }

  lemma KidNodes(s: Shadow, i: nat)
    requires i < |s.kids|
    ensures Nodes(s.kids[i]) <= Nodes(s) && s.kids[i].node in Nodes(s.kids[i])
  {
    hide Bag, KidBag;
    forall x | x in Nodes(s.kids[i])
      ensures x in Nodes(s)
    {
      BagOfKid(s, i, x);
    }
  }

  lemma MatchesIntro(s: Shadow)
    requires s.node.keys == s.keys && s.node.isLeaf == (s.kids == []) && |s.node.children| == |s.kids|
    requires forall i | 0 <= i < |s.kids| :: s.node.children[i] == s.kids[i].node && Matches(s.kids[i])
    ensures Matches(s)
  {
    hide Bag, KidBag, Nodes;
    assert s.node in Nodes(s) by {
      OwnNode(s);
    }
    forall i | 0 <= i < |s.kids|
      ensures Nodes(s.kids[i]) <= Nodes(s)
    {
      KidNodes(s, i);
    }
  }

  lemma OwnNode(s: Shadow)
    ensures s.node in Nodes(s)
  {
  }

  class BTree {
    var root: Node
    const degree: nat

    /** The tree on the heap, and its height. */
    ghost var tree: Shadow
    ghost var height: nat

    ghost predicate Valid()
      reads this, Nodes(tree)
    {
      degree >= 2 && root == tree.node && (height > 0 ==> |tree.keys| >= 1) && Sound(tree, height, degree)
    }

    /** The set the tree stands for. */
    ghost function Contents(): set<u16>
      reads this
    {
      SetOf(Flat(tree))
    }

    /** New */
    constructor (degree: nat)
      requires degree >= 2
      ensures Valid() && fresh(Nodes(tree)) && this.degree == degree && Contents() == {}
    {
      this.degree := degree;
      var r := new Node(true);
      root, tree, height := r, Shadow(r, [], []), 0;
      new;
      MatchesIntro(tree);
      NoKids();
    }

    /** insertInNode */
    method InsertInNode(node: Node, ks: seq<u16>)
      modifies node`keys
      ensures node.keys == Sort(old(node.keys) + ks)
    {
      node.keys := Sort(node.keys + ks);
    }

    /** split: what happens to the fields of the three nodes. */
    method SplitFields(parent: Node, idx: nat) returns (newChild: Node)
      requires idx < |parent.children| && parent != parent.children[idx]
      requires var c := parent.children[idx];
               |c.keys| > 0 && (!c.isLeaf ==> |c.keys| / 2 + 1 <= |c.children|)
      modifies parent, parent.children[idx]
      ensures var c := old(parent.children)[idx];
              var m := |old(c.keys)| / 2;
              && fresh(newChild) && newChild.isLeaf == c.isLeaf
              && parent.keys == Sort(old(parent.keys) + [old(c.keys)[m]])
              && parent.children == old(parent.children)[..idx + 1] + [newChild] + old(parent.children)[idx + 1..]
              && c.keys == old(c.keys)[..m] && newChild.keys == Sort([] + old(c.keys)[m + 1..])
              && (if c.isLeaf then c.children == old(c.children) && newChild.children == []
                  else c.children == old(c.children)[..m + 1] && newChild.children == old(c.children)[m + 1..])
    {
      hide Sort;
      var oldChild := parent.children[idx];
      var median := |oldChild.keys| / 2;
      InsertInNode(parent, [oldChild.keys[median]]);
      newChild := new Node(oldChild.isLeaf);
      InsertInNode(newChild, oldChild.keys[median + 1..]);
      oldChild.keys := oldChild.keys[..median];
      parent.children := parent.children[..idx + 1] + [newChild] + parent.children[idx + 1..];
      if !newChild.isLeaf {
        newChild.children := oldChild.children[median + 1..];
        oldChild.children := oldChild.children[..median + 1];
      }
    }

    /** split child idx of a node */
    method Split(node: Node, idx: nat, ghost s: Shadow, ghost h: nat) returns (newChild: Node)
      requires degree >= 2 && s.node == node && h > 0 && idx < |s.kids| == |s.keys| + 1
      requires |s.keys| < 2 * degree - 1 && |s.kids[idx].keys| == 2 * degree - 1
      requires Sound(s, h, degree)
      modifies node, s.kids[idx].node
      ensures fresh(newChild)
      ensures var u := Spliced(s, idx, LeftPart(s.kids[idx], s.kids[idx].node),
                                  MedianOf(s.kids[idx]), RightPart(s.kids[idx], newChild));
              && Sound(u, h, degree) && Flat(u) == Flat(s)
              && (forall x | x in Nodes(u) :: x in Nodes(s) || x == newChild)
    {
      hide Bag, KidBag, Nodes, Flat, Weave, Sort, Ascending, Distinct, Shape, Matches, Refs, Spliced, LeftPart,
           RightPart;
      ghost var c, t := s.kids[idx], degree;
      KidView(s, idx, h, t);
      assert allocated(Nodes(s));
      newChild := SplitFields(node, idx);
      SplitMatches(s, h, t, idx, newChild);
      SplitDistinct(s, h, t, idx, newChild);
    }

    /** splitRoot */
    method SplitRoot(ghost s: Shadow, ghost h: nat) returns (newRoot: Node, ghost u: Shadow)
      requires degree >= 2 && s.node == root && |s.keys| == 2 * degree - 1
      requires Sound(s, h, degree)
      ensures fresh(newRoot) && u.node == newRoot && |u.keys| == 1
      ensures Sound(u, h + 1, degree) && Flat(u) == Flat(s)
      ensures forall x | x in Nodes(u) :: x in Nodes(s) || fresh(x)
    {
      hide Bag, KidBag, Nodes, Flat, Weave, Ascending, Distinct, Shape, Matches, Refs;
      assert allocated(Nodes(s));
      NodeView(s, h, degree);
      KidsView(s);
      newRoot := new Node(false);
      var median := |root.keys| / 2;
      newRoot.keys := newRoot.keys + [root.keys[median]];
      var left := new Node(root.isLeaf);
      var right := new Node(root.isLeaf);
      left.keys := left.keys + root.keys[..median];
      right.keys := right.keys + root.keys[median + 1..];
      newRoot.children := newRoot.children + [left, right];
      if !root.isLeaf {
        left.children := root.children[..median + 1];
        right.children := root.children[median + 1..];
      }
      PartsMatch(s, h, degree, left, right);
      u := Shadow(newRoot, [MedianOf(s)], [LeftPart(s, left), RightPart(s, right)]);
      MatchesIntro(u);
      RootShape(s, h, degree, newRoot, left, right);
    }

    /** Insert */
    method Insert(k: u16)
      requires Valid()
      modifies this, Nodes(tree)
      ensures Valid() && Contents() == old(Contents()) + {k}
      ensures forall x | x in Nodes(tree) :: x in old(Nodes(tree)) || fresh(x)
    {
      hide Bag, KidBag, Nodes, Flat, Weave, Ascending, Distinct, Shape, Matches, Refs, SetOf;
      assert allocated(Nodes(tree));
      var found := Search(k);
      if found {
        return;
      }
      NodeView(tree, height, degree);
      if |root.keys| == 2 * degree - 1 {
        ghost var u;
        root, u := SplitRoot(tree, height);
        tree, height := u, height + 1;
      }
      tree := InsertInSubtree(root, k, tree, height);
    }

    /** Search: a loop that moves a node pointer down. */
    method Search(k: u16) returns (found: bool)
      requires Valid()
      ensures found == (k in Contents())
    {
      hide Bag, KidBag, Nodes, Flat, Weave, Ascending, Distinct, Shape, Matches, Refs, SetOf;
      var node := root;
      ghost var s, h := tree, height;
      assert allocated(Nodes(s));
      while true
        invariant node == s.node && Sound(s, h, degree) && allocated(Nodes(s))
        invariant k in Contents() <==> k in SetOf(Flat(s))
        decreases h
      {
        NodeView(s, h, degree);
        if k in node.keys {
          KeyIsIn(s, h, degree, k);
          return true;
        }
        if node.isLeaf {
          LeafHolds(s, k);
          return false;
        }
        var idx := CalculateAppropriateIdx(node.keys, k);
        KidView(s, idx, h, degree);
        BelowHolds(s, h, degree, idx, k);
        node := node.children[idx];
        s, h := s.kids[idx], h - 1;
      }
    }

    /** insertInSubtree */
    method InsertInSubtree(node: Node, k: u16, ghost s: Shadow, ghost h: nat) returns (ghost u: Shadow)
      requires degree >= 2 && s.node == node && |s.keys| < 2 * degree - 1 && (h > 0 ==> |s.keys| >= 1)
      requires Sound(s, h, degree) && k !in SetOf(Flat(s))
      modifies Nodes(s)
      ensures u.node == node && |s.keys| <= |u.keys| <= |s.keys| + 1
      ensures Sound(u, h, degree) && SetOf(Flat(u)) == SetOf(Flat(s)) + {k}
      ensures forall x | x in Nodes(u) :: x in Nodes(s) || fresh(x)
      decreases h, 1
    {
      hide Bag, KidBag, Nodes, Flat, Weave, Sort, Ascending, Distinct, Shape, Matches, Refs, LeftPart, RightPart, SetOf;
      assert allocated(Nodes(s));
      NodeView(s, h, degree);
      u := s;
      var idx := CalculateAppropriateIdx(node.keys, k);
      if |node.children| > 0 {
        KidView(s, idx, h, degree);
        if |node.children[idx].keys| == 2 * degree - 1 {
          var newChild := Split(node, idx, s, h);
          u := Spliced(s, idx, LeftPart(s.kids[idx], s.kids[idx].node),
                        MedianOf(s.kids[idx]), RightPart(s.kids[idx], newChild));
          SplitIndex(s, h, degree, idx, newChild, k);
          NodeView(u, h, degree);
        }
      }
      if !node.isLeaf {
        u := DescendToInsert(node, k, u, h);
      } else {
        LeafInserted(s, k, degree);
        InsertInNode(node, [k]);
        u := s.(keys := Sort(s.keys + [k]));
        MatchesIntro(u);
      }
    }

    /** The recursive call of insertInSubtree, on a child that has room. */
    method DescendToInsert(node: Node, k: u16, ghost s: Shadow, ghost h: nat) returns (ghost u: Shadow)
      requires degree >= 2 && s.node == node && h > 0
      requires forall i: nat | IsIndex(s.keys, k, i) :: i < |s.kids| && |s.kids[i].keys| < 2 * degree - 1
      requires Sound(s, h, degree) && k !in SetOf(Flat(s))
      modifies Nodes(s)
      ensures u.node == node && u.keys == s.keys
      ensures Sound(u, h, degree) && SetOf(Flat(u)) == SetOf(Flat(s)) + {k}
      ensures forall x | x in Nodes(u) :: x in Nodes(s) || fresh(x)
      decreases h, 0
    {
      hide Bag, KidBag, Nodes, Flat, Weave, Ascending, Distinct, Shape, Matches, Refs, SetOf;
      assert allocated(Nodes(s));
      NodeView(s, h, degree);
      var idx := CalculateAppropriateIdx(node.keys, k);
      KidView(s, idx, h, degree);
      Absent(s, h, degree, idx, k);
      KidsApart(s, idx);
      ghost var c := InsertInSubtree(node.children[idx], k, s.kids[idx], h - 1);
      u := s.(kids := s.kids[idx := c]);
      KeyAdded(k, Flat(s.kids[idx]), Flat(c));
      DescentFacts(s, h, degree, idx, c, k);
      ReplacedDistinct(s, idx, c, Nodes(s));
      ReplacedMatches(s, idx, c);
    }

    // ---- deletion

    /** preemptiveRightRotate: the fields of the three nodes. */
    method PreemptiveRightRotate(parent: Node, child: Node, idx: nat)
      requires 1 <= idx <= |parent.keys| && idx < |parent.children| && child == parent.children[idx]
      requires var l := parent.children[idx - 1];
               && |l.keys| > 0 && (!l.isLeaf ==> |l.children| > 0) && parent != l && parent != child && l != child
      modifies parent`keys, parent.children[idx - 1], child
      ensures var l := parent.children[idx - 1];
              && parent.keys == old(parent.keys)[idx - 1 := old(l.keys)[|old(l.keys)| - 1]]
              && l.keys == old(l.keys)[..|old(l.keys)| - 1]
              && child.keys == [old(parent.keys)[idx - 1]] + old(child.keys)
              && (if l.isLeaf then l.children == old(l.children) && child.children == old(child.children)
                  else && l.children == old(l.children)[..|old(l.children)| - 1]
                       && child.children == [old(l.children)[|old(l.children)| - 1]] + old(child.children))
    {
      var childLeftSibling := parent.children[idx - 1];
      var keys := childLeftSibling.keys;
      var predecessor := keys[|keys| - 1];
      childLeftSibling.keys := keys[..|keys| - 1];
      var parentKey := parent.keys[idx - 1];
      parent.keys := parent.keys[idx - 1 := predecessor];
      child.keys := [parentKey] + child.keys;
      if !childLeftSibling.isLeaf {
        var danglingGrandChild := childLeftSibling.children[|childLeftSibling.children| - 1];
        child.children := [danglingGrandChild] + child.children;
        childLeftSibling.children := childLeftSibling.children[..|childLeftSibling.children| - 1];
      }
    }

    /** preemptiveLeftRotate */
    method PreemptiveLeftRotate(parent: Node, child: Node, idx: nat)
      requires idx < |parent.keys| && idx + 1 < |parent.children| && child == parent.children[idx]
      requires var r := parent.children[idx + 1];
               && |r.keys| > 0 && (!r.isLeaf ==> |r.children| > 0) && parent != r && parent != child && r != child
      modifies parent`keys, parent.children[idx + 1], child
      ensures var r := parent.children[idx + 1];
              && parent.keys == old(parent.keys)[idx := old(r.keys)[0]]
              && r.keys == old(r.keys)[1..] && child.keys == old(child.keys) + [old(parent.keys)[idx]]
              && (if r.isLeaf then r.children == old(r.children) && child.children == old(child.children)
                  else r.children == old(r.children)[1..] &&
                       child.children == old(child.children) + [old(r.children)[0]])
    {
      var childRightSibling := parent.children[idx + 1];
      var keys := childRightSibling.keys;
      var successor := keys[0];
      childRightSibling.keys := keys[1..];
      var parentKey := parent.keys[idx];
      parent.keys := parent.keys[idx := successor];
      child.keys := child.keys + [parentKey];
      if !childRightSibling.isLeaf {
        var danglingGrandChild := childRightSibling.children[0];
        child.children := child.children + [danglingGrandChild];
        childRightSibling.children := childRightSibling.children[1..];
      }
    }

    /** preemptiveLeftCombine: child idx and the separator before it go to the left sibling. The source's merge does
        the same with the roles named differently. */
    method PreemptiveLeftCombine(parent: Node, child: Node, idx: nat)
      requires 1 <= idx <= |parent.keys| && idx < |parent.children| && child == parent.children[idx]
      requires parent != parent.children[idx - 1] && parent.children[idx - 1] != child && parent != child
      modifies parent, parent.children[idx - 1]
      ensures var l := old(parent.children)[idx - 1];
              && parent.keys == old(parent.keys)[..idx - 1] + old(parent.keys)[idx..]
              && parent.children == old(parent.children)[..idx] + old(parent.children)[idx + 1..]
              && l.keys == old(l.keys) + [old(parent.keys)[idx - 1]] + old(child.keys)
              && l.children == if child.isLeaf then old(l.children) else old(l.children) + old(child.children)
    {
      var childLeftSibling := parent.children[idx - 1];
      var parentKey := parent.keys[idx - 1];
      childLeftSibling.keys := childLeftSibling.keys + [parentKey];
      childLeftSibling.keys := childLeftSibling.keys + child.keys;
      parent.keys := parent.keys[..idx - 1] + parent.keys[idx..];
      parent.children := parent.children[..idx] + parent.children[idx + 1..];
      if !child.isLeaf {
        childLeftSibling.children := childLeftSibling.children + child.children;
      }
    }

    /** preemptiveRightCombine: child idx and the separator after it go to the right sibling. */
    method PreemptiveRightCombine(parent: Node, child: Node, idx: nat)
      requires idx < |parent.keys| && idx + 1 < |parent.children| && child == parent.children[idx]
      requires parent != parent.children[idx + 1] && parent.children[idx + 1] != child && parent != child
      modifies parent, parent.children[idx + 1]
      ensures var r := old(parent.children)[idx + 1];
              && parent.keys == old(parent.keys)[..idx] + old(parent.keys)[idx + 1..]
              && parent.children == old(parent.children)[..idx] + old(parent.children)[idx + 1..]
              && r.keys == old(child.keys) + ([old(parent.keys)[idx]] + old(r.keys))
              && r.children == if child.isLeaf then old(r.children) else old(child.children) + old(r.children)
    {
      var childRightSibling := parent.children[idx + 1];
      var parentKey := parent.keys[idx];
      childRightSibling.keys := [parentKey] + childRightSibling.keys;
      childRightSibling.keys := child.keys + childRightSibling.keys;
      parent.keys := parent.keys[..idx] + parent.keys[idx + 1..];
      parent.children := parent.children[..idx] + parent.children[idx + 1..];
      if !child.isLeaf {
        childRightSibling.children := child.children + childRightSibling.children;
      }
    }

    /** preemptiveFix, when neither sibling has a key to spare: combine to the left. */
    method CombineLeft(node: Node, idx: nat, ghost k: u16, ghost s: Shadow, ghost h: nat) returns (ghost u: Shadow)
      requires degree >= 2 && s.node == node && h > 0 && IsIndex(s.keys, k, idx) && k !in s.keys
      requires |s.kids| == |s.keys| + 1 && 1 <= idx && |s.kids[idx].keys| == degree - 1 == |s.kids[idx - 1].keys|
      requires Sound(s, h, degree)
      modifies Nodes(s)
      ensures u.node == node && |u.keys| == |s.keys| - 1 && |u.kids| == |u.keys| + 1
      ensures Sound(u, h, degree) && Flat(u) == Flat(s) && Nodes(u) <= Nodes(s)
      ensures k !in u.keys && forall i: nat | IsIndex(u.keys, k, i) :: |u.kids[i].keys| >= degree
      ensures BecameOne(s, u, idx - 1)
    {
      hide Bag, KidBag, Nodes, Flat, Weave, Ascending, Distinct, Shape, Matches, Fused, Joined, Refs;
      assert allocated(Nodes(s));
      NodeView(s, h, degree);
      KidView(s, idx - 1, h, degree);
      KidView(s, idx, h, degree);
      KidPair(s, idx - 1, h, degree);
      CutRefs(s, idx - 1);
      PreemptiveLeftCombine(node, node.children[idx], idx);
      u := CombinedEnd(s, idx - 1, h, degree, k, s.kids[idx - 1].node);
    }

    /** preemptiveFix of the first child: combine to the right. */
    method CombineRight(node: Node, ghost k: u16, ghost s: Shadow, ghost h: nat) returns (ghost u: Shadow)
      requires degree >= 2 && s.node == node && h > 0 && IsIndex(s.keys, k, 0) && k !in s.keys && |s.keys| >= 1
      requires |s.kids| == |s.keys| + 1 && |s.kids[0].keys| == degree - 1 == |s.kids[1].keys|
      requires Sound(s, h, degree)
      modifies Nodes(s)
      ensures u.node == node && |u.keys| == |s.keys| - 1 && |u.kids| == |u.keys| + 1
      ensures Sound(u, h, degree) && Flat(u) == Flat(s) && Nodes(u) <= Nodes(s)
      ensures k !in u.keys && forall i: nat | IsIndex(u.keys, k, i) :: |u.kids[i].keys| >= degree
      ensures BecameOne(s, u, 0)
    {
      hide Bag, KidBag, Nodes, Flat, Weave, Ascending, Distinct, Shape, Matches, Fused, Joined, Refs;
      assert allocated(Nodes(s));
      NodeView(s, h, degree);
      KidView(s, 0, h, degree);
      KidView(s, 1, h, degree);
      KidPair(s, 0, h, degree);
      CutRefs(s, 0);
      PreemptiveRightCombine(node, node.children[0], 0);
      u := CombinedEnd(s, 0, h, degree, k, s.kids[1].node);
    }

    /** preemptiveFix: give child idx one key more than the minimum before the search for k enters it. */
    method PreemptiveFix(node: Node, idx: nat, ghost k: u16, ghost s: Shadow, ghost h: nat) returns (ghost u: Shadow)
      requires degree >= 2 && s.node == node && h > 0 && IsIndex(s.keys, k, idx) && k !in s.keys && |s.keys| >= 1
      requires |s.kids| == |s.keys| + 1 && |s.kids[idx].keys| <= degree - 1
      requires Sound(s, h, degree)
      modifies Nodes(s)
      ensures u.node == node && |s.keys| - 1 <= |u.keys| <= |s.keys| && |u.kids| == |u.keys| + 1
      ensures Sound(u, h, degree) && Flat(u) == Flat(s) && Nodes(u) <= Nodes(s)
      ensures k !in u.keys && forall i: nat | IsIndex(u.keys, k, i) :: |u.kids[i].keys| >= degree
      ensures if idx > 0 && |s.kids[idx - 1].keys| >= degree then WentRight(s, u, idx)
              else if idx < |s.keys| && |s.kids[idx + 1].keys| >= degree then WentLeft(s, u, idx)
              else BecameOne(s, u, if idx > 0 then idx - 1 else 0)
    {
      hide Bag, KidBag, Nodes, Flat, Weave, Ascending, Distinct, Shape, Matches, Refs, WithPair, Fused, DropLast,
           DropFirst, Prepended, Appended, Joined, WentRight, WentLeft, BecameOne;
      ghost var t := degree;
      assert allocated(Nodes(s));
      NodeView(s, h, t);
      KidView(s, idx, h, t);
      var parent, child := node, node.children[idx];
      if idx >= 1 {
        KidView(s, idx - 1, h, t);
        KidPair(s, idx - 1, h, t);
        if |parent.children[idx - 1].keys| > degree - 1 {
          PreemptiveRightRotate(parent, child, idx);
          u := RotatedRightEnd(s, idx, h, t, k);
          return;
        }
      }
      if idx + 1 <= |parent.children| - 1 {
        KidView(s, idx + 1, h, t);
        KidPair(s, idx, h, t);
        if |parent.children[idx + 1].keys| > degree - 1 {
          PreemptiveLeftRotate(parent, child, idx);
          u := RotatedLeftEnd(s, idx, h, t, k);
          return;
        }
      }
      if idx >= 1 {
        u := CombineLeft(node, idx, k, s, h);
      } else {
        u := CombineRight(node, k, s, h);
      }
    }

    /** delete */
    method DeleteAt(node: Node, k: u16, ghost s: Shadow, ghost h: nat) returns (ghost u: Shadow)
      requires degree >= 2 && s.node == node && (h > 0 ==> |s.keys| >= 1)
      requires Sound(s, h, degree)
      modifies Nodes(s)
      ensures u.node == node && |s.keys| - 1 <= |u.keys| <= |s.keys|
      ensures Sound(u, h, degree) && SetOf(Flat(u)) == SetOf(Flat(s)) - {k} && Nodes(u) <= Nodes(s)
      decreases h, 1
    {
      hide Bag, KidBag, Nodes, Flat, Weave, Ascending, Distinct, Shape, Matches, Refs, SetOf, Sort;
      assert allocated(Nodes(s));
      NodeView(s, h, degree);
      u := s;
      if !node.isLeaf {
        if k in node.keys {
          u := DeleteKeyFromInternal(node, k, s, h);
          return;
        }
        var idx := CalculateAppropriateIdx(node.keys, k);
        KidView(s, idx, h, degree);
        if |node.children[idx].keys| <= degree - 1 {
          u := PreemptiveFix(node, idx, k, s, h);
        }
        OneIndex(s.keys, k);
        u := DescendToDelete(node, k, u, h);
      } else if k in node.keys {
        u := DeleteFromLeafNode(node, k, s);
      } else {
        LeafHolds(s, k);
        NothingRemoved(k, Flat(s));
      }
    }

    /** The recursive call of delete, into a child with a key to spare. */
    method DescendToDelete(node: Node, k: u16, ghost s: Shadow, ghost h: nat) returns (ghost u: Shadow)
      requires degree >= 2 && s.node == node && h > 0 && k !in s.keys
      requires forall i: nat | IsIndex(s.keys, k, i) :: i < |s.kids| && |s.kids[i].keys| >= degree
      requires Sound(s, h, degree)
      modifies Nodes(s)
      ensures u.node == node && u.keys == s.keys
      ensures Sound(u, h, degree) && SetOf(Flat(u)) == SetOf(Flat(s)) - {k} && Nodes(u) <= Nodes(s)
      decreases h, 0
    {
      hide Bag, KidBag, Nodes, Flat, Weave, Ascending, Distinct, Shape, Matches, Refs, SetOf;
      assert allocated(Nodes(s));
      NodeView(s, h, degree);
      var idx := CalculateAppropriateIdx(node.keys, k);
      KidView(s, idx, h, degree);
      KidsApart(s, idx);
      ghost var c := DeleteAt(node.children[idx], k, s.kids[idx], h - 1);
      u := s.(kids := s.kids[idx := c]);
      KeyRemoved(k, Flat(s.kids[idx]), Flat(c));
      DescentFacts(s, h, degree, idx, c, k);
      ReplacedDistinct(s, idx, c, Nodes(s));
      StaysInside(s, idx, c);
      ReplacedMatches(s, idx, c);
    }

    /** deleteFromLeafNode */
    method DeleteFromLeafNode(node: Node, k: u16, ghost s: Shadow) returns (ghost u: Shadow)
      requires s.node == node && k in s.keys
      requires Sound(s, 0, degree)
      modifies node`keys
      ensures u.node == node && |u.keys| == |s.keys| - 1
      ensures Sound(u, 0, degree) && SetOf(Flat(u)) == SetOf(Flat(s)) - {k} && Nodes(u) <= Nodes(s)
    {
      hide Bag, KidBag, Nodes, Flat, Weave, Shape, Distinct, Ascending, Sort, SetOf, Matches;
      NodeView(s, 0, degree);
      var idx := Index(node.keys, k);
      node.keys := node.keys[idx := node.keys[|node.keys| - 1]];
      node.keys := node.keys[..|node.keys| - 1];
      node.keys := Sort(node.keys);
      u := s.(keys := s.keys[..idx] + s.keys[idx + 1..]);
      SortRemoves(s.keys, idx);
      LeafRemoved(s, idx, degree);
      MatchesIntro(u);
    }

    /** deleteFromInternalNode followed by the deletion it asks for. */
    method DeleteKeyFromInternal(node: Node, k: u16, ghost s: Shadow, ghost h: nat) returns (ghost u: Shadow)
      requires degree >= 2 && s.node == node && h > 0 && k in s.keys
      requires Sound(s, h, degree)
      modifies Nodes(s)
      ensures u.node == node && |s.keys| - 1 <= |u.keys| <= |s.keys|
      ensures Sound(u, h, degree) && SetOf(Flat(u)) == SetOf(Flat(s)) - {k} && Nodes(u) <= Nodes(s)
      decreases h, 0
    {
      hide Bag, KidBag, Nodes, Flat, Weave, Ascending, Distinct, Shape, Matches, Refs, SetOf, Plan;
      assert allocated(Nodes(s));
      var subtree, keyToBeDeleted;
      ghost var m, i, j;
      subtree, keyToBeDeleted, m, i, j := DeleteFromInternalNode(node, k, s, h);
      PlanView(s, m, h, degree, i, j, k, keyToBeDeleted);
      KidsApart(m, j);
      ghost var c := DeleteAt(subtree, keyToBeDeleted, m.kids[j], h - 1);
      u := m.(kids := m.kids[j := c]);
      PlanFacts(s, m, h, degree, i, j, k, keyToBeDeleted, c);
      ReplacedDistinct(m, j, c, Nodes(m));
      StaysInside(m, j, c);
      ReplacedMatches(m, j, c);
    }

    /** deleteFromInternalNode: the key is overwritten by its predecessor or successor, or goes down into a merged
        child; returned are the subtree to go on with and the key to delete there. */
    method DeleteFromInternalNode(node: Node, k: u16, ghost s: Shadow, ghost h: nat)
      returns (subtree: Node, keyToBeDeleted: u16, ghost m: Shadow, ghost i: nat, ghost j: nat)
      requires degree >= 2 && s.node == node && h > 0 && k in s.keys
      requires Sound(s, h, degree)
      modifies Nodes(s)
      ensures Plan(s, m, h, degree, i, j, k, keyToBeDeleted)
      ensures Matches(m) && m.node == node && j < |m.kids| && subtree == m.kids[j].node
      ensures |s.kids| == |s.keys| + 1 && i < |s.keys| && s.keys[i] == k
      ensures |s.kids[i].keys| >= degree ==> j == i && keyToBeDeleted != k
      ensures |s.kids[i].keys| < degree && |s.kids[i + 1].keys| >= degree ==> j == i + 1
      ensures |s.kids[i].keys| < degree && |s.kids[i + 1].keys| < degree ==> j == i && keyToBeDeleted == k
    {
      hide Bag, KidBag, Nodes, Flat, Weave, Ascending, Distinct, Shape, Matches, Refs, SetOf, MaxKey, MinKey, Fused;
      assert allocated(Nodes(s));
      NodeView(s, h, degree);
      var idx := Index(node.keys, k);
      i := idx;
      KidView(s, idx, h, degree);
      KidView(s, idx + 1, h, degree);
      KidPair(s, idx, h, degree);
      if |node.children[idx].keys| > degree - 1 {
        MaxIsLast(s.kids[idx], h - 1, degree);
        EndsApart(s, idx, MaxKey(s.kids[idx], h - 1, degree));
        keyToBeDeleted := BorrowFromInorderPredecessor(node, idx, s, h);
        m, j := s.(keys := s.keys[idx := keyToBeDeleted]), idx;
        KeyReplaced(s, idx, keyToBeDeleted);
        subtree := node.children[idx];
      } else if |node.children[idx + 1].keys| > degree - 1 {
        MinIsFirst(s.kids[idx + 1], h - 1, degree);
        keyToBeDeleted := BorrowFromInorderSuccessor(node, idx, s, h);
        m, j := s.(keys := s.keys[idx := keyToBeDeleted]), idx + 1;
        KeyReplaced(s, idx, keyToBeDeleted);
        subtree := node.children[idx + 1];
      } else {
        keyToBeDeleted := k;
        CutRefs(s, idx);
        subtree := Merge(node, idx);
        FusedMatches(s, h, degree, idx, s.kids[idx].node);
        m, j := Fused(s, idx, s.kids[idx].node), idx;
        FusedKid(s, idx);
      }
    }

    /** merge of children idx and idx + 1: the same edits as the left combine of child idx + 1. */
    method Merge(node: Node, idx: nat) returns (newChild: Node)
      requires idx < |node.keys| && idx + 1 < |node.children| && node != node.children[idx]
      requires node.children[idx] != node.children[idx + 1] && node != node.children[idx + 1]
      modifies node, node.children[idx]
      ensures var l, r := old(node.children)[idx], old(node.children)[idx + 1];
              && newChild == l
              && node.keys == old(node.keys)[..idx] + old(node.keys)[idx + 1..]
              && node.children == old(node.children)[..idx + 1] + old(node.children)[idx + 2..]
              && l.keys == old(l.keys) + [old(node.keys)[idx]] + old(r.keys)
              && l.children == if r.isLeaf then old(l.children) else old(l.children) + old(r.children)
    {
      PreemptiveLeftCombine(node, node.children[idx + 1], idx + 1);
      newChild := node.children[idx];
    }

    /** borrowFromInorderPredecessor: down the right edge of the left child. */
    method BorrowFromInorderPredecessor(node: Node, idx: nat, ghost s: Shadow, ghost h: nat) returns (predecessor: u16)
      requires degree >= 2 && s.node == node && h > 0 && idx < |s.keys| && |s.kids| == |s.keys| + 1
      requires |s.kids[idx].keys| >= 1
      requires Shape(s.kids[idx], h - 1, degree)
      requires Sound(s, h, degree)
      modifies node`keys
      ensures predecessor == MaxKey(s.kids[idx], h - 1, degree) && node.keys == s.keys[idx := predecessor]
    {
      hide Bag, KidBag, Nodes, Flat, Weave, Ascending, Distinct, Refs;
      assert allocated(Nodes(s));
      KidView(s, idx, h, degree);
      var child := node.children[idx];
      ghost var c: Shadow, g: nat := s.kids[idx], h - 1;
      NodeView(s, h, degree);
      while !child.isLeaf
        invariant child == c.node && Matches(c) && Shape(c, g, degree) && |c.keys| >= 1 && node.keys == s.keys
        invariant MaxKey(c, g, degree) == MaxKey(s.kids[idx], h - 1, degree)
        decreases g
      {
        FitsView(c, g, degree);
        child := child.children[|child.children| - 1];
        c, g := c.kids[|c.keys|], g - 1;
      }
      FitsView(c, g, degree);
      predecessor := child.keys[|child.keys| - 1];
      node.keys := node.keys[idx := predecessor];
    }

    /** borrowFromInorderSuccessor: down the left edge of the right child. */
    method BorrowFromInorderSuccessor(node: Node, idx: nat, ghost s: Shadow, ghost h: nat) returns (successor: u16)
      requires degree >= 2 && s.node == node && h > 0 && idx < |s.keys| && |s.kids| == |s.keys| + 1
      requires |s.kids[idx + 1].keys| >= 1
      requires Shape(s.kids[idx + 1], h - 1, degree)
      requires Sound(s, h, degree)
      modifies node`keys
      ensures successor == MinKey(s.kids[idx + 1], h - 1, degree) && node.keys == s.keys[idx := successor]
    {
      hide Bag, KidBag, Nodes, Flat, Weave, Ascending, Distinct, Refs;
      assert allocated(Nodes(s));
      KidView(s, idx + 1, h, degree);
      var child := node.children[idx + 1];
      ghost var c: Shadow, g: nat := s.kids[idx + 1], h - 1;
      NodeView(s, h, degree);
      while !child.isLeaf
        invariant child == c.node && Matches(c) && Shape(c, g, degree) && |c.keys| >= 1 && node.keys == s.keys
        invariant MinKey(c, g, degree) == MinKey(s.kids[idx + 1], h - 1, degree)
        decreases g
      {
        FitsView(c, g, degree);
        child := child.children[0];
        c, g := c.kids[0], g - 1;
      }
      FitsView(c, g, degree);
      successor := child.keys[0];
      node.keys := node.keys[idx := successor];
    }

    /** Delete: a root left without keys hands over to its only child. */
    method Delete(k: u16)
      requires Valid()
      modifies this, Nodes(tree)
      ensures Valid() && Contents() == old(Contents()) - {k} && Nodes(tree) <= old(Nodes(tree))
    {
      hide Bag, KidBag, Nodes, Flat, Weave, Ascending, Distinct, Shape, Matches, Refs, SetOf;
      assert allocated(Nodes(tree));
      tree := DeleteAt(root, k, tree, height);
      NodeView(tree, height, degree);
      if |root.keys| == 0 && !root.isLeaf {
        KidView(tree, 0, height, degree);
        OnlyKid(tree);
        root := root.children[0];
        tree, height := tree.kids[0], height - 1;
      }
    }
  }

  /** The heap after SplitFields holds the tree with the two halves. */
  lemma SplitMatches(s: Shadow, h: nat, t: nat, i: nat, n: Node)
    requires h > 0 && i < |s.kids| == |s.keys| + 1 && t >= 2 && |s.kids[i].keys| == 2 * t - 1 && |s.keys| < 2 * t - 1
    requires Shape(s, h, t) && Ascending(Flat(s))
    requires var c := s.kids[i];
             var m := |c.keys| / 2;
             && s.node.keys == Sort(s.keys + [c.keys[m]]) && !s.node.isLeaf
             && |s.node.children| == |s.kids| + 1 && s.node.children[i] == c.node && s.node.children[i + 1] == n
             && c.node.keys == c.keys[..m] && n.keys == Sort([] + c.keys[m + 1..])
             && n.isLeaf == c.node.isLeaf == (h == 1)
             && (if h == 1 then c.node.children == [] && n.children == []
                 else && |c.node.children| == m + 1 && |n.children| == |c.kids| - m - 1
                      && (forall j | 0 <= j <= m :: c.node.children[j] == c.kids[j].node)
                      && forall j | m < j < |c.kids| :: n.children[j - m - 1] == c.kids[j].node)
    requires forall j | 0 <= j < |s.kids| && j != i ::
               Matches(s.kids[j]) && s.node.children[if j < i then j else j + 1] == s.kids[j].node
    requires forall j | 0 <= j < |s.kids[i].kids| :: Matches(s.kids[i].kids[j])
    ensures var u := Spliced(s, i, LeftPart(s.kids[i], s.kids[i].node), MedianOf(s.kids[i]), RightPart(s.kids[i], n));
            Matches(u) && Shape(u, h, t) && Flat(u) == Flat(s)
  {
    hide Bag, KidBag, Nodes, Flat, Weave, Sort, Ascending, Matches, LeftPart, RightPart, MedianOf, Shape, Spliced;
    var c := s.kids[i];
    KidShape(s, h, t, i);
    KidAscending(s, i);
    HalvesMatch(c, h - 1, t, n);
    var l, r := LeftPart(c, c.node), RightPart(c, n);
    SplitShape(s, h, t, i, n);
    MedianIs(c);
    SplicedMatches(s, i, l, MedianOf(c), r);
  }

  lemma SplicedMatches(s: Shadow, i: nat, l: Shadow, m: u16, r: Shadow)
    requires i < |s.kids| == |s.keys| + 1
    requires s.node.keys == Spliced(s, i, l, m, r).keys && !s.node.isLeaf && |s.node.children| == |s.kids| + 1
    requires s.node.children[i] == l.node && s.node.children[i + 1] == r.node && Matches(l) && Matches(r)
    requires forall j | 0 <= j < |s.kids| && j != i ::
               Matches(s.kids[j]) && s.node.children[if j < i then j else j + 1] == s.kids[j].node
    ensures Matches(Spliced(s, i, l, m, r))
  {
    hide Bag, KidBag, Nodes, Matches;
    var u := Spliced(s, i, l, m, r);
    forall j | 0 <= j < |u.kids|
      ensures u.node.children[j] == u.kids[j].node && Matches(u.kids[j])
    {
      if j < i {
        assert u.kids[j] == s.kids[j];
      } else if j > i + 1 {
        assert u.kids[j] == s.kids[j - 1];
      }
    }
    MatchesIntro(u);
  }

  lemma MedianIs(c: Shadow)
    requires |c.keys| > 0
    ensures MedianOf(c) == c.keys[|c.keys| / 2] && LeftPart(c, c.node).node == c.node
    ensures forall n :: RightPart(c, n).node == n
  {
  }

  lemma HalvesMatch(c: Shadow, h: nat, t: nat, n: Node)
    requires Shape(c, h, t) && |c.keys| == 2 * t - 1 && t >= 2 && Ascending(Flat(c))
    requires var m := |c.keys| / 2;
             && c.node.keys == c.keys[..m] && n.keys == Sort([] + c.keys[m + 1..])
             && n.isLeaf == c.node.isLeaf == (h == 0)
             && (if h == 0 then c.node.children == [] && n.children == []
                 else && |c.node.children| == m + 1 && |n.children| == |c.kids| - m - 1
                      && (forall j | 0 <= j <= m :: c.node.children[j] == c.kids[j].node)
                      && forall j | m < j < |c.kids| :: n.children[j - m - 1] == c.kids[j].node)
    requires forall j | 0 <= j < |c.kids| :: Matches(c.kids[j])
    ensures Matches(LeftPart(c, c.node)) && Matches(RightPart(c, n))
  {
    hide Bag, KidBag, Nodes, Flat, Weave, Sort, Ascending, Matches;
    var l, r := LeftPart(c, c.node), RightPart(c, n);
    PartsSorted(c, h, t, n);
    forall j | 0 <= j < |r.kids|
      ensures r.node.children[j] == r.kids[j].node && Matches(r.kids[j])
    {
      assert r.kids[j] == c.kids[j + |c.keys| / 2 + 1];
    }
    MatchesIntro(l);
    MatchesIntro(r);
  }

  lemma SplitShape(s: Shadow, h: nat, t: nat, i: nat, n: Node)
    requires h > 0 && i < |s.kids| == |s.keys| + 1 && t >= 2 && |s.kids[i].keys| == 2 * t - 1 && |s.keys| < 2 * t - 1
    requires Shape(s, h, t) && Ascending(Flat(s))
    ensures var u := Spliced(s, i, LeftPart(s.kids[i], s.kids[i].node), MedianOf(s.kids[i]), RightPart(s.kids[i], n));
            Shape(u, h, t) && Flat(u) == Flat(s) && u.keys == Sort(s.keys + [MedianOf(s.kids[i])])
  {
    hide Bag, KidBag, Flat, Sort, Ascending, LeftPart, RightPart;
    var c := s.kids[i];
    KidShape(s, h, t, i);
    PartsShape(c, h - 1, t, c.node, n);
    SplicedFacts(s, h, t, i, LeftPart(c, c.node), MedianOf(c), RightPart(c, n));
    SplicedSorted(s, i, LeftPart(c, c.node), MedianOf(c), RightPart(c, n));
  }

  lemma KidView(s: Shadow, i: nat, h: nat, t: nat)
    requires h > 0 && i < |s.kids| && Sound(s, h, t)
    ensures var c := s.kids[i];
            && s.node.keys == s.keys && !s.node.isLeaf && |s.node.children| == |s.kids| == |s.keys| + 1
            && s.node.children[i] == c.node && s.node != c.node && Matches(c) && Distinct(c) && Shape(c, h - 1, t)
            && s.node.children == Refs(s.kids) && c.node.children == Refs(c.kids)
            && c.node.keys == c.keys && c.node.isLeaf == (c.kids == []) && |c.node.children| == |c.kids|
            && (if h == 1 then c.kids == [] else |c.kids| == |c.keys| + 1)
            && Nodes(c) <= Nodes(s) && c.node in Nodes(c) && s.node in Nodes(s) && t - 1 <= |c.keys| <= 2 * t - 1
            && Ascending(Flat(c)) && Ascending(s.keys)
    ensures forall j | 0 <= j < |s.kids[i].kids| ::
              s.kids[i].node.children[j] == s.kids[i].kids[j].node && Matches(s.kids[i].kids[j])
              && s.node !in Nodes(s.kids[i].kids[j]) && s.kids[i].node !in Nodes(s.kids[i].kids[j])
              && Nodes(s.kids[i].kids[j]) <= Nodes(s)
    ensures forall j | 0 <= j < |s.kids| && j != i ::
              s.kids[i].node !in Nodes(s.kids[j]) && s.node !in Nodes(s.kids[j]) && Matches(s.kids[j])
              && s.node.children[j] == s.kids[j].node && Nodes(s.kids[j]) <= Nodes(s)
  {
    hide Bag, KidBag, Nodes, Flat, Weave, Distinct, Ascending;
    var c := s.kids[i];
    OneApart(s, i);
    Apart(s);
    KidNodes(s, i);
    OwnNode(s);
    Apart(c);
    KidAscending(s, i);
    KeysAscending(s);
  }

  lemma KidAscending(s: Shadow, i: nat)
    requires |s.kids| == |s.keys| + 1 && i < |s.kids| && Ascending(Flat(s))
    ensures Ascending(Flat(s.kids[i]))
  {
    hide Flat, Pre, Post;
    FocusAt(s, i);
    Middle(Pre(s.keys[..i], s.kids[..i]), Flat(s.kids[i]), Post(s.keys[i..], s.kids[i + 1..]));
  }

  /** Sorting the keys of the new half changes nothing. */
  lemma PartsSorted(c: Shadow, h: nat, t: nat, r: Node)
    requires Shape(c, h, t) && |c.keys| == 2 * t - 1 && t >= 2 && Ascending(Flat(c))
    ensures Sort([] + c.keys[|c.keys| / 2 + 1..]) == RightPart(c, r).keys
  {
    hide Flat, Sort;
    KeysAscending(c);
    var b := c.keys[|c.keys| / 2 + 1..];
    assert [] + b == b;
    SortIs(b, b);
  }

  lemma SplicedSorted(s: Shadow, i: nat, l: Shadow, m: u16, r: Shadow)
    requires i <= |s.keys| && |s.kids| == |s.keys| + 1
    requires Ascending(Flat(s)) && Flat(Spliced(s, i, l, m, r)) == Flat(s)
    ensures Sort(s.keys + [m]) == Spliced(s, i, l, m, r).keys
  {
    hide Flat, Sort;
    KeysAscending(Spliced(s, i, l, m, r));
    assert s.keys == s.keys[..i] + s.keys[i..];
    SortAdds(s.keys[..i], m, s.keys[i..]);
  }

  lemma SplitDistinct(s: Shadow, h: nat, t: nat, i: nat, n: Node)
    requires h > 0 && i < |s.kids| == |s.keys| + 1 && |s.kids[i].keys| == 2 * t - 1 && t >= 2
    requires Shape(s, h, t) && Distinct(s) && n !in Nodes(s)
    ensures var u := Spliced(s, i, LeftPart(s.kids[i], s.kids[i].node), MedianOf(s.kids[i]), RightPart(s.kids[i], n));
            Distinct(u) && forall x | x in Nodes(u) :: x in Nodes(s) || x == n
  {
    hide Bag, KidBag, Shape;
    var c := s.kids[i];
    var l, r := LeftPart(c, c.node), RightPart(c, n);
    var u := Spliced(s, i, l, MedianOf(c), r);
    assert Shape(c, h - 1, t) by {
      KidShape(s, h, t, i);
    }
    PartsBag(c, h - 1, t, c.node, n);
    BagIs(c);
    SplicedBag(s, i, l, MedianOf(c), r);
    assert Bag(l) + Bag(r) == Bag(c) + multiset{n};
    forall x | x in Bag(u)
      ensures Bag(u)[x] == 1 && (x in Bag(s) || x == n)
    {
      assert (Bag(u) + Bag(c))[x] == (Bag(s) + Bag(l) + Bag(r))[x] == Bag(s)[x] + (Bag(l) + Bag(r))[x];
      assert x in Nodes(s) <==> x in Bag(s);
    }
  }

  lemma KidShape(s: Shadow, h: nat, t: nat, i: nat)
    requires h > 0 && Shape(s, h, t) && i < |s.kids|
    ensures Shape(s.kids[i], h - 1, t) && t - 1 <= |s.kids[i].keys|
  {
  }

  lemma SplicedBag(s: Shadow, i: nat, l: Shadow, m: u16, r: Shadow)
    requires i <= |s.keys| && i < |s.kids|
    ensures Bag(Spliced(s, i, l, m, r)) + Bag(s.kids[i]) == Bag(s) + Bag(l) + Bag(r)
  {
    hide Bag, KidBag;
    KidBagAt(s.kids, i);
    KidBagAround2(s.kids[..i], l, r, s.kids[i + 1..]);
    BagIs(s);
    BagIs(Spliced(s, i, l, m, r));
  }

  /** The fields of the root of a tree. */
  lemma NodeView(s: Shadow, h: nat, t: nat)
    requires Sound(s, h, t)
    ensures s.node.keys == s.keys && s.node.isLeaf == (h == 0) && |s.node.children| == |s.kids| && s.node in Nodes(s)
    ensures if h == 0 then s.kids == [] else |s.kids| == |s.keys| + 1
    ensures |s.keys| <= 2 * t - 1 && Ascending(s.keys)
  {
    hide Bag, KidBag, Nodes, Flat, Weave, Distinct, Ascending;
    KeysAscending(s);
  }

  /** After a split the key belongs into one of the halves. */
  lemma SplitIndex(s: Shadow, h: nat, t: nat, i: nat, n: Node, k: u16)
    requires h > 0 && i < |s.kids| == |s.keys| + 1 && |s.kids[i].keys| == 2 * t - 1 && t >= 2 && |s.keys| < 2 * t - 1
    requires Shape(s, h, t) && Ascending(Flat(s)) && IsIndex(s.keys, k, i)
    ensures var u := Spliced(s, i, LeftPart(s.kids[i], s.kids[i].node), MedianOf(s.kids[i]), RightPart(s.kids[i], n));
            forall j: nat | IsIndex(u.keys, k, j) :: j < |u.kids| && |u.kids[j].keys| < 2 * t - 1
  {
    hide Flat, Ascending, Bag, KidBag;
    var c := s.kids[i];
    KidShape(s, h, t, i);
    PartsShape(c, h - 1, t, c.node, n);
    var u := Spliced(s, i, LeftPart(c, c.node), MedianOf(c), RightPart(c, n));
    assert forall j | 0 <= j < i :: u.keys[j] == s.keys[j];
    assert i < |s.keys| ==> u.keys[i + 1] == s.keys[i];
    forall j: nat | IsIndex(u.keys, k, j)
      ensures i <= j <= i + 1
    {
    }
  }

  lemma Absent(s: Shadow, h: nat, t: nat, i: nat, k: u16)
    requires h > 0 && Shape(s, h, t) && Ascending(Flat(s)) && IsIndex(s.keys, k, i) && k !in SetOf(Flat(s))
    ensures k !in s.keys && k !in SetOf(Flat(s.kids[i]))
  {
    hide Flat, Pre, Post, Ascending;
    FocusAt(s, i);
    SetOf3(Pre(s.keys[..i], s.kids[..i]), Flat(s.kids[i]), Post(s.keys[i..], s.kids[i + 1..]));
    if k in s.keys {
      var j :| 0 <= j < |s.keys| && s.keys[j] == k;
      KeyInFlat(s, j);
    }
  }

  lemma KeyInFlat(s: Shadow, j: nat)
    requires |s.kids| == |s.keys| + 1 && j < |s.keys|
    ensures s.keys[j] in SetOf(Flat(s))
  {
    hide Flat, Pre, Post;
    FocusAt(s, j);
    PostFirst(s.keys[j..], s.kids[j + 1..]);
    var p, c, q := Pre(s.keys[..j], s.kids[..j]), Flat(s.kids[j]), Post(s.keys[j..], s.kids[j + 1..]);
    assert (p + c + q)[|p| + |c|] == q[0];
  }

  lemma KeyAdded(k: u16, f: seq<u16>, g: seq<u16>)
    requires SetOf(g) == SetOf(f) + {k}
    ensures k in SetOf(g)
  {
  }

  lemma KidsApart(s: Shadow, i: nat)
    requires Distinct(s) && i < |s.kids|
    ensures s.node !in Nodes(s.kids[i])
    ensures forall j | 0 <= j < |s.kids| && j != i ::
              Nodes(s.kids[j]) !! Nodes(s.kids[i]) && Nodes(s.kids[j]) <= Nodes(s)
  {
    hide Nodes, Distinct;
    Apart(s);
  }

  lemma ReplacedMatches(s: Shadow, i: nat, c: Shadow)
    requires i < |s.kids| && s.node.keys == s.keys && !s.node.isLeaf && |s.node.children| == |s.kids|
    requires c.node == s.node.children[i] && Matches(c)
    requires forall j | 0 <= j < |s.kids| && j != i :: Matches(s.kids[j]) && s.node.children[j] == s.kids[j].node
    ensures Matches(s.(kids := s.kids[i := c]))
  {
    hide Bag, KidBag, Nodes, Matches;
    MatchesIntro(s.(kids := s.kids[i := c]));
  }

  lemma LeafInserted(s: Shadow, k: u16, t: nat)
    requires Shape(s, 0, t) && |s.keys| < 2 * t - 1 && Ascending(Flat(s)) && k !in SetOf(Flat(s))
    ensures var u := s.(keys := Sort(s.keys + [k]));
            && Shape(u, 0, t) && Ascending(Flat(u)) && SetOf(Flat(u)) == SetOf(Flat(s)) + {k}
            && |u.keys| == |s.keys| + 1
            && (Distinct(s) ==> Distinct(u)) && Nodes(u) == Nodes(s)
  {
    hide Sort;
    assert Flat(s) == s.keys;
    BagIs(s);
    BagIs(s.(keys := Sort(s.keys + [k])));
    var i := IndexOf(s.keys, k);
    var a, b := s.keys[..i], s.keys[i..];
    assert s.keys == a + b;
    Middle(a, b, []);
    assert a + b + [] == s.keys;
    Pieces(a, k, b);
    SortAdds(a, k, b);
    SetOf3(a, [k], b);
    SetOfParts(a, b);
    SetOfOne(k);
  }

  lemma {:induction false} IndexOf(s: seq<u16>, k: u16) returns (i: nat)
    requires Ascending(s) && k !in SetOf(s)
    ensures i <= |s| && (forall j | 0 <= j < i :: s[j] < k) && forall j | i <= j < |s| :: k < s[j]
  {
    i := 0;
    while i < |s| && s[i] < k
      invariant i <= |s| && forall j | 0 <= j < i :: s[j] < k
    {
      i := i + 1;
    }
    forall j | i <= j < |s|
      ensures k < s[j]
    {
      assert s[j] in SetOf(s) && s[i] in SetOf(s);
    }
  }

  lemma KidsView(s: Shadow)
    requires Matches(s)
    ensures |s.node.children| == |s.kids|
    ensures forall j | 0 <= j < |s.kids| ::
              s.node.children[j] == s.kids[j].node && Matches(s.kids[j]) && Nodes(s.kids[j]) <= Nodes(s)
  {
    hide Nodes;
  }

  lemma PartsMatch(c: Shadow, h: nat, t: nat, left: Node, right: Node)
    requires Shape(c, h, t) && |c.keys| == 2 * t - 1 && t >= 2
    requires var m := |c.keys| / 2;
             && left.keys == c.keys[..m] && right.keys == c.keys[m + 1..] && left.isLeaf == right.isLeaf == (h == 0)
             && (if h == 0 then left.children == [] && right.children == []
                 else && |left.children| == m + 1 && |right.children| == |c.kids| - m - 1
                      && (forall j | 0 <= j <= m :: left.children[j] == c.kids[j].node)
                      && forall j | m < j < |c.kids| :: right.children[j - m - 1] == c.kids[j].node)
    requires forall j | 0 <= j < |c.kids| :: Matches(c.kids[j])
    ensures Matches(LeftPart(c, left)) && Matches(RightPart(c, right))
  {
    hide Bag, KidBag, Nodes, Matches;
    var l, r := LeftPart(c, left), RightPart(c, right);
    forall j | 0 <= j < |r.kids|
      ensures r.node.children[j] == r.kids[j].node && Matches(r.kids[j])
    {
      assert r.kids[j] == c.kids[j + |c.keys| / 2 + 1];
    }
    MatchesIntro(l);
    MatchesIntro(r);
  }

  lemma RootShape(s: Shadow, h: nat, t: nat, n: Node, left: Node, right: Node)
    requires |s.keys| == 2 * t - 1 && t >= 2 && n != left && n != right && left != right
    requires Shape(s, h, t) && Distinct(s) && n !in Nodes(s) && left !in Nodes(s) && right !in Nodes(s)
    ensures var u := Shadow(n, [MedianOf(s)], [LeftPart(s, left), RightPart(s, right)]);
            && Shape(u, h + 1, t) && Flat(u) == Flat(s) && Distinct(u)
            && forall x | x in Nodes(u) :: x in Nodes(s) || x in {n, left, right}
  {
    hide Bag, KidBag, LeftPart, RightPart;
    var l, r, m := LeftPart(s, left), RightPart(s, right), MedianOf(s);
    var u := Shadow(n, [m], [l, r]);
    PartsShape(s, h, t, left, right);
    RootFlat(n, l, m, r);
    PartsBag(s, h, t, left, right);
    BagIs(s);
    BagIs(u);
    KidBagAround2([], l, r, []);
    NoKids();
    assert [] + [l, r] + [] == [l, r];
    forall x | x in Bag(u)
      ensures Bag(u)[x] == 1 && (x in Bag(s) || x in {n, left, right})
    {
      assert KidBag(s.kids)[x] <= Bag(s)[x];
      assert x in Nodes(s) <==> x in Bag(s);
      assert (Bag(l) + Bag(r))[x] == (multiset{left} + multiset{right} + KidBag(s.kids))[x];
    }
  }

  lemma RootFlat(n: Node, l: Shadow, m: u16, r: Shadow)
    ensures Flat(Shadow(n, [m], [l, r])) == Flat(l) + [m] + Flat(r)
  {
    assert [l, r] == [l] + [r] && [m] == [] + [m] + [];
    WeaveSplit([], [l], m, [], [r]);
  }

  lemma KeyIsIn(s: Shadow, h: nat, t: nat, k: u16)
    requires Shape(s, h, t) && k in s.keys
    ensures k in SetOf(Flat(s))
  {
    var j :| 0 <= j < |s.keys| && s.keys[j] == k;
    if h > 0 {
      KeyInFlat(s, j);
    }
  }

  lemma LeafHolds(s: Shadow, k: u16)
    requires s.kids == []
    ensures k in SetOf(Flat(s)) <==> k in s.keys
  {
  }

  /** A key that is not in the node is in the tree exactly when it is in the child the search goes to. */
  lemma BelowHolds(s: Shadow, h: nat, t: nat, i: nat, k: u16)
    requires h > 0 && Shape(s, h, t) && Ascending(Flat(s)) && IsIndex(s.keys, k, i) && k !in s.keys
    ensures k in SetOf(Flat(s)) <==> k in SetOf(Flat(s.kids[i]))
  {
    hide Flat, Pre, Post;
    Bracket(s, k, i);
    var p, f, q := Pre(s.keys[..i], s.kids[..i]), Flat(s.kids[i]), Post(s.keys[i..], s.kids[i + 1..]);
    MiddleReplaced(p, f, q, f, k);
    SetOf3(p, f, q);
  }

  /** Two neighbouring children are different nodes with nothing in common. */
  lemma KidPair(s: Shadow, i: nat, h: nat, t: nat)
    requires h > 0 && i + 1 < |s.kids| && Sound(s, h, t)
    ensures var l, r := s.kids[i], s.kids[i + 1];
            && l.node != r.node
            && (forall j | 0 <= j < |l.kids| :: r.node !in Nodes(l.kids[j]))
            && forall j | 0 <= j < |r.kids| :: l.node !in Nodes(r.kids[j])
  {
    hide Bag, KidBag, Flat, Ascending, Matches;
    TwoApart(s, i, i + 1);
    NotBelow(s.kids[i], s.kids[i + 1]);
    NotBelow(s.kids[i + 1], s.kids[i]);
  }

  lemma NotBelow(l: Shadow, r: Shadow)
    requires Nodes(l) !! Nodes(r)
    ensures l.node != r.node && forall j | 0 <= j < |l.kids| :: r.node !in Nodes(l.kids[j])
  {
    hide Bag, KidBag, Nodes;
    OwnNode(l);
    OwnNode(r);
    forall j | 0 <= j < |l.kids|
      ensures r.node !in Nodes(l.kids[j])
    {
      KidNodes(l, j);
    }
  }

  lemma IntroFits(s: Shadow)
    requires Fits(s) && forall i | 0 <= i < |s.kids| :: Matches(s.kids[i])
    ensures Matches(s)
  {
    hide Bag, KidBag, Nodes, Matches;
    MatchesIntro(s);
  }

  /** What lies in child i lies between the separators around it. */
  lemma KidBounds(s: Shadow, i: nat, x: u16)
    requires |s.kids| == |s.keys| + 1 && i <= |s.keys| && Ascending(Flat(s)) && x in SetOf(Flat(s.kids[i]))
    ensures (i > 0 ==> s.keys[i - 1] < x) && (i < |s.keys| ==> x < s.keys[i])
  {
    hide Flat, Pre, Post;
    FocusAt(s, i);
    var p, c, q := Pre(s.keys[..i], s.kids[..i]), Flat(s.kids[i]), Post(s.keys[i..], s.kids[i + 1..]);
    PreLast(s.keys[..i], s.kids[..i]);
    PostFirst(s.keys[i..], s.kids[i + 1..]);
    var n :| 0 <= n < |c| && c[n] == x;
    var f := Flat(s);
    assert f[|p| + n] == x;
    if i > 0 {
      assert f[|p| - 1] == s.keys[i - 1];
    }
    if i < |s.keys| {
      assert f[|p| + |c|] == s.keys[i];
    }
  }

  // ---- rotations

  /** The heap after PreemptiveRightRotate. */
  // ---- what a preemptive fix does to the keys

  /** The last key of child idx - 1 went up, and the separator down to the front of child idx. */
  ghost predicate WentRight(s: Shadow, u: Shadow, idx: nat)
    requires 0 < idx <= |s.keys| == |s.kids| - 1 && |s.kids[idx - 1].keys| > 0
  {
    var l, c := s.kids[idx - 1].keys, s.kids[idx].keys;
    && u.keys == s.keys[idx - 1 := l[|l| - 1]] && |u.kids| == |s.kids|
    && u.kids[idx - 1].keys == l[..|l| - 1] && u.kids[idx].keys == [s.keys[idx - 1]] + c
  }

  /** The first key of child idx + 1 went up, and the separator down to the end of child idx. */
  ghost predicate WentLeft(s: Shadow, u: Shadow, idx: nat)
    requires idx < |s.keys| == |s.kids| - 1 && |s.kids[idx + 1].keys| > 0
  {
    var c, r := s.kids[idx].keys, s.kids[idx + 1].keys;
    && u.keys == s.keys[idx := r[0]] && |u.kids| == |s.kids|
    && u.kids[idx].keys == c + [s.keys[idx]] && u.kids[idx + 1].keys == r[1..]
  }

  /** Children i and i + 1 and the separator between them became one child. */
  ghost predicate BecameOne(s: Shadow, u: Shadow, i: nat)
    requires i < |s.keys| == |s.kids| - 1
  {
    && u.keys == s.keys[..i] + s.keys[i + 1..] && |u.kids| == |s.kids| - 1
    && u.kids[i].keys == s.kids[i].keys + [s.keys[i]] + s.kids[i + 1].keys
  }

  lemma PairWentRight(s: Shadow, idx: nat)
    requires 0 < idx <= |s.keys| == |s.kids| - 1 && |s.kids[idx - 1].keys| > 0
    ensures var l, c, e := s.kids[idx - 1], s.kids[idx], s.keys[idx - 1];
            && WentRight(s, WithPair(s, idx - 1, DropLast(l), l.keys[|l.keys| - 1], Prepended(l, e, c)), idx)
            && DropLast(l).node == l.node && Prepended(l, e, c).node == c.node
            && Prepended(l, e, c).keys == [e] + c.keys
  {
  }

  lemma PairWentLeft(s: Shadow, idx: nat)
    requires idx < |s.keys| == |s.kids| - 1 && |s.kids[idx + 1].keys| > 0
    ensures var c, r, e := s.kids[idx], s.kids[idx + 1], s.keys[idx];
            && WentLeft(s, WithPair(s, idx, Appended(c, e, r), r.keys[0], DropFirst(r)), idx)
            && DropFirst(r).node == r.node && Appended(c, e, r).node == c.node
            && Appended(c, e, r).keys == c.keys + [e]
  {
  }

  lemma RotatedRightEnd(s: Shadow, idx: nat, h: nat, t: nat, k: u16) returns (u: Shadow)
    requires h > 0 && 1 <= idx <= |s.keys| == |s.kids| - 1 && t >= 2 && IsIndex(s.keys, k, idx) && k !in s.keys
    requires |s.kids[idx - 1].keys| >= t && |s.kids[idx].keys| == t - 1
    requires Shape(s, h, t) && Ascending(Flat(s)) && Distinct(s)
    requires var l, c := s.kids[idx - 1], s.kids[idx];
             var n := |l.keys| - 1;
             && s.node.keys == s.keys[idx - 1 := l.keys[n]] && s.node.children == Refs(s.kids) && !s.node.isLeaf
             && l.node.keys == l.keys[..n] && c.node.keys == [s.keys[idx - 1]] + c.keys
             && l.node.isLeaf == c.node.isLeaf == (h == 1)
             && (if h == 1 then l.node.children == c.node.children == []
                 else && |l.kids| > 0 && l.node.children == Refs(l.kids)[..|l.kids| - 1]
                      && c.node.children == [Refs(l.kids)[|l.kids| - 1]] + Refs(c.kids))
             && (forall j | 0 <= j < |l.kids| :: Matches(l.kids[j]))
             && forall j | 0 <= j < |c.kids| :: Matches(c.kids[j])
    requires forall j | 0 <= j < |s.kids| && j != idx - 1 && j != idx :: Matches(s.kids[j])
    ensures u.node == s.node && |u.keys| == |s.keys| && |u.kids| == |u.keys| + 1
    ensures Sound(u, h, t) && Flat(u) == Flat(s) && Nodes(u) <= Nodes(s)
    ensures k !in u.keys && forall i: nat | IsIndex(u.keys, k, i) :: |u.kids[i].keys| >= t
    ensures WentRight(s, u, idx)
  {
    hide Bag, KidBag, Nodes, Flat, Weave, Matches, Ascending, SetOf, WentRight, DropLast, Prepended, WithPair;
    PairWentRight(s, idx);
    var l, c, e := s.kids[idx - 1], s.kids[idx], s.keys[idx - 1];
    var b := l.keys[|l.keys| - 1];
    KidShape(s, h, t, idx - 1);
    KidShape(s, h, t, idx);
    RotateRightFacts(l, e, c, h - 1, t);
    var l', c' := DropLast(l), Prepended(l, e, c);
    WithPairFacts(s, h, t, idx - 1, l', b, c');
    u := WithPair(s, idx - 1, l', b, c');
    RotatedRightHeap(l, e, c, h - 1, t);
    PairKids(s, idx - 1, l', b, c');
    PairMatches(s, idx - 1, l', b, c');
    SmallerDistinct(s, u);
    KeyIsIn(c', h - 1, t, e);
    KidBounds(u, idx, e);
    SameIndex(s.keys, k, idx, idx - 1, b);
  }

  lemma RotatedRightHeap(l: Shadow, e: u16, c: Shadow, h: nat, t: nat)
    requires Shape(l, h, t) && Shape(c, h, t) && |l.keys| >= 1
    requires var n := |l.keys| - 1;
             && l.node.keys == l.keys[..n] && c.node.keys == [e] + c.keys && l.node.isLeaf == c.node.isLeaf == (h == 0)
             && (if h == 0 then l.node.children == c.node.children == []
                 else && |l.kids| > 0 && l.node.children == Refs(l.kids)[..|l.kids| - 1]
                      && c.node.children == [Refs(l.kids)[|l.kids| - 1]] + Refs(c.kids))
    requires (forall j | 0 <= j < |l.kids| :: Matches(l.kids[j])) && forall j | 0 <= j < |c.kids| :: Matches(c.kids[j])
    ensures Matches(DropLast(l)) && Matches(Prepended(l, e, c))
  {
    hide Bag, KidBag, Nodes, Matches, Refs, Shape;
    ShapeKids(l, h, t);
    ShapeKids(c, h, t);
    if h > 0 {
      RefsTake(l.kids, |l.kids| - 1);
      RefsCons(l.kids[|l.kids| - 1], c.kids);
      RefsAt(l.kids, |l.kids| - 1);
    } else {
      NoRefs();
    }
    IntroFits(DropLast(l));
    IntroFits(Prepended(l, e, c));
  }

  lemma ShapeKids(s: Shadow, h: nat, t: nat)
    requires Shape(s, h, t)
    ensures if h == 0 then s.kids == [] else |s.kids| == |s.keys| + 1
  {
  }

  lemma NoRefs()
    ensures Refs([]) == []
  {
  }

  lemma RefsAt(cs: seq<Shadow>, i: nat)
    requires i < |cs|
    ensures Refs(cs)[i] == cs[i].node
  {
  }

  lemma RefsTake(cs: seq<Shadow>, n: nat)
    requires n <= |cs|
    ensures Refs(cs)[..n] == Refs(cs[..n]) && Refs(cs)[n..] == Refs(cs[n..])
  {
  }

  lemma RefsCons(c: Shadow, cs: seq<Shadow>)
    ensures [c.node] + Refs(cs) == Refs([c] + cs) && Refs(cs) + [c.node] == Refs(cs + [c])
  {
  }

  lemma PairMatches(s: Shadow, i: nat, l: Shadow, m: u16, r: Shadow)
    requires |s.kids| == |s.keys| + 1 && i < |s.keys| && l.node == s.kids[i].node && r.node == s.kids[i + 1].node
    requires s.node.keys == s.keys[i := m] && s.node.children == Refs(s.kids) && !s.node.isLeaf
    requires Matches(l) && Matches(r)
    requires forall j | 0 <= j < |s.kids| && j != i && j != i + 1 :: Matches(s.kids[j])
    ensures Matches(WithPair(s, i, l, m, r))
  {
    hide Bag, KidBag, Nodes, Matches;
    var u := WithPair(s, i, l, m, r);
    assert Refs(u.kids) == Refs(s.kids);
    forall j | 0 <= j < |u.kids|
      ensures Matches(u.kids[j])
    {
      if j != i && j != i + 1 {
        assert u.kids[j] == s.kids[j];
      }
    }
    IntroFits(u);
  }

  lemma PairKids(s: Shadow, i: nat, l: Shadow, m: u16, r: Shadow)
    requires |s.kids| == |s.keys| + 1 && i < |s.keys|
    ensures var u := WithPair(s, i, l, m, r);
            u.kids[i] == l && u.kids[i + 1] == r && u.keys == s.keys[i := m] && |u.kids| == |s.kids| && u.node == s.node
  {
  }

  /** Replacing a separator by a key on the same side of k leaves the index of k. */
  lemma SameIndex(keys: seq<u16>, k: u16, idx: nat, j: nat, b: u16)
    requires IsIndex(keys, k, idx) && k !in keys && j < |keys| && (if j < idx then b < k else k < b)
    ensures var u := keys[j := b]; k !in u && forall i: nat | IsIndex(u, k, i) :: i == idx
  {
    var u := keys[j := b];
    if idx < |u| {
      assert k <= u[idx];
    }
  }

  /** The heap after PreemptiveLeftRotate. */
  lemma RotatedLeftEnd(s: Shadow, idx: nat, h: nat, t: nat, k: u16) returns (u: Shadow)
    requires h > 0 && idx < |s.keys| == |s.kids| - 1 && t >= 2 && IsIndex(s.keys, k, idx) && k !in s.keys
    requires |s.kids[idx + 1].keys| >= t && |s.kids[idx].keys| == t - 1
    requires Shape(s, h, t) && Ascending(Flat(s)) && Distinct(s)
    requires var c, r := s.kids[idx], s.kids[idx + 1];
             && s.node.keys == s.keys[idx := r.keys[0]] && s.node.children == Refs(s.kids) && !s.node.isLeaf
             && r.node.keys == r.keys[1..] && c.node.keys == c.keys + [s.keys[idx]]
             && r.node.isLeaf == c.node.isLeaf == (h == 1)
             && (if h == 1 then r.node.children == c.node.children == []
                 else && |r.kids| > 0 && r.node.children == Refs(r.kids)[1..]
                      && c.node.children == Refs(c.kids) + [Refs(r.kids)[0]])
             && (forall j | 0 <= j < |r.kids| :: Matches(r.kids[j]))
             && forall j | 0 <= j < |c.kids| :: Matches(c.kids[j])
    requires forall j | 0 <= j < |s.kids| && j != idx && j != idx + 1 :: Matches(s.kids[j])
    ensures u.node == s.node && |u.keys| == |s.keys| && |u.kids| == |u.keys| + 1
    ensures Sound(u, h, t) && Flat(u) == Flat(s) && Nodes(u) <= Nodes(s)
    ensures k !in u.keys && forall i: nat | IsIndex(u.keys, k, i) :: |u.kids[i].keys| >= t
    ensures WentLeft(s, u, idx)
  {
    hide Bag, KidBag, Nodes, Flat, Weave, Matches, Ascending, SetOf, WentLeft, DropFirst, Appended, WithPair;
    PairWentLeft(s, idx);
    var c, r, e := s.kids[idx], s.kids[idx + 1], s.keys[idx];
    var b := r.keys[0];
    KidShape(s, h, t, idx);
    KidShape(s, h, t, idx + 1);
    RotateLeftFacts(c, e, r, h - 1, t);
    var c', r' := Appended(c, e, r), DropFirst(r);
    WithPairFacts(s, h, t, idx, c', b, r');
    u := WithPair(s, idx, c', b, r');
    RotatedLeftHeap(c, e, r, h - 1, t);
    PairKids(s, idx, c', b, r');
    PairMatches(s, idx, c', b, r');
    SmallerDistinct(s, u);
    KeyIsIn(c', h - 1, t, e);
    KidBounds(u, idx, e);
    SameIndex(s.keys, k, idx, idx, b);
  }

  lemma RotatedLeftHeap(c: Shadow, e: u16, r: Shadow, h: nat, t: nat)
    requires Shape(r, h, t) && Shape(c, h, t) && |r.keys| >= 1
    requires && r.node.keys == r.keys[1..] && c.node.keys == c.keys + [e] && r.node.isLeaf == c.node.isLeaf == (h == 0)
             && (if h == 0 then r.node.children == c.node.children == []
                 else && |r.kids| > 0 && r.node.children == Refs(r.kids)[1..]
                      && c.node.children == Refs(c.kids) + [Refs(r.kids)[0]])
    requires (forall j | 0 <= j < |r.kids| :: Matches(r.kids[j])) && forall j | 0 <= j < |c.kids| :: Matches(c.kids[j])
    ensures Matches(DropFirst(r)) && Matches(Appended(c, e, r))
  {
    hide Bag, KidBag, Nodes, Matches, Refs, Shape;
    ShapeKids(r, h, t);
    ShapeKids(c, h, t);
    if h > 0 {
      RefsTake(r.kids, 1);
      RefsCons(r.kids[0], c.kids);
      RefsAt(r.kids, 0);
    } else {
      NoRefs();
    }
    IntroFits(Appended(c, e, r));
    IntroFits(DropFirst(r));
  }

  // ---- merging

  lemma CutRefs(s: Shadow, i: nat)
    requires |s.kids| == |s.keys| + 1 && i < |s.keys|
    ensures var a := Refs(s.kids);
            && a[..i + 1] + a[i + 2..] == a[..i] + [s.kids[i].node] + a[i + 2..]
            && a[..i] + a[i + 1..] == a[..i] + [s.kids[i + 1].node] + a[i + 2..]
    ensures var l, e, r := s.kids[i].keys, s.keys[i], s.kids[i + 1].keys; l + ([e] + r) == l + [e] + r
  {
  }

  /** The heap after one of the combines: children i and i + 1 are now the one node n. */
  lemma CombinedEnd(s: Shadow, i: nat, h: nat, t: nat, k: u16, n: Node) returns (u: Shadow)
    requires h > 0 && i < |s.keys| == |s.kids| - 1 && t >= 2 && (IsIndex(s.keys, k, i) || IsIndex(s.keys, k, i + 1))
    requires k !in s.keys
    requires |s.kids[i].keys| == t - 1 == |s.kids[i + 1].keys| && (n == s.kids[i].node || n == s.kids[i + 1].node)
    requires Shape(s, h, t) && Ascending(Flat(s)) && Distinct(s)
    requires var l, r := s.kids[i], s.kids[i + 1];
             && s.node.keys == s.keys[..i] + s.keys[i + 1..] && !s.node.isLeaf
             && s.node.children == Refs(s.kids)[..i] + [n] + Refs(s.kids)[i + 2..]
             && n.keys == l.keys + [s.keys[i]] + r.keys && n.isLeaf == (h == 1)
             && n.children == (if h == 1 then [] else Refs(l.kids) + Refs(r.kids))
             && (forall j | 0 <= j < |l.kids| :: Matches(l.kids[j]))
             && forall j | 0 <= j < |r.kids| :: Matches(r.kids[j])
    requires forall j | 0 <= j < |s.kids| && j != i && j != i + 1 :: Matches(s.kids[j])
    ensures u.node == s.node && |u.keys| == |s.keys| - 1 && |u.kids| == |u.keys| + 1
    ensures Sound(u, h, t) && Flat(u) == Flat(s) && Nodes(u) <= Nodes(s)
    ensures k !in u.keys && forall j: nat | IsIndex(u.keys, k, j) :: |u.kids[j].keys| >= t
    ensures BecameOne(s, u, i)
  {
    hide Bag, KidBag, Nodes, Flat, Weave, Matches, Ascending, SetOf;
    FusedFacts(s, h, t, i, n);
    u := Fused(s, i, n);
    KidShape(s, h, t, i);
    KidShape(s, h, t, i + 1);
    FusedMatches(s, h, t, i, n);
    SmallerDistinct(s, u);
    KeysAscending(s);
    DroppedIndex(s.keys, k, i);
  }

  lemma DroppedIndex(keys: seq<u16>, k: u16, i: nat)
    requires Ascending(keys) && i < |keys| && (IsIndex(keys, k, i) || IsIndex(keys, k, i + 1)) && k !in keys
    ensures var u := keys[..i] + keys[i + 1..]; k !in u && forall j: nat | IsIndex(u, k, j) :: j == i
  {
    var u := keys[..i] + keys[i + 1..];
    assert forall j | 0 <= j < i :: u[j] == keys[j];
    assert forall j | i <= j < |u| :: u[j] == keys[j + 1];
    if i < |u| {
      assert k <= u[i];
    }
  }

  lemma FusedMatches(s: Shadow, h: nat, t: nat, i: nat, n: Node)
    requires h > 0 && i < |s.keys| == |s.kids| - 1 && Shape(s, h, t)
    requires var l, r := s.kids[i], s.kids[i + 1];
             && s.node.keys == s.keys[..i] + s.keys[i + 1..] && !s.node.isLeaf
             && s.node.children == Refs(s.kids)[..i] + [n] + Refs(s.kids)[i + 2..]
             && n.keys == l.keys + [s.keys[i]] + r.keys && n.isLeaf == (h == 1)
             && n.children == (if h == 1 then [] else Refs(l.kids) + Refs(r.kids))
             && (forall j | 0 <= j < |l.kids| :: Matches(l.kids[j]))
             && forall j | 0 <= j < |r.kids| :: Matches(r.kids[j])
    requires forall j | 0 <= j < |s.kids| && j != i && j != i + 1 :: Matches(s.kids[j])
    ensures Matches(Fused(s, i, n))
  {
    hide Bag, KidBag, Nodes, Matches, Fused, Joined;
    var l, r := s.kids[i], s.kids[i + 1];
    KidShape(s, h, t, i);
    KidShape(s, h, t, i + 1);
    var c := Joined(l, s.keys[i], r, n);
    JoinedMatches(l, s.keys[i], r, n, h - 1);
    FusedRootMatches(s, i, n, c);
  }

  lemma FusedRootMatches(s: Shadow, i: nat, n: Node, c: Shadow)
    requires |s.kids| == |s.keys| + 1 && i < |s.keys| && c == Joined(s.kids[i], s.keys[i], s.kids[i + 1], n)
    requires Matches(c)
    requires s.node.keys == s.keys[..i] + s.keys[i + 1..] && !s.node.isLeaf
    requires s.node.children == Refs(s.kids)[..i] + [n] + Refs(s.kids)[i + 2..]
    requires forall j | 0 <= j < |s.kids| && j != i && j != i + 1 :: Matches(s.kids[j])
    ensures Matches(Fused(s, i, n))
  {
    hide Bag, KidBag, Nodes, Matches;
    var u := Fused(s, i, n);
    assert Refs(u.kids) == Refs(s.kids)[..i] + [n] + Refs(s.kids)[i + 2..];
    forall j | 0 <= j < |u.kids|
      ensures Matches(u.kids[j])
    {
      assert u.kids[j] == if j < i then s.kids[j] else if j == i then c else s.kids[j + 1];
    }
    IntroFits(u);
  }

  lemma JoinedMatches(l: Shadow, k: u16, r: Shadow, n: Node, h: nat)
    requires n.keys == l.keys + [k] + r.keys && n.isLeaf == (h == 0)
    requires if h == 0 then l.kids == r.kids == [] else |l.kids| > 0
    requires n.children == (if h == 0 then [] else Refs(l.kids) + Refs(r.kids))
    requires (forall j | 0 <= j < |l.kids| :: Matches(l.kids[j])) && forall j | 0 <= j < |r.kids| :: Matches(r.kids[j])
    ensures Matches(Joined(l, k, r, n))
  {
    hide Bag, KidBag, Nodes, Matches;
    var c := Joined(l, k, r, n);
    assert Refs(l.kids) + Refs(r.kids) == Refs(c.kids);
    forall j | 0 <= j < |c.kids|
      ensures Matches(c.kids[j])
    {
      assert c.kids[j] == if j < |l.kids| then l.kids[j] else r.kids[j - |l.kids|];
    }
    IntroFits(c);
  }

  // ---- deletion from an inner node

  /** slices.Index of a key that is there. */
  method Index(keys: seq<u16>, k: u16) returns (idx: nat)
    requires k in keys
    ensures idx < |keys| && keys[idx] == k
  {
    ghost var last :| 0 <= last < |keys| && keys[last] == k;
    idx := 0;
    while keys[idx] != k
      invariant idx <= last
      decreases last - idx
    {
      idx := idx + 1;
    }
  }

  ghost function MaxKey(s: Shadow, h: nat, t: nat): u16
    requires Shape(s, h, t) && |s.keys| >= 1 && t >= 2
    decreases h
  {
    if h == 0 then s.keys[|s.keys| - 1] else MaxKey(s.kids[|s.keys|], h - 1, t)
  }

  ghost function MinKey(s: Shadow, h: nat, t: nat): u16
    requires Shape(s, h, t) && |s.keys| >= 1 && t >= 2
    decreases h
  {
    if h == 0 then s.keys[0] else MinKey(s.kids[0], h - 1, t)
  }

  lemma {:induction false} MaxIsLast(s: Shadow, h: nat, t: nat)
    requires Shape(s, h, t) && |s.keys| >= 1 && t >= 2
    ensures LastOf(s, MaxKey(s, h, t))
    decreases h
  {
    hide Weave;
    if h > 0 {
      MaxIsLast(s.kids[|s.keys|], h - 1, t);
      LastDown(s, h, t, MaxKey(s, h, t));
    }
  }

  lemma {:induction false} MinIsFirst(s: Shadow, h: nat, t: nat)
    requires Shape(s, h, t) && |s.keys| >= 1 && t >= 2
    ensures FirstOf(s, MinKey(s, h, t))
    decreases h
  {
    hide Weave;
    if h > 0 {
      MinIsFirst(s.kids[0], h - 1, t);
      FirstDown(s, h, t, MinKey(s, h, t));
    }
  }

  lemma FitsView(c: Shadow, h: nat, t: nat)
    requires Matches(c) && Shape(c, h, t)
    ensures c.node.keys == c.keys && c.node.isLeaf == (h == 0) && |c.node.children| == |c.kids|
    ensures if h == 0 then c.kids == [] else |c.kids| == |c.keys| + 1
    ensures forall j | 0 <= j < |c.kids| :: c.node.children[j] == c.kids[j].node && Matches(c.kids[j])
  {
    hide Bag, KidBag, Nodes;
  }

  /** How the deletion of key i of an inner node goes on: e leaves child j of m. */
  ghost predicate Plan(s: Shadow, m: Shadow, h: nat, t: nat, i: nat, j: nat, k: u16, e: u16) {
    && h > 0 && t >= 2 && Shape(s, h, t) && Ascending(Flat(s)) && Distinct(s)
    && |s.kids| == |s.keys| + 1 && i < |s.keys| && s.keys[i] == k
    && if j == i && e == k then
         |s.kids[i].keys| == t - 1 == |s.kids[i + 1].keys| && m == Fused(s, i, s.kids[i].node)
       else
         && i <= j <= i + 1 && |s.kids[j].keys| >= t && m == s.(keys := s.keys[i := e])
         && if j == i then LastOf(s.kids[j], e) else FirstOf(s.kids[j], e)
  }

  lemma PlanView(s: Shadow, m: Shadow, h: nat, t: nat, i: nat, j: nat, k: u16, e: u16)
    requires Plan(s, m, h, t, i, j, k, e) && Matches(m)
    ensures m.node == s.node && Distinct(m) && Nodes(m) <= Nodes(s) && |s.keys| - 1 <= |m.keys| <= |s.keys|
    ensures j < |m.kids| == |m.keys| + 1 && Sound(m.kids[j], h - 1, t) && |m.kids[j].keys| >= t
    ensures Nodes(m.kids[j]) <= Nodes(m)
    ensures m.node.keys == m.keys && !m.node.isLeaf && |m.node.children| == |m.kids|
    ensures m.node.children[j] == m.kids[j].node
    ensures forall x | 0 <= x < |m.kids| :: Matches(m.kids[x]) && m.node.children[x] == m.kids[x].node
  {
    hide Bag, KidBag, Flat, Weave, Ascending, Nodes, Distinct, Joined;
    if j == i && e == k {
      FusedFacts(s, h, t, i, s.kids[i].node);
      SmallerDistinct(s, m);
      KidShape(m, h, t, j);
      KidAscending(m, j);
    } else {
      KeyBag(s, m.keys);
      KidShape(s, h, t, j);
      KidAscending(s, j);
    }
    OneApart(m, j);
    KidsView(m);
  }

  lemma KeyBag(s: Shadow, keys: seq<u16>)
    ensures Bag(s.(keys := keys)) == Bag(s) && Nodes(s.(keys := keys)) == Nodes(s)
    ensures Distinct(s) ==> Distinct(s.(keys := keys))
  {
    hide Bag, KidBag;
    BagIs(s);
    BagIs(s.(keys := keys));
  }

  lemma PlanFacts(s: Shadow, m: Shadow, h: nat, t: nat, i: nat, j: nat, k: u16, e: u16, c: Shadow)
    requires Plan(s, m, h, t, i, j, k, e) && j < |m.kids|
    requires Shape(c, h - 1, t) && |c.keys| >= t - 1 && Ascending(Flat(c))
    requires SetOf(Flat(c)) == SetOf(Flat(m.kids[j])) - {e}
    ensures var u := m.(kids := m.kids[j := c]);
            Shape(u, h, t) && Ascending(Flat(u)) && SetOf(Flat(u)) == SetOf(Flat(s)) - {k}
  {
    hide Bag, KidBag, Flat, Weave, Ascending, Nodes, Distinct, SetOf;
    if j == i && e == k {
      hide Fused;
      FusedFacts(s, h, t, i, s.kids[i].node);
      FusedIndex(s, i, s.kids[i].node);
      KeyRemoved(k, Flat(m.kids[j]), Flat(c));
      DescentFacts(m, h, t, j, c, k);
    } else {
      BorrowFacts(s, h, t, i, j, e, c);
    }
  }

  lemma FusedIndex(s: Shadow, i: nat, n: Node)
    requires |s.kids| == |s.keys| + 1 && i < |s.keys| && Ascending(Flat(s))
    ensures var m := Fused(s, i, n); IsIndex(m.keys, s.keys[i], i) && s.keys[i] !in m.keys
  {
    hide Flat;
    KeysAscending(s);
  }

  lemma FusedKid(s: Shadow, i: nat)
    requires |s.kids| == |s.keys| + 1 && i < |s.keys|
    ensures var m := Fused(s, i, s.kids[i].node);
            m.node == s.node && i < |m.kids| && m.kids[i].node == s.kids[i].node
  {
  }

  lemma KeyReplaced(s: Shadow, i: nat, e: u16)
    requires i < |s.keys| && s.node.keys == s.keys[i := e] && s.node.isLeaf == (s.kids == [])
    requires |s.node.children| == |s.kids|
    requires forall j | 0 <= j < |s.kids| :: s.node.children[j] == s.kids[j].node && Matches(s.kids[j])
    ensures Matches(s.(keys := s.keys[i := e]))
  {
    hide Bag, KidBag, Nodes, Matches;
    MatchesIntro(s.(keys := s.keys[i := e]));
  }

  lemma KeyRemoved(k: u16, f: seq<u16>, g: seq<u16>)
    requires SetOf(g) == SetOf(f) - {k}
    ensures k !in SetOf(g)
  {
  }

  lemma NothingRemoved(k: u16, f: seq<u16>)
    requires k !in SetOf(f)
    ensures SetOf(f) - {k} == SetOf(f)
  {
  }

  lemma StaysInside(s: Shadow, i: nat, c: Shadow)
    requires i < |s.kids| && Nodes(c) <= Nodes(s.kids[i])
    requires forall x | x in Nodes(s.(kids := s.kids[i := c])) :: x in Nodes(s) || x in Nodes(c)
    ensures Nodes(s.(kids := s.kids[i := c])) <= Nodes(s)
  {
    hide Bag, KidBag, Nodes;
    KidNodes(s, i);
  }

  /** A key has one index. */
  lemma OneIndex(keys: seq<u16>, k: u16)
    ensures forall i: nat, j: nat | IsIndex(keys, k, i) && IsIndex(keys, k, j) :: i == j
  {
  }

  lemma LeafRemoved(s: Shadow, i: nat, t: nat)
    requires Shape(s, 0, t) && Ascending(Flat(s)) && i < |s.keys| && Distinct(s)
    ensures var u := s.(keys := s.keys[..i] + s.keys[i + 1..]);
            && Shape(u, 0, t) && Ascending(Flat(u)) && SetOf(Flat(u)) == SetOf(Flat(s)) - {s.keys[i]}
            && Distinct(u) && Nodes(u) == Nodes(s)
  {
    hide Bag, KidBag;
    KeyBag(s, s.keys[..i] + s.keys[i + 1..]);
    GapAscending(s.keys, i);
    var a, b := s.keys[..i], s.keys[i + 1..];
    assert s.keys == a + [s.keys[i]] + b;
    Around(a, s.keys[i], b);
    Outside(a, s.keys[i], b);
    SetOf3(a, [s.keys[i]], b);
    SetOfParts(a, b);
    SetOfOne(s.keys[i]);
  }

  lemma OnlyKid(s: Shadow)
    requires |s.keys| == 0 && |s.kids| == 1
    ensures Flat(s) == Flat(s.kids[0])
  {
    assert s.kids == [s.kids[0]];
    WeaveOne(s.kids[0]);
  }

  lemma EndsApart(s: Shadow, i: nat, e: u16)
    requires |s.kids| == |s.keys| + 1 && i < |s.keys| && Ascending(Flat(s)) && LastOf(s.kids[i], e)
    ensures e != s.keys[i]
  {
    hide Flat;
    LastIn(Flat(s.kids[i]), e);
    KidBounds(s, i, e);
  }
}
