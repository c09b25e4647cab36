/** Replacing the subtree at the end of a path, in the tree and in the store. */
module Surgery {
  import opened Bytes
  import opened Blocks
  import opened FreeLists
  import opened Trees
  import opened Shapes
  import opened Paths
  import opened Walks

  /** A node with another child on the side the mark names. */
  ghost function WithChild(p: Tree, cmp: int, n: Tree): Tree
    requires p.Node?
  {
    if cmp < 0 then Node(n, p.ptr, p.right) else Node(p.left, p.ptr, n)
  }

  /** The tree with n in the place of the subtree the path leads to. */
  ghost function Replaced(t: Tree, s: Stack, n: Tree): Tree
    requires |s| > 0
    decreases |s|
  {
    if |s| == 1 then n else
      var p := Sub(t, Init(s));
      if p.Leaf? then t else Replaced(t, Init(s), WithChild(p, Top(Init(s)).cmp, n))
  }

  /** The sequence with x in the place of a stretch of it. */
  ghost function Exchanged(w: seq<nat>, b: nat, e: nat, x: seq<nat>): seq<nat>
    requires b <= e <= |w|
  {
    w[..b] + x + w[e..]
  }

  lemma {:induction false} ReplacedInorder(m: Heap, t: Tree, s: Stack, n: Tree)
    requires OnPath(m, t, s)
    ensures Base(t, s) + Weight(Sub(t, s)) <= Weight(t)
    ensures Inorder(Replaced(t, s, n)) == Exchanged(Inorder(t), Base(t, s), Base(t, s) + Weight(Sub(t, s)), Inorder(n))
    decreases |s|
  {
    assert |s| > 0;
    hide Inorder, WithChild, Replaced, Sub, Base, OnPath, Child, Exchanged;
    SubBound(t, s);
    if |s| > 1 {
      ReplacedStep(m, t, s, n);
      SubBound(t, Init(s));
      ReplacedInorder(m, t, Init(s), WithChild(Sub(t, Init(s)), Top(Init(s)).cmp, n));
      AroundStep(m, t, s, n);
    } else {
      WholeExchanged(Inorder(t), Inorder(n));
      ReplacedWhole(t, s, n);
    }
  }

  lemma SubBound(t: Tree, s: Stack)
    requires |s| > 0
    ensures Base(t, s) + Weight(Sub(t, s)) <= |Inorder(t)|
  {
    SubRange(t, s);
  }

  lemma ParentRange(m: Heap, t: Tree, s: Stack)
    requires OnPath(m, t, s) && |s| > 1
    ensures |Init(s)| > 0
    ensures Base(t, Init(s)) + Weight(Sub(t, Init(s))) <= |Inorder(t)|
    ensures Inorder(t)[Base(t, Init(s))..Base(t, Init(s)) + Weight(Sub(t, Init(s)))] == Inorder(Sub(t, Init(s)))
  {
    SubRange(t, Init(s));
  }

  /** Exchanging a subtree is exchanging the stretch of its parent's subtree. */
  lemma AroundStep(m: Heap, t: Tree, s: Stack, n: Tree)
    requires OnPath(m, t, s) && |s| > 1
    ensures Base(t, s) + Weight(Sub(t, s)) <= |Inorder(t)| && Base(t, Init(s)) + Weight(Sub(t, Init(s))) <= |Inorder(t)|
    ensures Sub(t, Init(s)).Node?
    ensures var p := Sub(t, Init(s));
            Exchanged(Inorder(t), Base(t, Init(s)), Base(t, Init(s)) + Weight(p),
              Inorder(WithChild(p, Top(Init(s)).cmp, n)))
            == Exchanged(Inorder(t), Base(t, s), Base(t, s) + Weight(Sub(t, s)), Inorder(n))
  {
    hide Inorder, WithChild, Replaced, Sub, Base, OnPath, Child, Exchanged, Init, Top, Weight;
    ReplacedStep(m, t, s, n);
    ParentRange(m, t, s);
    InorderAround(Inorder(t), Base(t, Init(s)), Sub(t, Init(s)), Top(Init(s)).cmp, n);
  }

  lemma ReplacedWhole(t: Tree, s: Stack, n: Tree)
    requires |s| == 1
    ensures Replaced(t, s, n) == n && Sub(t, s) == t && Base(t, s) == 0
  {
  }

  lemma ReplacedStep(m: Heap, t: Tree, s: Stack, n: Tree)
    requires OnPath(m, t, s) && |s| > 1
    ensures OnPath(m, t, Init(s)) && Sub(t, Init(s)).Node?
    ensures var p, cmp := Sub(t, Init(s)), Top(Init(s)).cmp;
            && Replaced(t, s, n) == Replaced(t, Init(s), WithChild(p, cmp, n))
            && Sub(t, s) == Child(p, cmp)
            && Base(t, s) == Base(t, Init(s)) + if cmp < 0 then 0 else Weight(p.left) + 1
  {
  }

  lemma WholeExchanged(w: seq<nat>, x: seq<nat>)
    ensures Exchanged(w, 0, |w|, x) == x
  {
  }

  lemma InorderAround(w: seq<nat>, b: nat, p: Tree, cmp: int, n: Tree)
    requires p.Node? && b + Weight(p) <= |w| && w[b..b + Weight(p)] == Inorder(p)
    ensures var b' := b + if cmp < 0 then 0 else Weight(p.left) + 1;
            var e' := b' + Weight(Child(p, cmp));
            && e' <= |w|
            && Exchanged(w, b, b + Weight(p), Inorder(WithChild(p, cmp, n))) == Exchanged(w, b', e', Inorder(n))
  {
    hide Inorder, Exchanged;
    InorderNode(p.left, p.ptr, p.right);
    if cmp < 0 {
      InorderNode(n, p.ptr, p.right);
      LeftPart(w, b, Inorder(p.left), p.ptr, Inorder(p.right), Inorder(n));
    } else {
      InorderNode(p.left, p.ptr, n);
      RightPart(w, b, Inorder(p.left), p.ptr, Inorder(p.right), Inorder(n));
    }
  }

  lemma LeftPart(w: seq<nat>, b: nat, l: seq<nat>, q: nat, r: seq<nat>, n: seq<nat>)
    requires b + |l| + 1 + |r| <= |w| && w[b..b + |l| + 1 + |r|] == l + [q] + r
    ensures Exchanged(w, b, b + |l| + 1 + |r|, n + [q] + r) == Exchanged(w, b, b + |l|, n)
  {
    var e := b + |l| + 1 + |r|;
    assert w[b + |l|..e] == w[b..e][|l|..] == [q] + r;
    assert w[b + |l|..] == w[b + |l|..e] + w[e..];
  }

  lemma RightPart(w: seq<nat>, b: nat, l: seq<nat>, q: nat, r: seq<nat>, n: seq<nat>)
    requires b + |l| + 1 + |r| <= |w| && w[b..b + |l| + 1 + |r|] == l + [q] + r
    ensures Exchanged(w, b, b + |l| + 1 + |r|, l + [q] + n) == Exchanged(w, b + |l| + 1, b + |l| + 1 + |r|, n)
  {
    var e := b + |l| + 1 + |r|;
    assert w[b..b + |l| + 1] == w[b..e][..|l| + 1] == l + [q];
    assert w[..b + |l| + 1] == w[..b] + w[b..b + |l| + 1];
  }

  lemma {:induction false} SubNodes(m: Heap, t: Tree, s: Stack)
    requires |s| > 0 && Distinct(Inorder(t)) && OnPath(m, t, s)
    ensures Distinct(Inorder(Sub(t, s)))
    ensures forall o | o in Inorder(Sub(t, s)) :: o in Inorder(t)
    decreases |s|
  {
    if |s| > 1 {
      SubNodes(m, t, Init(s));
      DistinctParts(Sub(t, Init(s)));
    }
  }

  /** A change inside a subtree that leaves its root where it was is a change inside the tree. */
  lemma {:induction false} ReplacedSame(m: Heap, m': Heap, t: Tree, root: nat, s: Stack, n: Tree)
    requires Shape(m, root, t) && Distinct(Inorder(t)) && OnPath(m, t, s)
    requires Shape(m', Top(s).ptr, n)
    requires forall o | o in Inorder(t) && o !in Inorder(Sub(t, s)) && o in m :: o in m' && m'[o] == m[o]
    ensures Shape(m', root, Replaced(t, s, n))
    decreases |s|
  {
    if |s| > 1 {
      var s1 := Init(s);
      var p := Sub(t, s1);
      SubShape(m, t, root, s1);
      SubNodes(m, t, s1);
      DistinctParts(p);
      ShapeNodes(m, Top(s1).ptr, p);
      OtherChild(m, m', Top(s1).ptr, p, Top(s1).cmp);
      ReplacedSame(m, m', t, root, s1, WithChild(p, Top(s1).cmp, n));
    }
  }

  /** The child that is not replaced is as it was. */
  lemma OtherChild(m: Heap, m': Heap, ptr: nat, p: Tree, cmp: int)
    requires Shape(m, ptr, p) && p.Node? && Distinct(Inorder(p))
    requires forall o | o in Inorder(p) && o !in Inorder(Child(p, cmp)) && o != ptr && o in m ::
      o in m' && m'[o] == m[o]
    ensures cmp < 0 ==> Shape(m', m[ptr].khead.next, p.right)
    ensures cmp >= 0 ==> Shape(m', m[ptr].khead.previous, p.left)
  {
    DistinctParts(p);
    if cmp < 0 {
      ShapeFrame(m, m', m[ptr].khead.next, p.right);
    } else {
      ShapeFrame(m, m', m[ptr].khead.previous, p.left);
    }
  }

  /** A node's head with the link on the side the mark names pointed elsewhere. */
  function Turned(h: KeyHead, cmp: int, to: Word): KeyHead {
    if cmp < 0 then h.(previous := to) else h.(next := to)
  }

  /** Hanging another subtree from the parent. */
  lemma ReplacedBelow(m: Heap, m': Heap, t: Tree, root: nat, s: Stack, n: Tree)
    requires Shape(m, root, t) && Distinct(Inorder(t)) && OnPath(m, t, s) && |s| > 1
    requires PtrOf(n) < WORD_LIMIT && Shape(m', PtrOf(n), n)
    requires HeadAt(m', Top(Init(s)).ptr, Turned(Top(Init(s)).head, Top(Init(s)).cmp, PtrOf(n)))
    requires forall o | o in Inorder(t) && o !in Inorder(Sub(t, s)) && o != Top(Init(s)).ptr && o in m ::
      o in m' && m'[o] == m[o]
    ensures Shape(m', root, Replaced(t, s, n))
  {
    var s1 := Init(s);
    var p := Sub(t, s1);
    SubShape(m, t, root, s1);
    SubNodes(m, t, s1);
    DistinctParts(p);
    ShapeNodes(m, Top(s1).ptr, p);
    OtherChild(m, m', Top(s1).ptr, p, Top(s1).cmp);
    assert Shape(m', Top(s1).ptr, WithChild(p, Top(s1).cmp, n));
    ReplacedSame(m, m', t, root, s1, WithChild(p, Top(s1).cmp, n));
  }

  /** A replacement seen from the root. */
  lemma {:induction false} ReplacedFromRoot(m: Heap, t: Tree, s: Stack, n: Tree)
    requires OnPath(m, t, s) && |s| > 1
    ensures t.Node?
    ensures Replaced(t, s, n) == WithChild(t, s[0].cmp, Replaced(Child(t, s[0].cmp), s[1..], n))
    decreases |s|
  {
    FromRoot(m, t, s);
    if |s| > 2 {
      var s1 := Init(s);
      FromRoot(m, t, s1);
      assert Init(s[1..]) == s1[1..] && s1[0] == s[0];
      var p := Sub(t, s1);
      ReplacedFromRoot(m, t, s1, WithChild(p, Top(s1).cmp, n));
    } else {
      assert Init(s) == [s[0]] && s[1..] == [s[1]];
    }
  }

  /** Giving the leftmost node a left child is grafting. */
  lemma {:induction false} GraftedIsReplaced(m: Heap, t: Tree, s: Stack, l: Tree)
    requires Resting(m, t, s) && Pos(t, s) == 0
    ensures Sub(t, s).Node? && Sub(t, s).left == Leaf && t.Node?
    ensures Replaced(t, s, Node(l, Sub(t, s).ptr, Sub(t, s).right)) == Grafted(t, l)
    decreases t
  {
    PlaceSide(m, t, s);
    if |s| > 1 {
      FromRoot(m, t, s);
      ReplacedFromRoot(m, t, s, Node(l, Sub(t, s).ptr, Sub(t, s).right));
      GraftedIsReplaced(m, t.left, s[1..], l);
    } else {
      EmptyIsLeaf(t.left);
    }
  }

  lemma EmptyIsLeaf(t: Tree)
    requires Weight(t) == 0
    ensures t == Leaf
  {
  }
}
