/** When the key blocks of the store form a tree of a given shape. */
module Shapes {
  import opened Bytes
  import opened Blocks
  import opened FreeLists
  import opened Trees

  /** From ptr, the stored child links spell out t. */
  ghost predicate Shape(m: Heap, ptr: nat, t: Tree)
    decreases t
  {
    && ptr == PtrOf(t)
    && (t.Node? ==>
          && ptr != 0 && ptr in m && m[ptr].Key?
          && Shape(m, m[ptr].khead.previous, t.left)
          && Shape(m, m[ptr].khead.next, t.right))
  }

  lemma {:induction false} ShapeFrame(m: Heap, m': Heap, ptr: nat, t: Tree)
    requires Shape(m, ptr, t)
    requires forall o | o in Inorder(t) && o in m :: o in m' && m'[o] == m[o]
    ensures Shape(m', ptr, t)
    decreases t
  {
    if t.Node? {
      ShapeFrame(m, m', m[ptr].khead.previous, t.left);
      ShapeFrame(m, m', m[ptr].khead.next, t.right);
    }
  }

  /** The shape depends on links alone. */
  lemma {:induction false} ShapeLinks(m: Heap, m': Heap, ptr: nat, t: Tree)
    requires Shape(m, ptr, t)
    requires forall o | o in Inorder(t) && o in m && m[o].Key? ::
               o in m' && m'[o].Key? && m'[o].khead.next == m[o].khead.next &&
                 m'[o].khead.previous == m[o].khead.previous
    ensures Shape(m', ptr, t)
    decreases t
  {
    if t.Node? {
      ShapeLinks(m, m', m[ptr].khead.previous, t.left);
      ShapeLinks(m, m', m[ptr].khead.next, t.right);
    }
  }

  lemma {:induction false} ShapeNodes(m: Heap, ptr: nat, t: Tree)
    requires Shape(m, ptr, t)
    ensures forall o | o in Inorder(t) :: o != 0 && o in m && m[o].Key?
    ensures t.Node? ==> ptr in Inorder(t)
    decreases t
  {
    if t.Node? {
      ShapeNodes(m, m[ptr].khead.previous, t.left);
      ShapeNodes(m, m[ptr].khead.next, t.right);
      assert Inorder(t)[|Inorder(t.left)|] == ptr;
    }
  }

  /** The parts of a tree without repeated nodes have no node in common. */
  lemma DistinctParts(t: Tree)
    requires t.Node? && Distinct(Inorder(t))
    ensures Distinct(Inorder(t.left)) && Distinct(Inorder(t.right))
    ensures t.ptr !in Inorder(t.left) && t.ptr !in Inorder(t.right)
    ensures forall o | o in Inorder(t.left) :: o !in Inorder(t.right)
    ensures forall o :: o in Inorder(t) <==> o in Inorder(t.left) || o == t.ptr || o in Inorder(t.right)
  {
    DistinctHalves(Inorder(t.left) + [t.ptr], Inorder(t.right));
    DistinctHalves(Inorder(t.left), [t.ptr]);
  }

  lemma DistinctHalves(a: seq<nat>, b: seq<nat>)
    requires Distinct(a + b)
    ensures Distinct(a) && Distinct(b)
    ensures forall o | o in a :: o !in b
  {
    var s := a + b;
    assert forall i | 0 <= i < |a| :: s[i] == a[i];
    assert forall i | 0 <= i < |b| :: s[|a| + i] == b[i];
  }

  /** The head of a key block with its links aside. */
  ghost predicate SameButLinks(h: KeyHead, h': KeyHead) {
    h' == h.(next := h'.next, previous := h'.previous)
  }

  /** Two stores that differ at most in the links of key blocks. */
  ghost predicate Relinked(m: Heap, m': Heap) {
    && m'.Keys == m.Keys
    && forall o | o in m ::
         if m[o].Key? then m'[o].Key? && m'[o].key == m[o].key && SameButLinks(m[o].khead, m'[o].khead)
         else m'[o] == m[o]
  }

  /** Rewriting one head with other links. */
  lemma RelinkOne(m: Heap, o: nat, h: KeyHead)
    requires o in m && m[o].Key? && SameButLinks(m[o].khead, h)
    ensures Relinked(m, m[o := Key(h, m[o].key)])
  {
  }

  lemma RelinkTrans(m: Heap, m1: Heap, m2: Heap)
    requires Relinked(m, m1) && Relinked(m1, m2)
    ensures Relinked(m, m2)
  {
  }

  /** A parent's head after the child link that was from is pointed at to. */
  function Repointed(h: KeyHead, from: Word, to: Word): KeyHead {
    if h.next == from then h.(next := to) else h.(previous := to)
  }

  /** Nothing outside the listed nodes has changed. */
  ghost predicate OnlyAt(m: Heap, m': Heap, nodes: seq<nat>, p: nat) {
    forall o | o in m && o !in nodes && o != p :: o in m' && m'[o] == m[o]
  }

  /** The block at o is a key block with this head. */
  ghost predicate HeadAt(m: Heap, o: nat, h: KeyHead) {
    o in m && m[o].Key? && m[o].khead == h
  }
}
