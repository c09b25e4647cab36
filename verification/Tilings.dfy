/** Partitions of the resource into adjacent blocks, and the steps that keep them partitions. */
module Tilings {

  const HEADER_SIZE := 44
  const CHUNKHEAD_SIZE := 16

  /** The size of the block at each offset where one begins. */
  type Layout = map<nat, nat>

  /** Where block o ends, another block begins or the resource ends. */
  ghost predicate Followed(l: Layout, hi: nat, o: nat)
    requires o in l
  {
    o + l[o] == hi || o + l[o] in l
  }

  /** Block o does not reach into block p. */
  ghost predicate Apart(l: Layout, o: nat, p: nat)
    requires o in l && p in l
  {
    o < p ==> o + l[o] <= p
  }

  /** The blocks exactly tile the bytes from the end of the header up to hi. */
  ghost predicate Tiling(l: Layout, hi: nat) {
    && HEADER_SIZE <= hi
    && (hi == HEADER_SIZE || HEADER_SIZE in l)
    && (forall o | o in l :: HEADER_SIZE <= o && CHUNKHEAD_SIZE <= l[o] && o + l[o] <= hi)
    && (forall o {:trigger Followed(l, hi, o)} | o in l :: Followed(l, hi, o))
    && (forall o, p {:trigger Apart(l, o, p)} | o in l && p in l :: Apart(l, o, p))
  }

  /** What the tiling says of one block and of a pair of blocks. */
  lemma BlockBounds(l: Layout, hi: nat, o: nat)
    requires Tiling(l, hi) && o in l
    ensures HEADER_SIZE <= o && CHUNKHEAD_SIZE <= l[o] && o + l[o] <= hi
    ensures o + l[o] == hi || o + l[o] in l
  {
    assert Followed(l, hi, o);
  }

  lemma BlocksApart(l: Layout, hi: nat, o: nat, p: nat)
    requires Tiling(l, hi) && o in l && p in l && o != p
    ensures o + l[o] <= p || p + l[p] <= o
  {
    assert Apart(l, o, p) && Apart(l, p, o);
  }

  /** A tiling shown block by block and pair by pair. */
  lemma TilingIntro(l: Layout, hi: nat)
    requires HEADER_SIZE <= hi && (hi == HEADER_SIZE || HEADER_SIZE in l)
    requires forall o | o in l :: HEADER_SIZE <= o && CHUNKHEAD_SIZE <= l[o] && o + l[o] <= hi && Followed(l, hi, o)
    requires forall o, p {:trigger Apart(l, o, p)} | o in l && p in l && o != p :: Apart(l, o, p)
    ensures Tiling(l, hi)
  {
  }

  /** Where the blocks begin decides how long they are. */
  lemma StartsDecide(l: Layout, l': Layout, hi: nat)
    requires Tiling(l, hi) && Tiling(l', hi) && l.Keys == l'.Keys
    ensures l == l'
  {
    forall o | o in l ensures l[o] == l'[o] {
      BlockBounds(l, hi, o);
      BlockBounds(l', hi, o);
      if l[o] < l'[o] {
        BlocksApart(l', hi, o, o + l[o]);
      } else if l'[o] < l[o] {
        BlocksApart(l, hi, o, o + l'[o]);
      }
    }
  }

  /** Cutting a block in two, each at least a chunk head long, keeps the tiling. */
  lemma TilingSplit(l: Layout, hi: nat, o: nat, m: nat, n: nat)
    requires Tiling(l, hi)
    requires o in l && m + n == l[o] && m >= CHUNKHEAD_SIZE && n >= CHUNKHEAD_SIZE
    ensures o + m !in l
    ensures Tiling(l[o := m][o + m := n], hi)
  {
    if o + m in l {
      BlocksApart(l, hi, o, o + m);
    }
    var l' := l[o := m][o + m := n];
    forall p | p in l'
      ensures HEADER_SIZE <= p && CHUNKHEAD_SIZE <= l'[p] && p + l'[p] <= hi && Followed(l', hi, p)
    {
      BlockBounds(l, hi, if p == o + m then o else p);
    }
    forall p, q | p in l' && q in l' && p != q ensures Apart(l', p, q) {
      SplitApart(l, hi, o, m, n, p, q);
    }
    TilingIntro(l', hi);
  }

  lemma SplitApart(l: Layout, hi: nat, o: nat, m: nat, n: nat, p: nat, q: nat)
    requires Tiling(l, hi)
    requires o in l && m + n == l[o] && m > 0 && n > 0 && o + m !in l
    requires (p in l || p == o + m) && (q in l || q == o + m) && p != q
    ensures Apart(l[o := m][o + m := n], p, q)
  {
    var p0, q0 := if p == o + m then o else p, if q == o + m then o else q;
    if p0 != q0 {
      BlocksApart(l, hi, p0, q0);
    }
  }

  /** The layout with block o joined to the block that follows it. */
  ghost function Joined(l: Layout, o: nat): Layout
    requires o in l && o + l[o] in l
  {
    (l - {o + l[o]})[o := l[o] + l[o + l[o]]]
  }

  /** Joining two blocks that touch keeps the tiling. */
  lemma TilingMerge(l: Layout, hi: nat, o: nat)
    requires Tiling(l, hi)
    requires o in l && o + l[o] in l
    ensures Tiling(Joined(l, o), hi)
  {
    var l' := Joined(l, o);
    BlockBounds(l, hi, o);
    forall p | p in l'
      ensures HEADER_SIZE <= p && CHUNKHEAD_SIZE <= l'[p] && p + l'[p] <= hi && Followed(l', hi, p)
    {
      MergeBlock(l, hi, o, p);
    }
    forall p, q | p in l' && q in l' && p != q ensures Apart(l', p, q) {
      MergeApart(l, hi, o, p, q);
    }
    TilingIntro(l', hi);
  }

  lemma MergeBlock(l: Layout, hi: nat, o: nat, p: nat)
    requires Tiling(l, hi) && o in l && o + l[o] in l
    requires p in Joined(l, o)
    ensures HEADER_SIZE <= p && CHUNKHEAD_SIZE <= Joined(l, o)[p]
    ensures p + Joined(l, o)[p] <= hi && Followed(Joined(l, o), hi, p)
  {
    BlockBounds(l, hi, p);
    BlockBounds(l, hi, o + l[o]);
    if p != o {
      BlocksApart(l, hi, p, o);
    }
  }

  lemma MergeApart(l: Layout, hi: nat, o: nat, p: nat, q: nat)
    requires Tiling(l, hi) && o in l && o + l[o] in l
    requires p in Joined(l, o) && q in Joined(l, o) && p != q
    ensures Apart(Joined(l, o), p, q)
  {
    BlocksApart(l, hi, p, q);
    BlocksApart(l, hi, o + l[o], q);
  }

  /** Appending a block keeps the tiling. */
  lemma TilingExtend(l: Layout, hi: nat, n: nat)
    requires Tiling(l, hi) && n >= CHUNKHEAD_SIZE
    ensures hi !in l
    ensures Tiling(l[hi := n], hi + n)
  {
    var l' := l[hi := n];
    forall p | p in l' ensures Followed(l', hi + n, p) {
      assert p == hi || Followed(l, hi, p);
    }
    forall p, q | p in l' && q in l' ensures Apart(l', p, q) {
      assert p == hi || q == hi || Apart(l, p, q);
    }
  }

  // ------------------------------------------------------------ what a tiling means

  /** The blocks in address order, from offset o up to hi. */
  ghost function Walk(l: Layout, hi: nat, o: nat): (w: seq<nat>)
    requires Tiling(l, hi) && (o == hi || o in l)
    ensures forall p | p in w :: p in l
    decreases hi - o
  {
    if o == hi then
      []
    else
      BlockBounds(l, hi, o);
      [o] + Walk(l, hi, o + l[o])
  }

  /** A walk from o meets every block from o on, and no other. */
  lemma {:induction false} WalkMembers(l: Layout, hi: nat, o: nat, p: nat)
    requires Tiling(l, hi) && (o == hi || o in l)
    ensures p in Walk(l, hi, o) <==> p in l && o <= p
    decreases hi - o
  {
    if p in l {
      BlockBounds(l, hi, p);
    }
    if o != hi {
      BlockBounds(l, hi, o);
      WalkMembers(l, hi, o + l[o], p);
      if p in l && p != o {
        BlocksApart(l, hi, o, p);
      }
    }
  }

  /** It meets them in address order, and they are few enough for their heads to fit. */
  lemma {:induction false} WalkAscends(l: Layout, hi: nat, o: nat)
    requires Tiling(l, hi) && (o == hi || o in l)
    ensures forall i, j | 0 <= i < j < |Walk(l, hi, o)| :: Walk(l, hi, o)[i] < Walk(l, hi, o)[j]
    ensures CHUNKHEAD_SIZE * |Walk(l, hi, o)| <= hi - o
    decreases hi - o
  {
    if o != hi {
      BlockBounds(l, hi, o);
      var rest := Walk(l, hi, o + l[o]);
      WalkAscends(l, hi, o + l[o]);
      forall p | p in rest ensures o < p {
        WalkMembers(l, hi, o + l[o], p);
      }
      assert Walk(l, hi, o) == [o] + rest;
      assert forall i | 0 <= i < |rest| :: rest[i] in rest;
    }
  }

  /** Every byte past the header lies in exactly one block. */
  lemma ByteInOneBlock(l: Layout, hi: nat, x: nat)
    requires Tiling(l, hi) && HEADER_SIZE <= x < hi
    ensures exists o :: o in l && o <= x < o + l[o]
    ensures forall o, p | o in l && p in l && o <= x < o + l[o] && p <= x < p + l[p] :: o == p
  {
    var o := BlockAround(l, hi, HEADER_SIZE, x);
    forall o, p | o in l && p in l && o <= x < o + l[o] && p <= x < p + l[p] ensures o == p {
      if o != p {
        BlocksApart(l, hi, o, p);
      }
    }
  }

  lemma {:induction false} BlockAround(l: Layout, hi: nat, from: nat, x: nat) returns (o: nat)
    requires Tiling(l, hi) && from in l && from <= x < hi
    ensures o in l && o <= x < o + l[o]
    decreases hi - from
  {
    o := from;
    if from + l[from] <= x {
      BlockBounds(l, hi, from);
      o := BlockAround(l, hi, from + l[from], x);
    }
  }

  /** The bytes of the listed blocks that belong to part. */
  ghost function Bytes(l: Layout, w: seq<nat>, part: set<nat>): nat
    requires forall p | p in w :: p in l
  {
    if w == [] then 0 else (if w[0] in part then l[w[0]] else 0) + Bytes(l, w[1..], part)
  }

  /** The bytes of all blocks of the resource that belong to part. */
  ghost function BytesOf(l: Layout, hi: nat, part: set<nat>): nat
    requires Tiling(l, hi)
  {
    Bytes(l, Walk(l, hi, HEADER_SIZE), part)
  }

  lemma {:induction false} BytesSplit(l: Layout, w: seq<nat>, a: set<nat>, b: set<nat>)
    requires forall p | p in w :: p in l
    requires a !! b
    ensures Bytes(l, w, a + b) == Bytes(l, w, a) + Bytes(l, w, b)
  {
    if w != [] {
      BytesSplit(l, w[1..], a, b);
    }
  }

  lemma {:induction false} BytesAll(l: Layout, hi: nat, o: nat)
    requires Tiling(l, hi) && (o == hi || o in l)
    ensures Bytes(l, Walk(l, hi, o), l.Keys) == hi - o
    decreases hi - o
  {
    if o != hi {
      BlockBounds(l, hi, o);
      BytesAll(l, hi, o + l[o]);
      assert Walk(l, hi, o)[1..] == Walk(l, hi, o + l[o]);
    }
  }

  /** However the blocks are dealt out among three owners, their bytes add up to all there are. */
  lemma BytesConserved(l: Layout, hi: nat, a: set<nat>, b: set<nat>, c: set<nat>)
    requires Tiling(l, hi)
    requires a !! b && (a + b) !! c && a + b + c == l.Keys
    ensures BytesOf(l, hi, a) + BytesOf(l, hi, b) + BytesOf(l, hi, c) == hi - HEADER_SIZE
  {
    var w := Walk(l, hi, HEADER_SIZE);
    BytesSplit(l, w, a, b);
    BytesSplit(l, w, a + b, c);
    BytesAll(l, hi, HEADER_SIZE);
  }
}
