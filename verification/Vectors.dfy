/** Values handed over in segments, and how td_store_value takes bytes from their end. */
module Vectors {
  import opened Bytes

  /** A segment of a value, of which the last used bytes have been stored. */
  datatype Seg = Seg(data: seq<Byte>, used: nat)

  ghost function Concat(segs: seq<seq<Byte>>): seq<Byte> {
    if segs == [] then [] else Concat(segs[..|segs| - 1]) + segs[|segs| - 1]
  }

  /** The bytes of the first n segments, used or not. */
  ghost function Before(list: seq<Seg>, n: nat): seq<Byte>
    requires n <= |list|
  {
    if n == 0 then [] else Before(list, n - 1) + list[n - 1].data
  }

  /** Segments before the current one are untouched. */
  ghost predicate Fresh(list: seq<Seg>, offset: nat) {
    && offset < |list|
    && list[offset].used <= |list[offset].data|
    && forall j | 0 <= j < offset :: list[j].used == 0
  }

  /** What is left to be stored. */
  ghost function Remaining(list: seq<Seg>, offset: nat): seq<Byte>
    requires Fresh(list, offset)
  {
    Before(list, offset) + list[offset].data[..|list[offset].data| - list[offset].used]
  }

  /**
   * The bytes a chunk of size n is filled with when the current segment cannot fill it alone. The
   * rest of a segment is read at offset used, though the bytes used so far are those at its end.
   */
  ghost function Copied(list: seq<Seg>, offset: nat, n: nat): (bs: seq<Byte>)
    requires Fresh(list, offset) && n <= |Remaining(list, offset)|
    ensures |bs| == n
  {
    var cur := list[offset];
    var rest := |cur.data| - cur.used;
    if n < rest then cur.data[|cur.data| - n..]
    else if offset == 0 then cur.data[cur.used..]
    else Copied(list, offset - 1, n - rest) + cur.data[cur.used..]
  }

  /** The bytes the next chunk of size n is filled with. */
  ghost function Taken(list: seq<Seg>, offset: nat, n: nat): (bs: seq<Byte>)
    requires Fresh(list, offset) && n <= |Remaining(list, offset)|
    ensures |bs| == n
  {
    var cur := list[offset];
    if n <= |cur.data| - cur.used then cur.data[|cur.data| - cur.used - n..|cur.data| - cur.used]
    else Copied(list, offset, n)
  }

  /** The segments and the one being stored after the copying loop has gathered n bytes. */
  ghost function AfterCopy(list: seq<Seg>, offset: nat, n: nat): (v: (seq<Seg>, nat))
    requires Fresh(list, offset)
    decreases offset
  {
    var cur := list[offset];
    var rest := |cur.data| - cur.used;
    if n < rest then (list[offset := Seg(cur.data, cur.used + n)], offset)
    else if offset == 0 then (list[0 := Seg(cur.data, |cur.data|)], 0)
    else AfterCopy(list[offset := Seg(cur.data, |cur.data|)], offset - 1, n - rest)
  }

  /** The same after a chunk of size n has been filled, with copying or without. */
  ghost function After(list: seq<Seg>, offset: nat, n: nat): (v: (seq<Seg>, nat))
    requires Fresh(list, offset)
  {
    var cur := list[offset];
    if n <= |cur.data| - cur.used then
      (list[offset := Seg(cur.data, cur.used + n)],
       if cur.used + n == |cur.data| && offset != 0 then offset - 1 else offset)
    else AfterCopy(list, offset, n)
  }

  ghost function Last(bs: seq<Byte>, n: nat): seq<Byte>
    requires n <= |bs|
  {
    bs[|bs| - n..]
  }

  /** The struct tdvvec: the segments of a value with a pointer to the one being stored. */
  class SegVec {
    var list: seq<Seg>
    var offset: nat

    constructor (segs: seq<seq<Byte>>)
      requires |segs| > 0
      ensures |list| == |segs| && offset == |segs| - 1
      ensures forall i | 0 <= i < |segs| :: list[i] == Seg(segs[i], 0)
    {
      list := seq(|segs|, i requires 0 <= i < |segs| => Seg(segs[i], 0));
      offset := |segs| - 1;
    }

    /** Fills a chunk from the current segment alone. */
    method TakeNoCopy(n: nat) returns (chunk: seq<Byte>)
      requires Fresh(list, offset) && n <= |list[offset].data| - list[offset].used
      modifies this
      ensures Fresh(list, offset) && |list| == |old(list)| && n <= |Remaining(old(list), old(offset))|
      ensures forall j | 0 <= j < |list| :: list[j].data == old(list)[j].data
      ensures chunk == Taken(old(list), old(offset), n)
      ensures |Remaining(list, offset)| + n == |Remaining(old(list), old(offset))|
      ensures list[offset].used == 0 || offset == old(offset)
      ensures offset <= old(offset)
      ensures Remaining(old(list), old(offset)) == Remaining(list, offset) + chunk
      ensures (list, offset) == After(old(list), old(offset), n)
    {
      var cur := list[offset];
      chunk := cur.data[|cur.data| - cur.used - n..|cur.data| - cur.used];
      list := list[offset := Seg(cur.data, cur.used + n)];
      CurrentShorter(old(list), offset, n);
      if list[offset].used == |list[offset].data| && offset != 0 {
        UsedUp(list, offset);
        hide Remaining, Before;
        offset := offset - 1;
      }
    }

    /** Fills a chunk from several segments; false if they do not have that many bytes. */
    method TakeCopy(n: nat) returns (ok: bool, chunk: seq<Byte>)
      requires Fresh(list, offset) && n > |list[offset].data| - list[offset].used
      modifies this
      ensures ok <==> n <= |Remaining(old(list), old(offset))|
      ensures ok ==> Fresh(list, offset) && |list| == |old(list)|
      ensures ok ==> forall j | 0 <= j < |list| :: list[j].data == old(list)[j].data
      ensures ok ==> chunk == Copied(old(list), old(offset), n)
      ensures ok ==> |Remaining(list, offset)| + n == |Remaining(old(list), old(offset))|
      ensures ok ==> offset <= old(offset)
      ensures ok ==> (list, offset) == After(old(list), old(offset), n)
    {
      hide Copied, Remaining, AfterCopy;
      AfterIsCopy(list, offset, n);
      var left: nat := n;
      chunk := [];
      ghost var whole := |Remaining(list, offset)|;
      while left >= |list[offset].data| - list[offset].used
        invariant Fresh(list, offset) && |list| == |old(list)| && offset <= old(offset)
        invariant forall j | 0 <= j < |list| :: list[j].data == old(list)[j].data
        invariant left + |chunk| == n
        invariant left - |Remaining(list, offset)| == n - whole
        invariant n <= whole ==> Copied(old(list), old(offset), n) == Copied(list, offset, left) + chunk
        invariant AfterCopy(list, offset, left) == AfterCopy(old(list), old(offset), n)
        decreases offset
      {
        ghost var list0, left0 := list, left;
        var cur := list[offset];
        CopyStep(list, offset);
        if left <= |Remaining(list, offset)| {
          CopiedStep(list, offset, left);
        }
        AfterStep(list, offset, left);
        left := left - (|cur.data| - cur.used);
        chunk := cur.data[cur.used..] + chunk;
        list := list[offset := Seg(cur.data, |cur.data|)];
        if offset == 0 {
          return left == 0, chunk;
        }
        offset := offset - 1;
      }
      CopyLast(list, offset, left);
      if left != 0 {
        var cur := list[offset];
        chunk := cur.data[|cur.data| - left..] + chunk;
        list := list[offset := Seg(cur.data, cur.used + left)];
      }
      ok := true;
    }
  }

  lemma AfterIsCopy(list: seq<Seg>, offset: nat, n: nat)
    requires Fresh(list, offset) && n > |list[offset].data| - list[offset].used
    ensures After(list, offset, n) == AfterCopy(list, offset, n)
  {
  }

  /** The bytes taken from the current segment are the last of what remains. */
  lemma CurrentShorter(list: seq<Seg>, offset: nat, n: nat)
    requires Fresh(list, offset) && n <= |list[offset].data| - list[offset].used
    ensures var cur := list[offset];
            var list' := list[offset := Seg(cur.data, cur.used + n)];
            && Fresh(list', offset) && n <= |Remaining(list, offset)|
            && Remaining(list, offset) ==
                 Remaining(list', offset) + cur.data[|cur.data| - cur.used - n..|cur.data| - cur.used]
            && |Remaining(list', offset)| + n == |Remaining(list, offset)|
  {
    var cur := list[offset];
    var list' := list[offset := Seg(cur.data, cur.used + n)];
    BeforeFrame(list, list', offset);
    hide Before;
    var k := |cur.data| - cur.used;
    assert cur.data[..k] == cur.data[..k - n] + cur.data[k - n..k];
  }

  /** A segment that is used up leaves what the segments before it hold. */
  lemma UsedUp(list: seq<Seg>, offset: nat)
    requires Fresh(list, offset) && offset > 0 && list[offset].used == |list[offset].data|
    ensures Fresh(list, offset - 1) && Remaining(list, offset - 1) == Remaining(list, offset)
  {
    var cur := list[offset - 1];
    assert cur.data[..|cur.data|] == cur.data;
    assert list[offset].data[..0] == [];
  }

  /** One round of the copying loop uses up the current segment. */
  lemma CopyStep(list: seq<Seg>, offset: nat)
    requires Fresh(list, offset)
    ensures var cur := list[offset];
            var rest, list' := |cur.data| - cur.used, list[offset := Seg(cur.data, |cur.data|)];
            && Fresh(list', offset)
            && |Remaining(list, offset)| == rest + (if offset == 0 then 0 else |Remaining(list', offset - 1)|)
            && |Remaining(list', offset)| == |Remaining(list, offset)| - rest
            && (offset > 0 ==> |Remaining(list, offset - 1)| == |Remaining(list', offset - 1)|)
  {
    var cur := list[offset];
    var list' := list[offset := Seg(cur.data, |cur.data|)];
    BeforeFrame(list, list', offset);
    if offset > 0 {
      BeforeLonger(list, offset - 1);
      BeforeLonger(list', offset - 1);
    }
  }

  /** What the rounds to come gather stands in front of what this one does. */
  lemma CopiedStep(list: seq<Seg>, offset: nat, n: nat)
    requires Fresh(list, offset) && |list[offset].data| - list[offset].used <= n <= |Remaining(list, offset)|
    ensures var cur := list[offset];
            var rest, list' := |cur.data| - cur.used, list[offset := Seg(cur.data, |cur.data|)];
            if offset == 0 then Copied(list, offset, n) == cur.data[cur.used..]
            else
              && Fresh(list', offset - 1) && n - rest <= |Remaining(list', offset - 1)|
              && Copied(list, offset, n) == Copied(list', offset - 1, n - rest) + cur.data[cur.used..]
  {
    var cur := list[offset];
    CopyStep(list, offset);
    if offset > 0 {
      hide Remaining;
      CopiedFrame(list, list[offset := Seg(cur.data, |cur.data|)], offset - 1, n - (|cur.data| - cur.used));
    }
  }

  lemma AfterStep(list: seq<Seg>, offset: nat, n: nat)
    requires Fresh(list, offset) && n >= |list[offset].data| - list[offset].used
    ensures var cur := list[offset];
            var rest, list' := |cur.data| - cur.used, list[offset := Seg(cur.data, |cur.data|)];
            AfterCopy(list, offset, n) == if offset == 0 then (list', 0) else AfterCopy(list', offset - 1, n - rest)
  {
  }

  /** The copying loop ends inside a segment of which nothing has been used, or with nothing to do. */
  lemma CopyLast(list: seq<Seg>, offset: nat, n: nat)
    requires Fresh(list, offset) && n < |list[offset].data| - list[offset].used
    ensures n <= |Remaining(list, offset)|
    ensures Copied(list, offset, n) == list[offset].data[|list[offset].data| - n..]
    ensures var list' := list[offset := Seg(list[offset].data, list[offset].used + n)];
            && Fresh(list', offset) && |Remaining(list', offset)| + n == |Remaining(list, offset)|
            && AfterCopy(list, offset, n) == (list', offset) && (n == 0 ==> list' == list)
  {
    BeforeFrame(list, list[offset := Seg(list[offset].data, list[offset].used + n)], offset);
  }

  lemma {:induction false} CopiedFrame(list: seq<Seg>, list': seq<Seg>, offset: nat, n: nat)
    requires Fresh(list, offset) && Fresh(list', offset)
    requires forall j | 0 <= j <= offset :: list[j] == list'[j]
    requires n <= |Remaining(list, offset)|
    ensures |Remaining(list', offset)| == |Remaining(list, offset)|
    ensures Copied(list', offset, n) == Copied(list, offset, n)
    decreases offset
  {
    BeforeFrame(list, list', offset);
    var rest := |list[offset].data| - list[offset].used;
    if n >= rest && offset > 0 {
      assert Remaining(list, offset - 1) == Before(list, offset);
      CopiedFrame(list, list', offset - 1, n - rest);
    }
  }

  lemma {:induction false} BeforeFrame(list: seq<Seg>, list': seq<Seg>, n: nat)
    requires n <= |list| && n <= |list'|
    requires forall j | 0 <= j < n :: list[j].data == list'[j].data
    ensures Before(list, n) == Before(list', n)
  {
    if n > 0 {
      BeforeFrame(list, list', n - 1);
    }
  }

  /** What remains is always a front of the whole value. */
  lemma {:induction false} BeforePrefix(list: seq<Seg>, m: nat, n: nat)
    requires m <= n <= |list|
    ensures Before(list, m) <= Before(list, n)
    decreases n
  {
    if m < n {
      BeforePrefix(list, m, n - 1);
    }
  }

  lemma RemainingPrefix(list: seq<Seg>, offset: nat)
    requires Fresh(list, offset)
    ensures Remaining(list, offset) <= Before(list, |list|)
  {
    BeforePrefix(list, offset + 1, |list|);
    assert Remaining(list, offset) <= Before(list, offset + 1);
  }

  /** Copying from a segment none of which has been used takes the bytes it should. */
  lemma {:induction false} CopiedRight(list: seq<Seg>, offset: nat, n: nat)
    requires Fresh(list, offset) && list[offset].used == 0 && n <= |Remaining(list, offset)|
    ensures Copied(list, offset, n) == Last(Remaining(list, offset), n)
    decreases offset
  {
    var cur := list[offset];
    if n >= |cur.data| && offset > 0 {
      assert Remaining(list, offset - 1) == Before(list, offset);
      CopiedRight(list, offset - 1, n - |cur.data|);
    }
  }

  /**
   * When the next chunk is filled with the bytes it should be: if the current segment suffices, or if
   * the bytes of it at offset used happen to be the ones not yet stored.
   */
  lemma TakenExactly(list: seq<Seg>, offset: nat, n: nat)
    requires Fresh(list, offset) && n <= |Remaining(list, offset)|
    ensures var cur := list[offset];
            var rest := |cur.data| - cur.used;
            Taken(list, offset, n) == Last(Remaining(list, offset), n)
            <==> n <= rest || cur.data[cur.used..] == cur.data[..rest]
  {
    var cur := list[offset];
    var rest := |cur.data| - cur.used;
    if n > rest {
      assert offset > 0 && Remaining(list, offset - 1) == Before(list, offset);
      CopiedRight(list, offset - 1, n - rest);
      var due := Last(Remaining(list, offset), n);
      assert due[..n - rest] == Last(Before(list, offset), n - rest) && due[n - rest..] == cur.data[..rest];
      var bs := Taken(list, offset, n);
      assert bs[..n - rest] == due[..n - rest] && bs[n - rest..] == cur.data[cur.used..];
    }
  }

  lemma {:induction false} BeforeIsConcat(list: seq<Seg>, segs: seq<seq<Byte>>, n: nat)
    requires n <= |segs| == |list| && forall i | 0 <= i < n :: list[i].data == segs[i]
    ensures Before(list, n) == Concat(segs[..n])
  {
    if n > 0 {
      BeforeIsConcat(list, segs, n - 1);
      assert segs[..n][..n - 1] == segs[..n - 1];
    }
  }

  // ------------------------------------------------------------ which values are gathered right

  ghost predicate Uniform(bs: seq<Byte>) {
    forall i | 0 <= i < |bs| :: bs[i] == bs[0]
  }

  /** In every segment that has bytes of the value before it, all bytes are the same. */
  ghost predicate Copyable(segs: seq<seq<Byte>>) {
    forall j | 0 < j < |segs| && Concat(segs[..j]) != [] :: Uniform(segs[j])
  }

  ghost predicate Carries(list: seq<Seg>, segs: seq<seq<Byte>>) {
    |list| == |segs| && forall i | 0 <= i < |segs| :: list[i].data == segs[i]
  }

  lemma UniformSlices(bs: seq<Byte>, k: nat)
    requires Uniform(bs) && k <= |bs|
    ensures bs[k..] == bs[..|bs| - k]
  {
    assert forall i | 0 <= i < |bs| :: bs[i] == bs[0];
  }

  /** The next chunk of a copyable value is filled with the bytes it should be. */
  lemma TakenRight(list: seq<Seg>, offset: nat, segs: seq<seq<Byte>>, n: nat)
    requires Fresh(list, offset) && Carries(list, segs) && Copyable(segs) && n <= |Remaining(list, offset)|
    ensures Taken(list, offset, n) == Last(Remaining(list, offset), n)
  {
    TakenExactly(list, offset, n);
    var cur := list[offset];
    if n > |cur.data| - cur.used {
      assert offset > 0;
      BeforeIsConcat(list, segs, offset);
      UniformSlices(segs[offset], cur.used);
    }
  }

  lemma {:induction false} AfterCopyFresh(list: seq<Seg>, offset: nat, n: nat)
    requires Fresh(list, offset) && n <= |Remaining(list, offset)|
    ensures var (list', offset') := AfterCopy(list, offset, n);
            && |list'| == |list| && Fresh(list', offset') &&
                 |Remaining(list', offset')| + n == |Remaining(list, offset)|
            && forall j | 0 <= j < |list| :: list'[j].data == list[j].data
    decreases offset
  {
    hide Remaining;
    var cur := list[offset];
    var rest := |cur.data| - cur.used;
    if n < rest {
      CopyLast(list, offset, n);
    } else {
      CopyStep(list, offset);
      AfterStep(list, offset, n);
      hide AfterCopy;
      if offset > 0 {
        AfterCopyFresh(list[offset := Seg(cur.data, |cur.data|)], offset - 1, n - rest);
      }
    }
  }

  lemma AfterFresh(list: seq<Seg>, offset: nat, n: nat)
    requires Fresh(list, offset) && n <= |Remaining(list, offset)|
    ensures var (list', offset') := After(list, offset, n);
            && |list'| == |list| && Fresh(list', offset') &&
                 |Remaining(list', offset')| + n == |Remaining(list, offset)|
            && forall j | 0 <= j < |list| :: list'[j].data == list[j].data
  {
    hide Remaining, AfterCopy;
    var cur := list[offset];
    if n <= |cur.data| - cur.used {
      CurrentShorter(list, offset, n);
      if cur.used + n == |cur.data| && offset > 0 {
        UsedUp(list[offset := Seg(cur.data, cur.used + n)], offset);
      }
    } else {
      AfterCopyFresh(list, offset, n);
    }
  }

  /** After a chunk has been filled, the rest of what remained remains. */
  lemma AfterRemaining(list: seq<Seg>, offset: nat, n: nat)
    requires Fresh(list, offset) && n <= |Remaining(list, offset)|
    ensures var (list', offset') := After(list, offset, n);
            Fresh(list', offset') && Remaining(list', offset') ==
              Remaining(list, offset)[..|Remaining(list, offset)| - n]
  {
    hide Remaining, After;
    AfterFresh(list, offset, n);
    var (list', offset') := After(list, offset, n);
    RemainingPrefix(list, offset);
    RemainingPrefix(list', offset');
    BeforeFrame(list, list', |list|);
  }

  ghost function Sum(sizes: seq<nat>): nat {
    if sizes == [] then 0 else sizes[0] + Sum(sizes[1..])
  }

  /** What chunks of these sizes, filled one after the other, hold together; each stands in front of the one before. */
  ghost function Gathered(list: seq<Seg>, offset: nat, sizes: seq<nat>): (bs: seq<Byte>)
    requires Fresh(list, offset) && Sum(sizes) <= |Remaining(list, offset)|
    ensures |bs| == Sum(sizes)
    decreases |sizes|
  {
    if sizes == [] then [] else
      AfterFresh(list, offset, sizes[0]);
      var (list', offset') := After(list, offset, sizes[0]);
      Gathered(list', offset', sizes[1..]) + Taken(list, offset, sizes[0])
  }

  ghost function Whole(segs: seq<seq<Byte>>): (list: seq<Seg>)
    ensures |list| == |segs| && Carries(list, segs) && forall i | 0 <= i < |segs| :: list[i].used == 0
  {
    seq(|segs|, i requires 0 <= i < |segs| => Seg(segs[i], 0))
  }

  lemma WholeRemains(segs: seq<seq<Byte>>)
    requires segs != []
    ensures Fresh(Whole(segs), |segs| - 1) && Remaining(Whole(segs), |segs| - 1) == Concat(segs)
  {
    hide Concat, Before, Remaining, Whole;
    BeforeIsAll(Whole(segs), segs);
    NoneUsed(Whole(segs), |segs| - 1);
  }

  lemma BeforeIsAll(list: seq<Seg>, segs: seq<seq<Byte>>)
    requires Carries(list, segs)
    ensures Before(list, |segs|) == Concat(segs)
  {
    hide Concat, Before;
    BeforeIsConcat(list, segs, |segs|);
    assert segs[..|segs|] == segs;
  }

  lemma NoneUsed(list: seq<Seg>, offset: nat)
    requires Fresh(list, offset) && list[offset].used == 0
    ensures Remaining(list, offset) == Before(list, offset + 1)
  {
    assert list[offset].data[..|list[offset].data|] == list[offset].data;
  }

  /** Stored in chunks of these sizes, as far as they go, the value comes out as handed in. */
  ghost predicate GatheredRight(segs: seq<seq<Byte>>, sizes: seq<nat>)
    requires segs != [] && Sum(sizes) <= |Concat(segs)|
  {
    WholeRemains(segs);
    Gathered(Whole(segs), |segs| - 1, sizes) == Last(Concat(segs), Sum(sizes))
  }

  lemma GatheredStep(list: seq<Seg>, offset: nat, sizes: seq<nat>)
    requires Fresh(list, offset) && Sum(sizes) <= |Remaining(list, offset)| && sizes != []
    ensures sizes[0] <= |Remaining(list, offset)| && Sum(sizes) == sizes[0] + Sum(sizes[1..])
    ensures var (list', offset') := After(list, offset, sizes[0]);
            && |list'| == |list| && Fresh(list', offset') &&
                 (forall j | 0 <= j < |list| :: list'[j].data == list[j].data)
            && Remaining(list', offset') == Remaining(list, offset)[..|Remaining(list, offset)| - sizes[0]]
            && Gathered(list, offset, sizes) == Gathered(list', offset', sizes[1..]) + Taken(list, offset, sizes[0])
  {
    AfterFresh(list, offset, sizes[0]);
    AfterRemaining(list, offset, sizes[0]);
    hide Remaining, After, Taken;
  }

  lemma {:induction false} CopyableGathers(list: seq<Seg>, offset: nat, segs: seq<seq<Byte>>, sizes: seq<nat>)
    requires Fresh(list, offset) && Carries(list, segs) && Copyable(segs) && Sum(sizes) <= |Remaining(list, offset)|
    ensures Gathered(list, offset, sizes) == Last(Remaining(list, offset), Sum(sizes))
    decreases |sizes|
  {
    hide Remaining, After, Taken, Copyable;
    if sizes != [] {
      GatheredStep(list, offset, sizes);
      hide Gathered, Last, Sum;
      TakenRight(list, offset, segs, sizes[0]);
      var (list', offset') := After(list, offset, sizes[0]);
      CopyableGathers(list', offset', segs, sizes[1..]);
      LastTwo(Remaining(list, offset), sizes[0], Sum(sizes[1..]));
    }
  }

  lemma LastTwo(all: seq<Byte>, n: nat, m: nat)
    requires n + m <= |all|
    ensures Last(all[..|all| - n], m) + Last(all, n) == Last(all, n + m)
  {
  }

  // ------------------------------------------------------------ the others

  lemma BeforeLonger(list: seq<Seg>, n: nat)
    requires n < |list|
    ensures |Before(list, n + 1)| == |Before(list, n)| + |list[n].data|
  {
  }

  lemma CopyHere(list: seq<Seg>, offset: nat)
    requires Fresh(list, offset) && list[offset].used == 0 && |list[offset].data| >= 2
    ensures AfterCopy(list, offset, 1) == (list[offset := Seg(list[offset].data, 1)], offset)
  {
  }

  /** A copying loop that ends with one byte of a longer segment leaves that segment half used. */
  lemma {:induction false} CopyInto(list: seq<Seg>, offset: nat, k: nat, n: nat)
    requires Fresh(list, offset) && k <= offset && list[offset].used == 0 && |list[k].data| >= 2
    requires n + |Before(list, k + 1)| == |Before(list, offset + 1)| + 1
    ensures var (list', offset') := AfterCopy(list, offset, n);
            offset' == k && |list'| == |list| && list'[k] == Seg(list[k].data, 1)
    decreases offset
  {
    hide Before, AfterCopy;
    BeforeLonger(list, offset);
    if offset == k {
      CopyHere(list, offset);
    } else {
      BeforePrefix(list, k + 1, offset);
      var list' := list[offset := Seg(list[offset].data, |list[offset].data|)];
      BeforeFrame(list, list', k + 1);
      BeforeFrame(list, list', offset);
      AfterStep(list, offset, n);
      CopyInto(list', offset - 1, k, n - |list[offset].data|);
    }
  }

  lemma TakeInto(segs: seq<seq<Byte>>, k: nat)
    requires k < |segs| && |segs[k]| >= 2
    ensures |Concat(segs[..k + 1])| <= |Concat(segs)| && Fresh(Whole(segs), |segs| - 1)
    ensures var (list', offset') := After(Whole(segs), |segs| - 1, |Concat(segs)| - |Concat(segs[..k + 1])| + 1);
            offset' == k && |list'| == |segs| && list'[k] == Seg(segs[k], 1)
  {
    hide Concat, Whole, Before, Remaining, After;
    BeforeIsConcat(Whole(segs), segs, k + 1);
    BeforeIsAll(Whole(segs), segs);
    WholeRemains(segs);
    TakeDownTo(Whole(segs), |segs| - 1, k);
  }

  lemma TakeDownTo(list: seq<Seg>, offset: nat, k: nat)
    requires Fresh(list, offset) && k <= offset && list[offset].used == 0 && |list[k].data| >= 2
    ensures |Before(list, k + 1)| <= |Before(list, offset + 1)|
    ensures var n: nat := |Before(list, offset + 1)| - |Before(list, k + 1)| + 1;
            var (list', offset') := After(list, offset, n);
            offset' == k && |list'| == |list| && list'[k] == Seg(list[k].data, 1)
  {
    hide Before, AfterCopy;
    BeforePrefix(list, k + 1, offset + 1);
    if offset > k {
      BeforeLonger(list, offset);
      BeforePrefix(list, k + 1, offset);
      var n: nat := |Before(list, offset + 1)| - |Before(list, k + 1)| + 1;
      AfterIsCopy(list, offset, n);
      CopyInto(list, offset, k, n);
    }
  }

  lemma {:induction false} ShiftedUniform(bs: seq<Byte>)
    requires |bs| > 0 && bs[1..] == bs[..|bs| - 1]
    ensures Uniform(bs)
  {
    forall i | 0 <= i < |bs| ensures bs[i] == bs[0] {
      StepsAlike(bs, i);
    }
  }

  lemma {:induction false} StepsAlike(bs: seq<Byte>, i: nat)
    requires i < |bs| && bs[1..] == bs[..|bs| - 1]
    ensures bs[i] == bs[0]
  {
    if i > 0 {
      StepsAlike(bs, i - 1);
      assert bs[1..][i - 1] == bs[..|bs| - 1][i - 1];
    }
  }

  /** What the second of two chunks holds, if together they are right. */
  lemma SecondRight(all: seq<Byte>, n: nat, m: nat, first: seq<Byte>, second: seq<Byte>)
    requires n + m <= |all| && |first| == n && |second| == m && second + first == Last(all, n + m)
    ensures second == Last(all[..|all| - n], m)
  {
    LastTwo(all, n, m);
    var other := Last(all[..|all| - n], m);
    assert second == (second + first)[..m] && other == (other + Last(all, n))[..m];
  }

  lemma SumOfTwo(n: nat, m: nat)
    ensures Sum([n, m]) == n + m && Sum([m]) == m && [n, m][1..] == [m]
  {
    assert [n, m][1..] == [m] && [m][1..] == [];
    assert Sum([m]) == m + Sum([m][1..]) && Sum([n, m]) == n + Sum([n, m][1..]);
  }

  /** If two chunks are right together, then so is the second. */
  lemma TwoChunks(list: seq<Seg>, offset: nat, n: nat, m: nat)
    requires Fresh(list, offset) && n + m <= |Remaining(list, offset)|
    ensures Sum([n, m]) == n + m
    ensures var (list', offset') := After(list, offset, n);
            && Fresh(list', offset') && m <= |Remaining(list', offset')|
            && (Gathered(list, offset, [n, m]) == Last(Remaining(list, offset), n + m) ==>
                  Taken(list', offset', m) == Last(Remaining(list', offset'), m))
  {
    hide Remaining, After, Taken, Gathered, Sum, Last;
    SumOfTwo(n, m);
    GatheredStep(list, offset, [n, m]);
    var (list', offset') := After(list, offset, n);
    GatheredStep(list', offset', [m]);
    NoneGathered(After(list', offset', m).0, After(list', offset', m).1, [m][1..]);
    var first, second := Taken(list, offset, n), Taken(list', offset', m);
    if Gathered(list, offset, [n, m]) == Last(Remaining(list, offset), n + m) {
      SecondRight(Remaining(list, offset), n, m, first, second);
    }
  }

  lemma NoneGathered(list: seq<Seg>, offset: nat, sizes: seq<nat>)
    requires sizes == [] && Fresh(list, offset)
    ensures Sum(sizes) == 0 && Gathered(list, offset, sizes) == []
    ensures forall bs: seq<Byte> {:trigger Gathered(list, offset, sizes) + bs} ::
      Gathered(list, offset, sizes) + bs == bs
  {
  }

  /** The two chunk sizes that tell: down to one byte of the k-th segment, and then as many as that segment has. */
  ghost function Telling(segs: seq<seq<Byte>>, k: nat): (sizes: seq<nat>)
    requires k < |segs| && |Concat(segs[..k + 1])| <= |Concat(segs)|
  {
    [|Concat(segs)| - |Concat(segs[..k + 1])| + 1, |segs[k]|]
  }

  lemma TellingSum(segs: seq<seq<Byte>>, k: nat)
    requires k < |segs| && |segs[k]| >= 2 && Concat(segs[..k]) != []
    ensures |Concat(segs[..k + 1])| <= |Concat(segs)|
    ensures Sum(Telling(segs, k)) == Telling(segs, k)[0] + |segs[k]| <= |Concat(segs)|
  {
    TakeInto(segs, k);
    assert segs[..k + 1][..k] == segs[..k];
    SumOfTwo(Telling(segs, k)[0], |segs[k]|);
  }

  /** A segment of different bytes with something before it is stored wrong in chunks of the telling sizes. */
  lemma TellingWrong(segs: seq<seq<Byte>>, k: nat)
    requires k < |segs| && Concat(segs[..k]) != [] && !Uniform(segs[k])
    ensures |Concat(segs[..k + 1])| <= |Concat(segs)| && Sum(Telling(segs, k)) <= |Concat(segs)|
    ensures !GatheredRight(segs, Telling(segs, k))
  {
    TellingSum(segs, k);
    TakeInto(segs, k);
    WholeRemains(segs);
    hide Gathered, Taken, After, Whole, Remaining, Concat, Sum;
    var list, m, n := Whole(segs), |segs| - 1, Telling(segs, k)[0];
    var (list', offset') := After(list, m, n);
    TwoChunks(list, m, n, |segs[k]|);
    TakenExactly(list', k, |segs[k]|);
    if segs[k][1..] == segs[k][..|segs[k]| - 1] {
      ShiftedUniform(segs[k]);
    }
  }

  /** Copyable values are exactly those that come out right whatever the sizes of the chunks. */
  lemma CopyableExactly(segs: seq<seq<Byte>>)
    requires segs != []
    ensures Copyable(segs) <==> forall sizes | Sum(sizes) <= |Concat(segs)| :: GatheredRight(segs, sizes)
  {
    if Copyable(segs) {
      WholeRemains(segs);
      forall sizes | Sum(sizes) <= |Concat(segs)| ensures GatheredRight(segs, sizes) {
        CopyableGathers(Whole(segs), |segs| - 1, segs, sizes);
      }
    } else {
      var k :| 0 < k < |segs| && Concat(segs[..k]) != [] && !Uniform(segs[k]);
      TellingWrong(segs, k);
    }
  }

  lemma HalfUsed()
    ensures var list, list' := [Seg([1, 2, 3], 0), Seg([4, 5], 0)], [Seg([1, 2, 3], 0), Seg([4, 5], 1)];
            && Fresh(list, 1) && |Remaining(list, 1)| == 5 && Fresh(list', 1) && |Remaining(list', 1)| == 4
            && After(list, 1, 1) == (list', 1) && Taken(list, 1, 1) == [5] && Taken(list', 1, 2) == [3, 5]
  {
    var list, list' := [Seg([1, 2, 3], 0), Seg([4, 5], 0)], [Seg([1, 2, 3], 0), Seg([4, 5], 1)];
    assert list[1 := Seg([4, 5], 1)] == list';
    assert Before(list, 1) == Before(list, 0) + [1, 2, 3] && Before(list', 1) == Before(list', 0) + [1, 2, 3];
    assert Copied(list', 1, 2) == Copied(list', 0, 1) + [5] == [3] + [5];
  }

  /** Of the two segments 1 2 3 and 4 5, chunks of one byte and of two store 3 5 5, not 3 4 5. */
  lemma HalfUsedBreaks()
    ensures var segs := [[1, 2, 3], [4, 5]];
            && Sum([1, 2]) == 3 && Fresh(Whole(segs), 1) && Remaining(Whole(segs), 1) == Concat(segs) == [1, 2, 3, 4, 5]
            && Gathered(Whole(segs), 1, [1, 2]) == [3, 5, 5]
  {
    var segs: seq<seq<Byte>> := [[1, 2, 3], [4, 5]];
    assert segs[..1] == [[1, 2, 3]] && Concat([[1, 2, 3]]) == Concat([]) + [1, 2, 3];
    WholeRemains(segs);
    var list, list' := Whole(segs), [Seg([1, 2, 3], 0), Seg([4, 5], 1)];
    assert list == [Seg([1, 2, 3], 0), Seg([4, 5], 0)];
    hide Gathered, Taken, After, Remaining, Whole, Concat, Sum;
    HalfUsed();
    SumOfTwo(1, 2);
    GatheredStep(list, 1, [1, 2]);
    GatheredStep(list', 1, [2]);
    NoneGathered(After(list', 1, 2).0, After(list', 1, 2).1, [2][1..]);
  }
}
