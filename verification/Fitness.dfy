/** Which free chunk a claim settles on: the fitness table of td_claim. */
module Fitness {
  import opened Tilings

  const NFITRECORDS := 8

  /** A chunk that is not a perfect fit is an option if it can be split, or used up by a caller content with less. */
  predicate Fits(have: nat, want: nat, contiguous: bool) {
    want + CHUNKHEAD_SIZE <= have || (!contiguous && want > have)
  }

  /** How far a chunk is from the request, the fitness record's dif. */
  function Dif(have: nat, want: nat): nat {
    if want + CHUNKHEAD_SIZE <= have then have - CHUNKHEAD_SIZE - want
    else if want > have then want - have
    else 0
  }

  /** The positions of the options among the first n chunks, in list order. */
  function Table(sizes: seq<nat>, want: nat, contiguous: bool, n: nat): (t: seq<nat>)
    requires n <= |sizes|
    ensures |t| <= n
    ensures forall m | 0 <= m < |t| :: t[m] < n && Fits(sizes[t[m]], want, contiguous)
  {
    if n == 0 then []
    else Table(sizes, want, contiguous, n - 1) + if Fits(sizes[n - 1], want, contiguous) then [n - 1] else []
  }

  /**
   * The claim, having looked at the first n chunks, settles on the i-th: the first perfect fit met
   * before the table is full, or else the first of those options whose dif is greatest.
   */
  ghost predicate Picks(sizes: seq<nat>, want: nat, contiguous: bool, i: nat, n: nat) {
    && i < n <= |sizes|
    && |Table(sizes, want, contiguous, n - 1)| < NFITRECORDS
    && (forall j | 0 <= j < n - 1 :: sizes[j] != want)
    && if sizes[n - 1] == want then i == n - 1 else
         && (n == |sizes| || |Table(sizes, want, contiguous, n)| == NFITRECORDS)
         && Fits(sizes[i], want, contiguous)
         && (forall j | 0 <= j < n && Fits(sizes[j], want, contiguous) :: Dif(sizes[j], want) <= Dif(sizes[i], want))
         && (forall j | 0 <= j < i && Fits(sizes[j], want, contiguous) :: Dif(sizes[j], want) < Dif(sizes[i], want))
  }

  /** No chunk is a perfect fit or an option. */
  ghost predicate NoneFits(sizes: seq<nat>, want: nat, contiguous: bool) {
    forall j | 0 <= j < |sizes| :: sizes[j] != want && !Fits(sizes[j], want, contiguous)
  }

  /** In other words: every chunk is too small to be split, and too large to be used up if that is allowed. */
  lemma NoneFitsMeans(sizes: seq<nat>, want: nat, contiguous: bool)
    ensures NoneFits(sizes, want, contiguous) <==>
            if contiguous then forall j | 0 <= j < |sizes| :: sizes[j] != want && sizes[j] < want + CHUNKHEAD_SIZE
            else forall j | 0 <= j < |sizes| :: want < sizes[j] < want + CHUNKHEAD_SIZE
  {
  }

  /** If nothing fits, one chunk more helps unless it falls into a gap, of 15 sizes if less is welcome too. */
  lemma OneMoreHelps(g: nat, sizes: seq<nat>, want: nat, contiguous: bool)
    requires NoneFits(sizes, want, contiguous)
    ensures NoneFits([g] + sizes, want, contiguous) <==>
            g != want && g < want + CHUNKHEAD_SIZE && (contiguous || g > want)
  {
    assert forall j | 0 < j <= |sizes| :: ([g] + sizes)[j] == sizes[j - 1];
    if NoneFits([g] + sizes, want, contiguous) {
      assert ([g] + sizes)[0] == g;
    }
  }

  /** A caller that insists on contiguous space gets a perfect fit, or else of the options seen a largest one. */
  lemma PicksLargest(sizes: seq<nat>, want: nat, i: nat, n: nat)
    requires Picks(sizes, want, true, i, n)
    ensures sizes[n - 1] == want ==> i == n - 1
    ensures sizes[n - 1] != want ==>
              && sizes[i] >= want + CHUNKHEAD_SIZE
              && (forall j | 0 <= j < n :: sizes[j] <= sizes[i])
              && (forall j | 0 <= j < i :: sizes[j] < sizes[i])
  {
    if sizes[n - 1] != want {
      forall j | 0 <= j < n && sizes[j] >= want + CHUNKHEAD_SIZE ensures sizes[j] <= sizes[i] {
        assert Fits(sizes[j], want, true);
      }
      forall j | 0 <= j < i ensures sizes[j] < sizes[i] {
        assert sizes[j] >= want + CHUNKHEAD_SIZE ==> Fits(sizes[j], want, true);
      }
    }
  }

  /**
   * Any other caller gets, of the options seen, the one farthest from the request: of those that can be split
   * a largest, of those that are used up a smallest, and between the two what is left over counts.
   */
  lemma PicksFarthest(sizes: seq<nat>, want: nat, i: nat, n: nat, j: nat)
    requires Picks(sizes, want, false, i, n) && sizes[n - 1] != want
    requires j < n && (sizes[j] < want || sizes[j] >= want + CHUNKHEAD_SIZE)
    ensures sizes[i] < want || sizes[i] >= want + CHUNKHEAD_SIZE
    ensures sizes[i] > want && sizes[j] > want ==> sizes[j] <= sizes[i]
    ensures sizes[i] < want && sizes[j] < want ==> sizes[i] <= sizes[j]
    ensures sizes[i] > want && sizes[j] < want ==> want - sizes[j] <= sizes[i] - want - CHUNKHEAD_SIZE
    ensures sizes[i] < want && sizes[j] > want ==> sizes[j] - want - CHUNKHEAD_SIZE <= want - sizes[i]
  {
    assert Fits(sizes[j], want, false);
  }

  lemma {:induction false} AllOptions(sizes: seq<nat>, want: nat, contiguous: bool, n: nat)
    requires n <= |sizes| && forall j | 0 <= j < n :: sizes[j] >= want + CHUNKHEAD_SIZE
    ensures |Table(sizes, want, contiguous, n)| == n
  {
    if n > 0 {
      AllOptions(sizes, want, contiguous, n - 1);
    }
  }

  /** Of nine chunks that can be split only the first eight are looked at: the largest may be missed. */
  lemma EightAreSeen(contiguous: bool)
    ensures Picks([100, 100, 100, 100, 100, 100, 100, 200, 300], 50, contiguous, 7, 8)
  {
    var sizes: seq<nat> := [100, 100, 100, 100, 100, 100, 100, 200, 300];
    AllOptions(sizes, 50, contiguous, 7);
    AllOptions(sizes, 50, contiguous, 8);
  }

  // ------------------------------------------------------------ room

  /** The size of the largest chunk. */
  ghost function Largest(sizes: seq<nat>): (n: nat)
    ensures forall j | 0 <= j < |sizes| :: sizes[j] <= n
    ensures sizes != [] ==> n in sizes
  {
    if sizes == [] then 0 else
      var m := Largest(sizes[1..]);
      assert forall j | 0 < j < |sizes| :: sizes[j] == sizes[1..][j - 1];
      if m > sizes[0] then m else sizes[0]
  }

  /** A chunk that can be split is always an option. */
  lemma RoomFits(sizes: seq<nat>, want: nat, contiguous: bool)
    requires Largest(sizes) >= want + CHUNKHEAD_SIZE
    ensures !NoneFits(sizes, want, contiguous)
  {
    var j :| 0 <= j < |sizes| && sizes[j] == Largest(sizes);
    assert Fits(sizes[j], want, contiguous);
  }

  lemma RoomWith(g: nat, sizes: seq<nat>)
    ensures Largest([g] + sizes) >= Largest(sizes)
  {
    assert ([g] + sizes)[1..] == sizes;
  }

  /** The table misses no option. */
  lemma {:induction false} TableComplete(sizes: seq<nat>, want: nat, contiguous: bool, n: nat, j: nat)
    requires j < n <= |sizes| && Fits(sizes[j], want, contiguous)
    ensures j in Table(sizes, want, contiguous, n)
  {
    if j == n - 1 {
      assert Table(sizes, want, contiguous, n)[|Table(sizes, want, contiguous, n)| - 1] == j;
    } else {
      TableComplete(sizes, want, contiguous, n - 1, j);
    }
  }

  lemma {:induction false} TableAscends(sizes: seq<nat>, want: nat, contiguous: bool, n: nat)
    requires n <= |sizes|
    ensures forall x, y | 0 <= x < y < |Table(sizes, want, contiguous, n)| ::
              Table(sizes, want, contiguous, n)[x] < Table(sizes, want, contiguous, n)[y]
  {
    if n > 0 {
      TableAscends(sizes, want, contiguous, n - 1);
    }
  }

  lemma {:induction false} TableGrows(sizes: seq<nat>, want: nat, contiguous: bool, m: nat, n: nat)
    requires m <= n <= |sizes|
    ensures |Table(sizes, want, contiguous, m)| <= |Table(sizes, want, contiguous, n)|
    decreases n - m
  {
    if m < n {
      TableGrows(sizes, want, contiguous, m, n - 1);
    }
  }

  /** The request, the list and the mode determine the choice. */
  lemma PicksUnique(sizes: seq<nat>, want: nat, contiguous: bool, i: nat, n: nat, i': nat, n': nat)
    requires Picks(sizes, want, contiguous, i, n) && Picks(sizes, want, contiguous, i', n')
    ensures i == i' && n == n'
  {
    if n < n' {
      TableGrows(sizes, want, contiguous, n, n' - 1);
    } else if n' < n {
      TableGrows(sizes, want, contiguous, n', n - 1);
    }
  }

  /** If no chunk of the list fits, the choice among the list with one more in front is that one. */
  lemma PicksNew(first: nat, sizes: seq<nat>, want: nat, contiguous: bool, i: nat, n: nat)
    requires NoneFits(sizes, want, contiguous)
    requires Picks([first] + sizes, want, contiguous, i, n)
    ensures i == 0
  {
    if i > 0 {
      assert ([first] + sizes)[i] == sizes[i - 1];
    }
  }
}
