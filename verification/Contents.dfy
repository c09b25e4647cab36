/** The store as its users see it: a sorted list of entries, or, without duplicates, a finite map. */
module Contents {
  import opened Bytes
  import opened Keys
  import opened Records

  type Entries = seq<Entry>

  ghost predicate InOrder(es: Entries) {
    forall i, j | 0 <= i < j < |es| :: Compare(es[i].key, es[j].key, false) <= 0
  }

  /** How many entries at the front have keys smaller than the search key. */
  ghost function Rank(es: Entries, key: seq<Byte>, partial: bool): (n: nat)
    ensures n <= |es|
    ensures forall j | 0 <= j < n :: Compare(key, es[j].key, partial) > 0
    ensures n < |es| ==> Compare(key, es[n].key, partial) <= 0
  {
    if es == [] || Compare(key, es[0].key, partial) <= 0 then 0 else 1 + Rank(es[1..], key, partial)
  }

  lemma RankIs(es: Entries, key: seq<Byte>, partial: bool, n: nat)
    requires n <= |es|
    requires forall j | 0 <= j < n :: Compare(key, es[j].key, partial) > 0
    requires n < |es| ==> Compare(key, es[n].key, partial) <= 0
    ensures Rank(es, key, partial) == n
  {
  }

  /** Whether some entry matches; if so the first that does is the one at the key's rank. */
  ghost predicate Found(es: Entries, key: seq<Byte>, partial: bool) {
    var n := Rank(es, key, partial);
    n < |es| && Compare(key, es[n].key, partial) == 0
  }

  lemma FoundIff(es: Entries, key: seq<Byte>, partial: bool)
    requires InOrder(es)
    ensures Found(es, key, partial) <==> exists j :: 0 <= j < |es| && Compare(key, es[j].key, partial) == 0
  {
    var n := Rank(es, key, partial);
    forall j | 0 <= j < |es| && Compare(key, es[j].key, partial) == 0 ensures Found(es, key, partial) {
      assert j >= n;
      if j > n {
        CompareMonotone(key, es[n].key, es[j].key, partial);
      }
    }
  }

  ghost function Inserted<T>(w: seq<T>, n: nat, x: T): seq<T>
    requires n <= |w|
  {
    w[..n] + [x] + w[n..]
  }

  ghost function Without<T>(w: seq<T>, n: nat): seq<T>
    requires n < |w|
  {
    w[..n] + w[n + 1..]
  }

  // ------------------------------------------------------------ all matches of a prefix

  /** The entries whose keys do not begin with the given bytes. */
  ghost function Purged(es: Entries, prefix: seq<Byte>): (es': Entries)
    ensures |es'| <= |es|
  {
    if es == [] then [] else (if prefix <= es[0].key then [] else [es[0]]) + Purged(es[1..], prefix)
  }

  lemma {:induction false} PurgedParts(a: Entries, b: Entries, prefix: seq<Byte>)
    ensures Purged(a + b, prefix) == Purged(a, prefix) + Purged(b, prefix)
  {
    if a == [] {
      assert a + b == b;
    } else {
      assert (a + b)[1..] == a[1..] + b;
      PurgedParts(a[1..], b, prefix);
    }
  }

  /** Without the first match, the same entries will be left in the end. */
  lemma PurgedOne(es: Entries, prefix: seq<Byte>)
    requires Found(es, prefix, true)
    ensures Purged(Without(es, Rank(es, prefix, true)), prefix) == Purged(es, prefix)
  {
    var n := Rank(es, prefix, true);
    CompareZero(prefix, es[n].key);
    hide Rank, Purged, Compare;
    PurgedParts(es[..n], es[n + 1..], prefix);
    PurgedParts(es[..n], es[n..], prefix);
    PurgedFirst(es[n..], prefix);
    assert es == es[..n] + es[n..] && es[n..][1..] == es[n + 1..];
  }

  lemma PurgedFirst(es: Entries, prefix: seq<Byte>)
    requires es != [] && prefix <= es[0].key
    ensures Purged(es, prefix) == Purged(es[1..], prefix)
  {
  }

  lemma {:induction false} PurgedNone(es: Entries, prefix: seq<Byte>)
    requires forall j | 0 <= j < |es| :: !(prefix <= es[j].key)
    ensures Purged(es, prefix) == es
  {
    if es != [] {
      PurgedNone(es[1..], prefix);
    }
  }

  lemma PurgedDone(es: Entries, prefix: seq<Byte>)
    requires InOrder(es) && !Found(es, prefix, true)
    ensures Purged(es, prefix) == es
  {
    FoundIff(es, prefix, true);
    forall j | 0 <= j < |es| ensures !(prefix <= es[j].key) {
      CompareZero(prefix, es[j].key);
    }
    PurgedNone(es, prefix);
  }

  lemma {:induction false} PurgedAll(es: Entries, prefix: seq<Byte>)
    requires forall j | 0 <= j < |es| :: prefix <= es[j].key
    ensures Purged(es, prefix) == []
  {
    if es != [] {
      PurgedAll(es[1..], prefix);
    }
  }

  /** The keys with a prefix are one stretch of the entries, and exactly that stretch is cut out. */
  lemma PurgedInterval(es: Entries, prefix: seq<Byte>) returns (a: nat, b: nat)
    requires InOrder(es)
    ensures a <= b <= |es| && a == Rank(es, prefix, true)
    ensures forall j | 0 <= j < |es| :: prefix <= es[j].key <==> a <= j < b
    ensures Purged(es, prefix) == es[..a] + es[b..]
  {
    a := Rank(es, prefix, true);
    b := a;
    while b < |es| && prefix <= es[b].key
      invariant a <= b <= |es|
      invariant forall j | a <= j < b :: prefix <= es[j].key
    {
      b := b + 1;
    }
    hide Rank, Purged;
    forall j | 0 <= j < |es| ensures prefix <= es[j].key <==> a <= j < b {
      CompareZero(prefix, es[j].key);
      if j > b {
        PastMatches(es, prefix, a, b, j);
      }
    }
    PurgedAmid(es, prefix, a, b);
  }

  /** What follows the first mismatch behind a match is no match either. */
  lemma PastMatches(es: Entries, prefix: seq<Byte>, a: nat, b: nat, j: nat)
    requires InOrder(es) && a <= b < j < |es| && !(prefix <= es[b].key)
    requires Compare(prefix, es[a].key, true) <= 0
    ensures !(prefix <= es[j].key)
  {
    CompareZero(prefix, es[b].key);
    CompareZero(prefix, es[j].key);
    CompareMonotone(prefix, es[b].key, es[j].key, true);
    if b > a {
      CompareMonotone(prefix, es[a].key, es[b].key, true);
    }
  }

  lemma PurgedAmid(es: Entries, prefix: seq<Byte>, a: nat, b: nat)
    requires a <= b <= |es|
    requires forall j | 0 <= j < |es| :: prefix <= es[j].key <==> a <= j < b
    ensures Purged(es, prefix) == es[..a] + es[b..]
  {
    hide Purged;
    PurgedThree(es[..a], es[a..b], es[b..], prefix);
    assert es == es[..a] + es[a..b] + es[b..];
  }

  lemma PurgedThree(x: Entries, y: Entries, z: Entries, prefix: seq<Byte>)
    requires forall j | 0 <= j < |x| :: !(prefix <= x[j].key)
    requires forall j | 0 <= j < |y| :: prefix <= y[j].key
    requires forall j | 0 <= j < |z| :: !(prefix <= z[j].key)
    ensures Purged(x + y + z, prefix) == x + z
  {
    hide Purged;
    PurgedNone(x, prefix);
    PurgedAll(y, prefix);
    PurgedNone(z, prefix);
    PurgedParts(x, y, prefix);
    PurgedParts(x + y, z, prefix);
    assert x + [] == x;
  }
}
