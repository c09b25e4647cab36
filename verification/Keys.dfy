/** The order of keys: td_compare. */
module Keys {
  import opened Bytes

  /** memcmp over the first n bytes, cut down to its sign. */
  function Memcmp(a: seq<Byte>, b: seq<Byte>, n: nat): (c: int)
    requires n <= |a| && n <= |b|
    ensures -1 <= c <= 1
  {
    if n == 0 then 0
    else if a[0] < b[0] then -1
    else if a[0] > b[0] then 1
    else Memcmp(a[1..], b[1..], n - 1)
  }

  /** Compares a search key with a stored key; a partial match needs the search key to be a front of the stored one. */
  function Compare(key: seq<Byte>, that: seq<Byte>, partial: bool): (c: int)
    ensures -1 <= c <= 1
  {
    if |key| < |that| then
      var r := Memcmp(key, that, |key|);
      if partial then r else if r == 0 then -1 else r
    else if |key| > |that| then
      var r := Memcmp(key, that, |that|);
      if r == 0 then 1 else r
    else
      Memcmp(key, that, |key|)
  }

  /** One byte at a time: the same order as td_compare. */
  lemma CompareStep(a: seq<Byte>, b: seq<Byte>, partial: bool)
    ensures Compare(a, b, partial) ==
            if a == [] then (if b == [] || partial then 0 else -1)
            else if b == [] then 1
            else if a[0] < b[0] then -1
            else if a[0] > b[0] then 1
            else Compare(a[1..], b[1..], partial)
  {
  }

  lemma {:induction false} CompareZero(a: seq<Byte>, b: seq<Byte>)
    ensures Compare(a, b, false) == 0 <==> a == b
    ensures Compare(a, b, true) == 0 <==> a <= b
  {
    CompareStep(a, b, false);
    CompareStep(a, b, true);
    if a != [] && b != [] {
      CompareZero(a[1..], b[1..]);
      assert a == [a[0]] + a[1..] && b == [b[0]] + b[1..];
    }
  }

  lemma {:induction false} CompareTwins(a: seq<Byte>, b: seq<Byte>)
    ensures Compare(a, b, false) == -Compare(b, a, false)
  {
    CompareStep(a, b, false);
    CompareStep(b, a, false);
    if a != [] && b != [] {
      CompareTwins(a[1..], b[1..]);
    }
  }

  /**
   * Along ascending keys, a search key only ever turns from greater to equal to less, also when it may match in
   * part.
   */
  lemma {:induction false} CompareMonotone(key: seq<Byte>, a: seq<Byte>, b: seq<Byte>, partial: bool)
    requires Compare(a, b, false) <= 0
    ensures Compare(key, a, partial) >= Compare(key, b, partial)
  {
    CompareStep(a, b, false);
    CompareStep(key, a, partial);
    CompareStep(key, b, partial);
    if key != [] && a != [] && b != [] && a[0] == b[0] == key[0] {
      CompareMonotone(key[1..], a[1..], b[1..], partial);
    }
  }

  lemma CompareTransitive(a: seq<Byte>, b: seq<Byte>, c: seq<Byte>)
    requires Compare(a, b, false) <= 0 && Compare(b, c, false) <= 0
    ensures Compare(a, c, false) <= 0
  {
    CompareMonotone(c, a, b, false);
    CompareTwins(c, b);
    CompareTwins(c, a);
  }
}
