/** A store without duplicate keys is a finite map from keys to values, and its operations are the map's. */
module Maps {
  import opened Bytes
  import opened Keys
  import opened Records
  import opened Contents
  import opened Trees
  import Puts

  type Dict = map<seq<Byte>, seq<Byte>>

  /** The keys ascend, so none occurs twice. */
  ghost predicate Strict(es: Contents.Entries) {
    forall i, j | 0 <= i < j < |es| :: Compare(es[i].key, es[j].key, false) < 0
  }

  ghost function KeysOf(es: Contents.Entries): set<seq<Byte>> {
    KeysIn(es, 0, |es|)
  }

  /** The keys of a stretch of the entries. */
  ghost function KeysIn(es: Contents.Entries, a: nat, b: nat): set<seq<Byte>>
    requires a <= b <= |es|
  {
    set i | a <= i < b :: es[i].key
  }

  /** What a search for a key finds. */
  ghost function ValueFor(es: Contents.Entries, key: seq<Byte>): seq<Byte> {
    var n := Rank(es, key, false);
    if n < |es| then es[n].value else []
  }

  ghost function MapOf(es: Contents.Entries): (d: Dict)
    ensures d.Keys == KeysOf(es)
  {
    map key | key in KeysOf(es) :: ValueFor(es, key)
  }

  lemma StrictOrdered(es: Contents.Entries)
    requires Strict(es)
    ensures InOrder(es)
  {
  }

  /** An entry ranks where it stands. */
  lemma StrictRank(es: Contents.Entries, j: nat)
    requires Strict(es) && j < |es|
    ensures Rank(es, es[j].key, false) == j && Found(es, es[j].key, false)
    ensures es[j].key in MapOf(es) && MapOf(es)[es[j].key] == es[j].value
  {
    var key := es[j].key;
    CompareZero(key, key);
    forall i | 0 <= i < j ensures Compare(key, es[i].key, false) > 0 {
      CompareTwins(key, es[i].key);
    }
    RankIs(es, key, false, j);
  }

  /** A key is found just when the map has it, and with the map's value. */
  lemma FoundInMap(es: Contents.Entries, key: seq<Byte>)
    requires Strict(es)
    ensures Found(es, key, false) <==> key in MapOf(es)
    ensures Found(es, key, false) ==> es[Rank(es, key, false)] == Entry(key, MapOf(es)[key])
  {
    hide Rank;
    if Found(es, key, false) {
      var n := Rank(es, key, false);
      CompareZero(key, es[n].key);
      StrictRank(es, n);
    }
    if key in MapOf(es) {
      var j :| 0 <= j < |es| && es[j].key == key;
      StrictRank(es, j);
    }
  }

  lemma KeyIndex(es: Contents.Entries, key: seq<Byte>) returns (j: nat)
    requires key in KeysOf(es)
    ensures j < |es| && es[j].key == key
  {
    j :| 0 <= j < |es| && es[j].key == key;
  }

  /** A map that agrees with every entry and has no other keys is the map of the entries. */
  lemma MapIs(es: Contents.Entries, d: Dict)
    requires Strict(es)
    requires forall j | 0 <= j < |es| :: es[j].key in d && d[es[j].key] == es[j].value
    requires forall key | key in d :: key in KeysOf(es)
    ensures MapOf(es) == d
  {
    hide MapOf, Strict, KeysOf;
    forall key | key in KeysOf(es) ensures key in d && MapOf(es)[key] == d[key] {
      var j := KeyIndex(es, key);
      StrictRank(es, j);
    }
  }

  // ------------------------------------------------------------ putting

  lemma StrictInserted(es: Contents.Entries, key: seq<Byte>, value: seq<Byte>)
    requires Strict(es) && !Found(es, key, false)
    ensures Strict(Inserted(es, Rank(es, key, false), Entry(key, value)))
  {
    var n := Rank(es, key, false);
    StrictOrdered(es);
    FoundIff(es, key, false);
    hide Strict, Inserted, Compare;
    forall j | n <= j < |es| ensures Compare(key, es[j].key, false) < 0 {
      if j > n {
        CompareMonotone(key, es[n].key, es[j].key, false);
      }
    }
    forall j | 0 <= j < n ensures Compare(es[j].key, key, false) < 0 {
      CompareTwins(key, es[j].key);
    }
    StrictInsertedAt(es, n, Entry(key, value));
  }

  lemma StrictInsertedAt(es: Contents.Entries, n: nat, e: Entry)
    requires Strict(es) && n <= |es|
    requires forall j | 0 <= j < n :: Compare(es[j].key, e.key, false) < 0
    requires forall j | n <= j < |es| :: Compare(e.key, es[j].key, false) < 0
    ensures Strict(Inserted(es, n, e))
  {
    hide Compare;
    var es' := Inserted(es, n, e);
    assert forall i | 0 <= i < |es'| :: es'[i] == if i < n then es[i] else if i == n then e else es[i - 1];
  }

  lemma InsertedEntry(es: Contents.Entries, n: nat, e: Entry, j: nat)
    requires n <= |es| && Strict(es) && e.key !in KeysOf(es) && j < |Inserted(es, n, e)|
    ensures var x := Inserted(es, n, e)[j];
            x == e || (x.key != e.key && x.key in MapOf(es) && MapOf(es)[x.key] == x.value)
  {
    if j != n {
      StrictRank(es, if j < n then j else j - 1);
    }
  }

  lemma InsertedKey(es: Contents.Entries, n: nat, e: Entry, key: seq<Byte>)
    requires n <= |es| && (key == e.key || key in KeysOf(es))
    ensures key in KeysOf(Inserted(es, n, e))
  {
    if key == e.key {
      assert Inserted(es, n, e)[n].key == key;
    } else {
      var i :| 0 <= i < |es| && es[i].key == key;
      assert Inserted(es, n, e)[if i < n then i else i + 1].key == key;
    }
  }

  /** Whatever place a new entry takes, the map gains its key and value. */
  lemma MapInserted(es: Contents.Entries, n: nat, e: Entry)
    requires n <= |es| && Strict(es) && Strict(Inserted(es, n, e)) && e.key !in KeysOf(es)
    ensures MapOf(Inserted(es, n, e)) == MapOf(es)[e.key := e.value]
  {
    hide Inserted, Strict, Rank, MapOf, KeysOf;
    var es', d := Inserted(es, n, e), MapOf(es)[e.key := e.value];
    forall j | 0 <= j < |es'| ensures es'[j].key in d && d[es'[j].key] == es'[j].value {
      InsertedEntry(es, n, e, j);
    }
    forall key | key in d ensures key in KeysOf(es') {
      InsertedKey(es, n, e, key);
    }
    MapIs(es', d);
  }

  lemma MapReplaced(es: Contents.Entries, n: nat, value: seq<Byte>)
    requires n < |es| && Strict(es)
    ensures var es' := es[n := Entry(es[n].key, value)];
            Strict(es') && MapOf(es') == MapOf(es)[es[n].key := value]
  {
    hide Rank, MapOf;
    var es', d := es[n := Entry(es[n].key, value)], MapOf(es)[es[n].key := value];
    forall j | 0 <= j < |es'| ensures es'[j].key in d && d[es'[j].key] == es'[j].value {
      StrictRank(es, j);
      CompareZero(es[j].key, es[n].key);
    }
    forall key | key in d ensures key in KeysOf(es') {
      if key == es[n].key {
        assert es'[n].key == key;
      } else {
        var i :| 0 <= i < |es| && es[i].key == key;
        assert es'[i].key == key;
      }
    }
    MapIs(es', d);
  }

  /** Without duplicates, a put that succeeds is an update of the map. */
  lemma PutIsUpdate(t: Tree, es: Contents.Entries, es': Contents.Entries, key: seq<Byte>, value: seq<Byte>,
                    noOverwrite: bool)
    requires Strict(es) && Puts.PutOutcome(t, es, es', key, value, false, noOverwrite)
    ensures Strict(es') && MapOf(es') == MapOf(es)[key := value]
  {
    var n := Rank(es, key, false);
    FoundInMap(es, key);
    if Found(es, key, false) {
      MapReplaced(es, n, value);
    } else {
      StrictInserted(es, key, value);
      MapInserted(es, n, Entry(key, value));
    }
  }

  // ------------------------------------------------------------ deleting

  /** The entries without a stretch of them. */
  ghost function Remaining(es: Contents.Entries, a: nat, b: nat): (es': Contents.Entries)
    requires a <= b <= |es|
    ensures |es'| == |es| - (b - a)
    ensures forall i | 0 <= i < |es'| :: es'[i] == if i < a then es[i] else es[i + (b - a)]
  {
    es[..a] + es[b..]
  }

  lemma StrictCut(es: Contents.Entries, a: nat, b: nat)
    requires Strict(es) && a <= b <= |es|
    ensures Strict(Remaining(es, a, b))
  {
  }

  /** Each key that stays is none of those that go. */
  lemma KeyStays(es: Contents.Entries, a: nat, b: nat, j: nat)
    requires Strict(es) && a <= b <= |es| && j < |Remaining(es, a, b)|
    ensures var e := Remaining(es, a, b)[j];
            e.key in MapOf(es) && MapOf(es)[e.key] == e.value && e.key !in KeysIn(es, a, b)
  {
    hide MapOf, Rank;
    var i := if j < a then j else j + (b - a);
    StrictRank(es, i);
    forall k | a <= k < b ensures es[k].key != es[i].key {
      StrictRank(es, k);
    }
  }

  lemma KeysCut(es: Contents.Entries, a: nat, b: nat, key: seq<Byte>)
    requires a <= b <= |es| && key in KeysOf(es) && key !in KeysIn(es, a, b)
    ensures key in KeysOf(Remaining(es, a, b))
  {
    var i :| 0 <= i < |es| && es[i].key == key;
    assert Remaining(es, a, b)[if i < a then i else i - (b - a)].key == key;
  }

  /** Taking a stretch of entries out takes their keys out of the map. */
  lemma CutIsRemoval(es: Contents.Entries, a: nat, b: nat)
    requires Strict(es) && a <= b <= |es|
    ensures Strict(Remaining(es, a, b)) && MapOf(Remaining(es, a, b)) == MapOf(es) - KeysIn(es, a, b)
  {
    var es', d := Remaining(es, a, b), MapOf(es) - KeysIn(es, a, b);
    StrictCut(es, a, b);
    forall j | 0 <= j < |es'| ensures es'[j].key in d && d[es'[j].key] == es'[j].value {
      KeyStays(es, a, b, j);
    }
    forall key | key in d ensures key in KeysOf(es') {
      KeysCut(es, a, b, key);
    }
    hide Remaining, Strict, Rank;
    MapIs(es', d);
  }

  lemma DeleteIsRemoval(es: Contents.Entries, n: nat)
    requires Strict(es) && n < |es|
    ensures Strict(Without(es, n)) && MapOf(Without(es, n)) == MapOf(es) - {es[n].key}
  {
    hide MapOf, Strict;
    CutIsRemoval(es, n, n + 1);
  }

  lemma PrefixKeys(es: Contents.Entries, prefix: seq<Byte>, a: nat, b: nat)
    requires a <= b <= |es| && forall j | 0 <= j < |es| :: prefix <= es[j].key <==> a <= j < b
    ensures forall key | key in KeysOf(es) :: key in KeysIn(es, a, b) <==> prefix <= key
  {
  }

  /** A prefix delete takes exactly the keys with that prefix out of the map. */
  lemma PurgeIsRestriction(es: Contents.Entries, prefix: seq<Byte>)
    requires Strict(es)
    ensures Strict(Purged(es, prefix))
    ensures MapOf(Purged(es, prefix)) == map key | key in MapOf(es) && !(prefix <= key) :: MapOf(es)[key]
  {
    hide Rank, Purged, MapOf, Strict, KeysIn;
    StrictOrdered(es);
    var a, b := PurgedInterval(es, prefix);
    CutIsRemoval(es, a, b);
    PrefixKeys(es, prefix, a, b);
  }

  /** The first entry has the least key of the map. */
  lemma FirstIsLeast(es: Contents.Entries)
    requires Strict(es) && es != []
    ensures es[0].key in MapOf(es) && MapOf(es)[es[0].key] == es[0].value
    ensures forall key | key in MapOf(es) :: Compare(es[0].key, key, false) <= 0
    ensures Strict(es[1..]) && MapOf(es[1..]) == MapOf(es) - {es[0].key}
  {
    StrictRank(es, 0);
    forall key | key in MapOf(es) ensures Compare(es[0].key, key, false) <= 0 {
      var i :| 0 <= i < |es| && es[i].key == key;
      CompareZero(es[0].key, es[0].key);
    }
    DeleteIsRemoval(es, 0);
    assert Without(es, 0) == es[1..];
  }
}
