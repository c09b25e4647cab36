/** What a whole store means: sorted entries of key and value, each byte of which is accounted for. */
module Records {
  import opened Bytes
  import opened Blocks
  import opened FreeLists
  import opened Trees
  import opened Shapes
  import opened Chains
  import opened Search

  datatype Entry = Entry(key: seq<Byte>, value: seq<Byte>)

  ghost function ValueAt(m: Heap, o: nat): nat {
    if o in m && m[o].Key? then m[o].khead.value else 0
  }

  ghost function ChainOf(chains: map<nat, seq<nat>>, p: nat): seq<nat> {
    if p in chains then chains[p] else []
  }

  ghost function EntryAt(m: Heap, chains: map<nat, seq<nat>>, o: nat): Entry {
    Entry(KeyAt(m, o), DataOf(m, ChainOf(chains, ValueAt(m, o))))
  }

  /** The entries of the listed nodes. */
  ghost function Entries(m: Heap, chains: map<nat, seq<nat>>, w: seq<nat>): (es: seq<Entry>)
    ensures |es| == |w|
    ensures forall i | 0 <= i < |w| :: es[i] == EntryAt(m, chains, w[i])
  {
    seq(|w|, i requires 0 <= i < |w| => EntryAt(m, chains, w[i]))
  }

  /** The key blocks form a tree in which every one of them occurs once. */
  ghost predicate Indexed(m: Heap, top: nat, t: Tree) {
    && Shape(m, top, t)
    && Distinct(Inorder(t))
    && forall o | o in m && m[o].Key? :: o in Inorder(t)
  }

  ghost predicate Referred(m: Heap, v: nat) {
    exists o :: o in m && m[o].Key? && m[o].khead.value == v
  }

  /** The keys have the listed values, each key one of its own, and no value is without a key. */
  ghost predicate Assigned(m: Heap, vs: set<nat>) {
    && (forall o | o in m && m[o].Key? :: m[o].khead.value in vs)
    && (forall o, p | o in m && m[o].Key? && p in m && m[p].Key? && o != p :: m[o].khead.value != m[p].khead.value)
    && (forall v | v in vs :: Referred(m, v))
  }

  /** Each key has a value of its own, and every value but the spare ones has a key. */
  ghost predicate Valued(m: Heap, chains: map<nat, seq<nat>>, spare: set<nat>) {
    Chained(m, chains) && spare <= chains.Keys && Assigned(m, chains.Keys - spare)
  }

  /** No block is left over: each is a key or part of a value. */
  ghost predicate NoRaw(m: Heap) {
    forall o | o in m :: m[o].Key? || m[o].Chunk?
  }

  lemma SumsRelinked(m: Heap, m': Heap)
    requires Relinked(m, m')
    ensures SumsKept(m, m')
  {
  }

  lemma SumsWith(m: Heap, o: nat, b: Block)
    requires SummedAt(b)
    ensures SumsKept(m, m[o := b])
  {
  }

  lemma SumsRemoved(m: Heap, m1: Heap, chain: seq<nat>, o: nat, h: KeyHead)
    requires Removed(m, m1, chain) && o in m1 && m1[o].Key? && h == m1[o].khead.(value := h.value)
    ensures SumsKept(m, m1[o := Key(h, m1[o].key)])
  {
  }

  // ------------------------------------------------------------ frames

  /** The two stores have the same keys with the same values. */
  ghost predicate SameValues(m: Heap, m': Heap) {
    && (forall o | o in m && m[o].Key? ::
          o in m' && m'[o].Key? && m'[o].key == m[o].key && m'[o].khead.value == m[o].khead.value)
    && (forall o | o in m' && m'[o].Key? :: o in m && m[o].Key?)
  }

  lemma AssignedFrame(m: Heap, m': Heap, vs: set<nat>)
    requires Assigned(m, vs) && SameValues(m, m')
    ensures Assigned(m', vs)
  {
    forall v | v in vs ensures Referred(m', v) {
      var o :| o in m && m[o].Key? && m[o].khead.value == v;
      assert o in m' && m'[o].Key? && m'[o].khead.value == v;
    }
  }

  lemma AssignedAdd(m: Heap, vs: set<nat>, v: nat, o: nat, b: Block)
    requires Assigned(m, vs) && v !in vs && o !in m && b.Key? && b.khead.value == v
    ensures Assigned(m[o := b], vs + {v})
  {
    var m' := m[o := b];
    forall u | u in vs + {v} ensures Referred(m', u) {
      if u == v {
        assert o in m' && m'[o].Key? && m'[o].khead.value == u;
      } else {
        var p :| p in m && m[p].Key? && m[p].khead.value == u;
        assert p in m' && m'[p].Key? && m'[p].khead.value == u;
      }
    }
  }

  lemma AssignedRemove(m: Heap, vs: set<nat>, o: nat)
    requires Assigned(m, vs) && o in m && m[o].Key?
    ensures Assigned(m - {o}, vs - {m[o].khead.value})
  {
    var m' := m - {o};
    forall u | u in vs - {m[o].khead.value} ensures Referred(m', u) {
      var p :| p in m && m[p].Key? && m[p].khead.value == u;
      assert p in m' && m'[p].Key? && m'[p].khead.value == u;
    }
  }

  lemma EntryKept(m: Heap, m': Heap, chains: map<nat, seq<nat>>, chains': map<nat, seq<nat>>, o: nat)
    requires o in m && m[o].Key? && o in m' && m'[o].Key?
    requires m'[o].key == m[o].key && m'[o].khead.value == m[o].khead.value
    requires m[o].khead.value in chains && m[o].khead.value in chains'
    requires chains'[m[o].khead.value] == chains[m[o].khead.value]
    requires DataOf(m', chains[m[o].khead.value]) == DataOf(m, chains[m[o].khead.value])
    ensures EntryAt(m', chains', o) == EntryAt(m, chains, o)
  {
  }

  /** Relinking key blocks changes nothing but links. */
  lemma RelinkedRecords(m: Heap, m': Heap, chains: map<nat, seq<nat>>, spare: set<nat>)
    requires Relinked(m, m') && Valued(m, chains, spare)
    ensures Valued(m', chains, spare)
    ensures forall o | o in m && m[o].Key? :: EntryAt(m', chains, o) == EntryAt(m, chains, o)
    ensures ChunksOf(m') == ChunksOf(m)
  {
    ChainedFrame(m, m', chains);
    AssignedFrame(m, m', chains.Keys - spare);
    hide Chained;
    forall o | o in m && m[o].Key? ensures EntryAt(m', chains, o) == EntryAt(m, chains, o) {
      EntryKept(m, m', chains, chains, o);
    }
  }

  lemma RelinkedFlags(m: Heap, m': Heap, w: seq<nat>)
    requires Relinked(m, m')
    ensures Sorted(m, w) ==> Sorted(m', w)
    ensures Summed(m) ==> Summed(m')
    ensures Single(m) ==> Single(m')
    ensures NoRaw(m) ==> NoRaw(m')
  {
  }

  // ------------------------------------------------------------ a key comes

  /** A new key block takes up a spare value. */
  lemma KeyAdded(m: Heap, chains: map<nat, seq<nat>>, v: nat, o: nat, b: Block)
    requires Valued(m, chains, {v}) && o !in m && b.Key? && b.khead.value == v
    ensures Valued(m[o := b], chains, {})
    ensures forall p | p in m && m[p].Key? :: EntryAt(m[o := b], chains, p) == EntryAt(m, chains, p)
    ensures EntryAt(m[o := b], chains, o) == Entry(b.key, DataOf(m, chains[v]))
    ensures ChunksOf(m[o := b]) == ChunksOf(m)
  {
    var m' := m[o := b];
    ChainedFrame(m, m', chains);
    AssignedAdd(m, chains.Keys - {v}, v, o, b);
    assert chains.Keys - {v} + {v} == chains.Keys - {};
    hide Chained;
    forall p | p in m && m[p].Key? ensures EntryAt(m', chains, p) == EntryAt(m, chains, p) {
      EntryKept(m, m', chains, chains, p);
    }
  }

  // ------------------------------------------------------------ a value comes

  /** Every key's value is one of the chains. */
  ghost predicate ValuesIn(m: Heap, chains: map<nat, seq<nat>>) {
    forall o | o in m && m[o].Key? :: m[o].khead.value in chains
  }

  lemma ValuedIn(m: Heap, chains: map<nat, seq<nat>>, spare: set<nat>)
    requires Valued(m, chains, spare)
    ensures ValuesIn(m, chains) && Chained(m, chains) && spare <= chains.Keys && Assigned(m, chains.Keys - spare)
  {
  }

  /** The chains of the second store are among those of the first, with the same bytes. */
  ghost predicate SubChains(m: Heap, m': Heap, chains: map<nat, seq<nat>>, chains': map<nat, seq<nat>>) {
    forall q | q in chains && q in chains' :: chains'[q] == chains[q] && DataOf(m', chains[q]) == DataOf(m, chains[q])
  }

  lemma EntriesKept(m: Heap, m': Heap, chains: map<nat, seq<nat>>, chains': map<nat, seq<nat>>, except: set<nat>)
    requires ValuesIn(m, chains) && SubChains(m, m', chains, chains')
    requires forall p | p in m && m[p].Key? && p !in except ::
               p in m' && m'[p].Key? && m'[p].key == m[p].key && m'[p].khead.value == m[p].khead.value &&
                 m[p].khead.value in chains'
    ensures forall p | p in m && m[p].Key? && p !in except :: EntryAt(m', chains', p) == EntryAt(m, chains, p)
  {
    forall p | p in m && m[p].Key? && p !in except ensures EntryAt(m', chains', p) == EntryAt(m, chains, p) {
      EntryKept(m, m', chains, chains', p);
    }
  }

  lemma AddedValues(m: Heap, m': Heap, v: nat, chain: seq<nat>)
    requires Added(m, m', chain) && Chain(m', v, chain)
    ensures SameValues(m, m')
  {
    ChainMembers(m', v, chain);
  }

  lemma ValueAdded(m: Heap, m': Heap, chains: map<nat, seq<nat>>, v: nat, chain: seq<nat>)
    requires Valued(m, chains, {}) && Added(m, m', chain) && chain != [] && Chain(m', v, chain)
    ensures Valued(m', chains[v := chain], {v}) && v !in chains
    ensures forall o | o in m && m[o].Key? :: EntryAt(m', chains[v := chain], o) == EntryAt(m, chains, o)
    ensures SameValues(m, m')
  {
    hide Chained, Chain, Added, Assigned;
    var chains' := chains[v := chain];
    ChainedAdd(m, m', chains, v, chain);
    AddedValues(m, m', v, chain);
    assert chains.Keys - {} == chains.Keys;
    AssignedFrame(m, m', chains.Keys);
    ValuedIn(m, chains, {});
    assert chains'.Keys - {v} == chains.Keys;
    EntriesKept(m, m', chains, chains', {});
  }

  // ------------------------------------------------------------ a key or a value goes

  lemma ChainMembersAll(m: Heap, chains: map<nat, seq<nat>>, p: nat)
    requires Chained(m, chains) && p in chains
    ensures Distinct(chains[p]) && forall o | o in chains[p] :: o in m && m[o].Chunk?
  {
    ChainMembers(m, p, chains[p]);
  }

  ghost function SetOf(s: seq<nat>): set<nat> {
    set o | o in s
  }

  /** Taking a value away leaves all keys as they are. */
  lemma ValueGone(m: Heap, m1: Heap, chains: map<nat, seq<nat>>, u: nat)
    requires Chained(m, chains) && u in chains && Removed(m, m1, chains[u])
    ensures Chained(m1, chains - {u}) && SameValues(m, m1)
    ensures forall o | o in m && m[o].Key? :: o in m1 && m1[o] == m[o]
    ensures SubChains(m, m1, chains, chains - {u})
    ensures ChunksOf(m1) == ChunksOf(m) - SetOf(chains[u])
    ensures SetOf(chains[u]) <= ChunksOf(m) && Distinct(chains[u])
  {
    ChainedRemove(m, m1, chains, u);
    ChainMembersAll(m, chains, u);
  }

  /** A key block goes, and its value with it. */
  lemma KeyRemoved(m: Heap, m1: Heap, chains: map<nat, seq<nat>>, o: nat)
    requires Valued(m, chains, {}) && o in m && m[o].Key?
    requires Removed(m, m1, ChainOf(chains, m[o].khead.value))
    ensures o in m1 && m1[o] == m[o]
    ensures Valued(m1 - {o}, chains - {m[o].khead.value}, {})
    ensures forall p | p in m && m[p].Key? && p != o ::
              p in m1 && m1[p] == m[p] && EntryAt(m1 - {o}, chains - {m[o].khead.value}, p) == EntryAt(m, chains, p)
    ensures ChunksOf(m1 - {o}) == ChunksOf(m) - SetOf(ChainOf(chains, m[o].khead.value))
  {
    hide Chained, Removed, Assigned, DataOf;
    var u := m[o].khead.value;
    var m', chains' := m1 - {o}, chains - {u};
    ValuedIn(m, chains, {});
    assert chains.Keys - {} == chains.Keys;
    ValueGone(m, m1, chains, u);
    AssignedFrame(m, m1, chains.Keys);
    AssignedRemove(m1, chains.Keys, o);
    assert chains'.Keys - {} == chains.Keys - {u};
    ChainedFrame(m1, m', chains');
    AssignedValues(m', chains.Keys - {u});
    EntriesKept(m, m', chains, chains', {o});
  }

  lemma AssignedValues(m: Heap, vs: set<nat>)
    requires Assigned(m, vs)
    ensures forall p | p in m && m[p].Key? :: m[p].khead.value in vs
  {
  }

  /** A key gives up its value for a spare one. */
  lemma ValueReplaced(m: Heap, m1: Heap, chains: map<nat, seq<nat>>, o: nat, v: nat, h: KeyHead)
    requires Valued(m, chains, {v}) && o in m && m[o].Key?
    requires Removed(m, m1, ChainOf(chains, m[o].khead.value))
    requires h.value == v
    ensures o in m1 && m1[o] == m[o]
    ensures Valued(m1[o := Key(h, m[o].key)], chains - {m[o].khead.value}, {})
    ensures forall p | p in m && m[p].Key? && p != o ::
              p in m1 && m1[p] == m[p] &&
                EntryAt(m1[o := Key(h, m[o].key)], chains - {m[o].khead.value}, p) == EntryAt(m, chains, p)
    ensures v in chains && EntryAt(m1[o := Key(h, m[o].key)], chains - {m[o].khead.value}, o) ==
      Entry(m[o].key, DataOf(m, chains[v]))
    ensures ChunksOf(m1[o := Key(h, m[o].key)]) == ChunksOf(m) - SetOf(ChainOf(chains, m[o].khead.value))
  {
    hide Chained, Removed, Assigned, DataOf;
    var u := m[o].khead.value;
    var m', chains' := m1[o := Key(h, m[o].key)], chains - {u};
    ValuedIn(m, chains, {v});
    AssignedValues(m, chains.Keys - {v});
    ValueGone(m, m1, chains, u);
    AssignedFrame(m, m1, chains.Keys - {v});
    AssignedRemove(m1, chains.Keys - {v}, o);
    AssignedAdd(m1 - {o}, chains.Keys - {v} - {u}, v, o, Key(h, m[o].key));
    assert (m1 - {o})[o := Key(h, m[o].key)] == m';
    assert chains.Keys - {v} - {u} + {v} == chains'.Keys - {};
    ChainedFrame(m1, m', chains');
    AssignedValues(m', chains'.Keys - {});
    EntriesKept(m, m', chains, chains', {o});
  }

  // ------------------------------------------------------------ counting

  lemma {:induction false} SetSize(s: seq<nat>)
    requires Distinct(s)
    ensures |SetOf(s)| == |s|
  {
    if s != [] {
      var rest := s[1..];
      assert forall i | 0 <= i < |rest| :: rest[i] == s[i + 1];
      SetSize(rest);
      assert SetOf(s) == SetOf(rest) + {s[0]};
      assert s[0] !in SetOf(rest);
    }
  }

  lemma ChunksAdded(m: Heap, m': Heap, v: nat, chain: seq<nat>)
    requires Added(m, m', chain) && Chain(m', v, chain)
    ensures |ChunksOf(m')| == |ChunksOf(m)| + |chain|
  {
    ChainMembers(m', v, chain);
    SetSize(chain);
    assert ChunksOf(m') == ChunksOf(m) + SetOf(chain);
    assert ChunksOf(m) !! SetOf(chain);
  }

  lemma ChunksGone(all: set<nat>, chain: seq<nat>)
    requires SetOf(chain) <= all && Distinct(chain)
    ensures |chain| <= |all| && |all - SetOf(chain)| == |all| - |chain|
  {
    SetSize(chain);
    assert (all - SetOf(chain)) + SetOf(chain) == all;
  }
}
