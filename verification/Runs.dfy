/** Whole runs: whatever a client does with a store, it cannot tell it from a finite map. */
module Runs {
  import opened Bytes
  import opened Tilings
  import opened Blocks
  import opened Store
  import opened Fitness
  import opened FreeLists
  import opened Allocator
  import opened Values
  import opened Trees
  import opened Keys
  import opened Records
  import opened Contents
  import opened Database
  import opened Deletes
  import opened Operations
  import opened Paths
  import opened Rebalance
  import opened Shapes
  import opened Maps
  import Accounts
  import Puts
  import Vectors

  datatype Op =
    | PutOp(key: seq<Byte>, value: seq<Byte>)
    | GetOp(key: seq<Byte>)
    | DelOp(key: seq<Byte>)
    | PurgeOp(prefix: seq<Byte>)
    | PopOp

  datatype Answer = Done | Value(value: seq<Byte>) | Pair(key: seq<Byte>, value: seq<Byte>) | Missing

  /** What a finite map answers to an operation, and what it is afterwards. */
  ghost predicate Step(d: Dict, op: Op, a: Answer, d': Dict) {
    match op
    case PutOp(key, value) => a == Done && d' == d[key := value]
    case GetOp(key) => d' == d && a == if key in d then Value(d[key]) else Missing
    case DelOp(key) => d' == d - {key} && a == if key in d then Value(d[key]) else Missing
    case PurgeOp(prefix) =>
      && d' == (map key | key in d && !(prefix <= key) :: d[key])
      && a == if exists key :: key in d && prefix <= key then Done else Missing
    case PopOp =>
      if d == map[] then d' == d && a == Missing
      else
        && a.Pair? && a.key in d && d[a.key] == a.value && d' == d - {a.key}
        && forall key | key in d :: Compare(a.key, key, false) <= 0
  }

  /** Keys and values short enough for their blocks to have a 32-bit size. */
  predicate Sized(op: Op) {
    op.PutOp? ==> KEYHEAD_SIZE + |op.key| < WORD_LIMIT && |op.value| + CHUNKHEAD_SIZE < WORD_LIMIT
  }

  /** A store that keeps one entry per key and looks keys up whole. */
  predicate Plain(flags: Flags) {
    !flags.duplKeys && !flags.partial && !flags.deleteAll
  }

  lemma OneSegment(value: seq<Byte>)
    ensures Vectors.Concat([value]) == value && Vectors.Copyable([value])
  {
  }

  // ------------------------------------------------------------ operations on entries and on maps

  /** A store between operations: its entries, the shape of its tree, and the depth of the deepest search so far. */
  datatype State = State(es: Contents.Entries, tree: Tree, depth: nat)

  ghost function StateOf(td: Td): (s: State)
    reads td
    ensures Whole(s)
  {
    State(ContentsOf(td), td.tree, td.maxdepth)
  }

  ghost predicate Whole(s: State) {
    |s.es| == Weight(s.tree)
  }

  /** What becomes of the entries of a store, whatever its flags, and what the answer is. */
  ghost predicate Change(s: State, op: Op, a: Answer, s': State, flags: Flags) {
    var es, es' := s.es, s'.es;
    match op
    case PutOp(key, value) =>
      a == Done && Puts.PutOutcome(s.tree, es, es', key, value, flags.duplKeys, flags.noOverwrite)
    case GetOp(key) =>
      es' == es && a == if Found(es, key, flags.partial) then Value(es[Rank(es, key, flags.partial)].value) else Missing
    case DelOp(key) =>
      if flags.deleteAll then PurgeChange(es, key, a.Value?, a, es')
      else if Found(es, key, flags.partial) then
        var n := Rank(es, key, flags.partial);
        es' == Without(es, n) && a == Value(es[n].value)
      else es' == es && a == Missing
    case PurgeOp(prefix) => PurgeChange(es, prefix, a == Done, a, es')
    case PopOp =>
      if es == [] then es' == es && a == Missing
      else es' == es[1..] && a == Pair(es[0].key, es[0].value)
  }

  /** What becomes of its tree, and of the depth; a prefix delete takes many steps, which are not spelled out here. */
  ghost predicate Reshaped(s: State, op: Op, s': State, flags: Flags)
    requires Whole(s)
  {
    match op
    case PutOp(key, value) => exists node :: Planting(s, key, flags.duplKeys, node, s')
    case GetOp(key) => s'.tree == s.tree && s'.depth == DepthAfter(s.depth, s.tree, s.es, key, flags.partial)
    case DelOp(key) =>
      !flags.deleteAll ==>
        var depth := DepthAfter(s.depth, s.tree, s.es, key, flags.partial);
        if Found(s.es, key, flags.partial) then
          Settled(Pulled(s.tree, Rank(s.es, key, flags.partial)), depth, s'.tree, s'.depth)
        else s'.tree == s.tree && s'.depth == depth
    case PurgeOp(prefix) => true
    case PopOp =>
      if s.es == [] then s'.tree == s.tree && s'.depth == s.depth
      else Settled(Pulled(s.tree, 0), s.depth, s'.tree, s'.depth)
  }

  ghost predicate Planting(s: State, key: seq<Byte>, duplKeys: bool, node: nat, s': State)
    requires Whole(s)
  {
    Settled(Puts.PutTree(s.tree, s.es, key, duplKeys, node), DepthAfter(s.depth, s.tree, s.es, key, false),
      s'.tree, s'.depth)
  }

  /** What a put costs of the free space, heads included; nothing else costs any. */
  function Cost(op: Op): nat {
    if op.PutOp? then |op.key| + |op.value| + 40 else 0
  }

  function TotalCost(ops: seq<Op>): nat {
    if ops == [] then 0 else TotalCost(ops[..|ops| - 1]) + Cost(ops[|ops| - 1])
  }

  lemma {:induction false} CostGrows(ops: seq<Op>, n: nat)
    requires n <= |ops|
    ensures TotalCost(ops[..n]) <= TotalCost(ops)
    ensures TotalCost([]) == 0
    ensures n < |ops| ==>
              TotalCost(ops[..n + 1]) == TotalCost(ops[..n]) +
                if ops[n].PutOp? then |ops[n].key| + |ops[n].value| + 40 else 0
    decreases |ops|
  {
    if n < |ops| {
      assert ops[..n + 1][..n] == ops[..n];
      var init := ops[..|ops| - 1];
      CostGrows(init, n);
      assert init[..n] == ops[..n];
    } else {
      assert ops[..n] == ops;
    }
  }

  ghost predicate PurgeChange(es: Contents.Entries, prefix: seq<Byte>, done: bool, a: Answer, es': Contents.Entries) {
    if Found(es, prefix, true) then done && es' == Purged(es, prefix) else a == Missing && es' == es
  }

  lemma PutStep(t: Tree, es: Contents.Entries, es': Contents.Entries, key: seq<Byte>, value: seq<Byte>,
                noOverwrite: bool)
    requires Strict(es) && Puts.PutOutcome(t, es, es', key, value, false, noOverwrite)
    ensures Strict(es') && Step(MapOf(es), PutOp(key, value), Done, MapOf(es'))
  {
    PutIsUpdate(t, es, es', key, value, noOverwrite);
  }

  /** What an exact lookup tells of the map. */
  lemma ExactAnswer(t: Tree, es: Contents.Entries, key: seq<Byte>)
    requires Strict(es)
    ensures Found(es, key, false) <==> key in MapOf(es)
    ensures es == [] ==> key !in MapOf(es)
    ensures forall n: nat | Answers(t, es, key, false, true, n) :: key in MapOf(es) && es[n].value == MapOf(es)[key]
  {
    FoundInMap(es, key);
  }

  lemma GetStep(es: Contents.Entries, key: seq<Byte>)
    requires Strict(es)
    ensures Found(es, key, false) ==> Step(MapOf(es), GetOp(key), Value(es[Rank(es, key, false)].value), MapOf(es))
    ensures !Found(es, key, false) ==> Step(MapOf(es), GetOp(key), Missing, MapOf(es))
  {
    FoundInMap(es, key);
  }

  /** Deleting the entry found under a key takes the key out of the map. */
  lemma DeletedKey(es: Contents.Entries, key: seq<Byte>)
    requires Strict(es)
    ensures Found(es, key, false) <==> key in MapOf(es)
    ensures Found(es, key, false) ==>
              var n := Rank(es, key, false);
              n < |es| && es[n].value == MapOf(es)[key] && Strict(Without(es, n)) &&
                MapOf(Without(es, n)) == MapOf(es) - {key}
  {
    FoundInMap(es, key);
    hide MapOf, Strict, Without, Rank;
    if Found(es, key, false) {
      DeleteIsRemoval(es, Rank(es, key, false));
    }
  }

  lemma NothingRemoved(d: Dict, key: seq<Byte>)
    requires key !in d
    ensures d - {key} == d
  {
  }

  lemma DeleteStep(es: Contents.Entries, key: seq<Byte>)
    requires Strict(es)
    ensures Found(es, key, false) ==>
              var n := Rank(es, key, false);
              && Strict(Without(es, n))
              && Step(MapOf(es), DelOp(key), Value(es[n].value), MapOf(Without(es, n)))
    ensures !Found(es, key, false) ==> Step(MapOf(es), DelOp(key), Missing, MapOf(es))
  {
    hide Found, Rank, MapOf, Strict, Without;
    DeletedKey(es, key);
    if !Found(es, key, false) {
      NothingRemoved(MapOf(es), key);
    }
  }

  /** An entry is found by its prefix just when the map has a key with that prefix. */
  lemma FoundPrefix(es: Contents.Entries, prefix: seq<Byte>)
    requires Strict(es)
    ensures Found(es, prefix, true) <==> exists key :: key in MapOf(es) && prefix <= key
  {
    StrictOrdered(es);
    FoundIff(es, prefix, true);
    hide Found, Compare, Rank, MapOf;
    forall j | 0 <= j < |es| ensures Compare(prefix, es[j].key, true) == 0 <==> prefix <= es[j].key {
      CompareZero(prefix, es[j].key);
    }
    if Found(es, prefix, true) {
      var j :| 0 <= j < |es| && Compare(prefix, es[j].key, true) == 0;
      assert es[j].key in MapOf(es);
    }
  }

  lemma PurgeStep(es: Contents.Entries, prefix: seq<Byte>)
    requires Strict(es)
    ensures Strict(Purged(es, prefix))
    ensures Found(es, prefix, true) ==> Step(MapOf(es), PurgeOp(prefix), Done, MapOf(Purged(es, prefix)))
    ensures !Found(es, prefix, true) ==> Step(MapOf(es), PurgeOp(prefix), Missing, MapOf(es))
  {
    hide Found, Purged, MapOf, Strict;
    PurgeIsRestriction(es, prefix);
    FoundPrefix(es, prefix);
  }

  lemma PopStep(es: Contents.Entries)
    requires Strict(es)
    ensures es == [] ==> Step(MapOf(es), PopOp, Missing, MapOf(es))
    ensures es != [] ==> Strict(es[1..]) && Step(MapOf(es), PopOp, Pair(es[0].key, es[0].value), MapOf(es[1..]))
  {
    if es == [] {
      assert KeysOf(es) == {};
    } else {
      FirstIsLeast(es);
    }
  }

  /** A change of a store of unique keys is a step of the map. */
  lemma ChangeIsStep(s: State, op: Op, a: Answer, s': State, flags: Flags)
    requires Strict(s.es) && Plain(flags) && Change(s, op, a, s', flags)
    ensures Strict(s'.es) && Step(MapOf(s.es), op, a, MapOf(s'.es))
  {
    hide Strict, MapOf, Step, Found, Rank, Without, Purged, Puts.PutOutcome;
    var es, es' := s.es, s'.es;
    match op {
      case PutOp(key, value) => PutStep(s.tree, es, es', key, value, flags.noOverwrite);
      case GetOp(key) => GetStep(es, key);
      case DelOp(key) => DeleteStep(es, key);
      case PurgeOp(prefix) => PurgeStep(es, prefix);
      case PopOp => PopStep(es);
    }
  }

  // ------------------------------------------------------------ one operation

  lemma ExactPlace(t: Tree, es: Contents.Entries, key: seq<Byte>, partial: bool, n: nat)
    requires Answers(t, es, key, partial, true, n)
    ensures n < |es| && Found(es, key, partial) && n == Rank(es, key, partial)
  {
  }

  lemma NothingFound(key: seq<Byte>, partial: bool)
    ensures !Found([], key, partial)
  {
  }

  lemma FoundAt(es: Contents.Entries, key: seq<Byte>, partial: bool)
    ensures Found(es, key, partial) ==> Rank(es, key, partial) < |es|
  {
  }

  /** One operation. When it goes through, the store answers and changes as Change says, and the invariant holds. */
  method Do(td: Td, op: Op) returns (r: Status, a: Answer)
    requires Valid(td) && Sized(op)
    modifies td
    ensures r == Ok || r == Space || r == Dup || r == Struct || r == Invalid
    ensures Height(old(td.tree)) < TD_MAXDEPTH && !op.PurgeOp? && !(op.DelOp? && old(td.header).flags.deleteAll) ==>
              r == Ok || r == Space || r == Dup
    ensures |old(ContentsOf(td))| < TD_MAXDEPTH ==> r == Ok || r == Space || r == Dup
    ensures old(Room(td)) >= Cost(op) + CHUNKHEAD_SIZE ==> r != Space && Room(td) >= old(Room(td)) - Cost(op)
    ensures !op.PutOp? ==> Room(td) >= old(Room(td))
    ensures r == Space ==> op.PutOp? && (td.extendable ==> td.calls > old(td.calls) && ShortGrant(td, Cost(op)))
    ensures r == Dup ==> op.PutOp? && Found(old(ContentsOf(td)), op.key, false) && old(td.header).flags.noOverwrite
    ensures r == Ok ==> Valid(td) && td.header.flags == old(td.header).flags
    ensures r == Ok ==> Change(old(StateOf(td)), op, a, StateOf(td), td.header.flags)
    ensures r == Ok ==> Reshaped(old(StateOf(td)), op, StateOf(td), td.header.flags)
  {
    hide IsSound, Used, Consistent, Records.Entries, Inorder, Height, Values.Cut, Rank, Without, Purged, Found,
      Puts.PutOutcome, Answers, Vectors.Concat, Vectors.Copyable, SizesOf, Largest, ShortGrant, DepthAfter, Settled,
      Puts.PutTree, Pulled, Tidied, Clean, Weight;
    ghost var es := ContentsOf(td);
    HeightAtMost(td.tree);
    ghost var y;
    a := Done;
    match op {
      case PutOp(key, value) =>
        OneSegment(value);
        ghost var leaked;
        ghost var node;
        r, leaked, node := Puts.Put(td, key, [value], NO_FLAGS);
        assert r == Ok ==> Planting(old(StateOf(td)), key, td.header.flags.duplKeys, node, StateOf(td));
      case GetOp(key) =>
        NothingFound(key, td.header.flags.partial);
        var found, value;
        ghost var n;
        r, found, value, n := Get(td, key, Into(Grow), NO_FLAGS.(exact := true));
        if r == Ok {
          ExactPlace(td.tree, es, key, td.header.flags.partial, n);
        }
        WholeAt(es, n);
        r, a := if r == NotFound then Ok else r, if r == NotFound then Missing else Value(value);
      case DelOp(key) =>
        FoundAt(es, key, td.header.flags.partial);
        WholeAt(es, Rank(es, key, td.header.flags.partial));
        var value;
        r, value, y := Del(td, key, Into(Grow), NO_FLAGS);
        r, a := if r == NotFound then Ok else r, if r == NotFound then Missing else Value(value);
      case PurgeOp(prefix) =>
        var value;
        r, value, y := Del(td, prefix, Nothing, NO_FLAGS.(deleteAll := true));
        r, a := if r == NotFound then Ok else r, if r == NotFound then Missing else Done;
      case PopOp =>
        WholeAt(es, 0);
        var key, value;
        r, key, value, y := Pop(td, Grow, Into(Grow), NO_FLAGS);
        r, a := if r == NotFound then Ok else r, if r == NotFound then Missing else Pair(key, value);
    }
  }

  lemma WholeAt(es: Contents.Entries, n: nat)
    ensures n < |es| ==> Values.Cut(es[n].key, Grow) == es[n].key && Values.Cut(es[n].value, Grow) == es[n].value
  {
  }

  // ------------------------------------------------------------ whole runs

  /** The states a store goes through as it takes the operations one by one. */
  ghost predicate History(states: seq<State>, ops: seq<Op>, answers: seq<Answer>, flags: Flags) {
    && |states| == |answers| + 1 && |answers| <= |ops|
    && states[0] == State([], Leaf, 0)
    && (forall i | 0 <= i < |states| :: Whole(states[i]))
    && (forall i | 0 <= i < |answers| :: Change(states[i], ops[i], answers[i], states[i + 1], flags))
    && (forall i | 0 <= i < |answers| :: Reshaped(states[i], ops[i], states[i + 1], flags))
  }

  /** The states a map goes through as it takes the operations one by one. */
  ghost predicate Trace(dicts: seq<Dict>, ops: seq<Op>, answers: seq<Answer>) {
    && |dicts| == |answers| + 1 && |answers| <= |ops|
    && dicts[0] == map[]
    && forall i | 0 <= i < |answers| :: Step(dicts[i], ops[i], answers[i], dicts[i + 1])
  }

  ghost function Dicts(states: seq<State>): (dicts: seq<Dict>)
    ensures |dicts| == |states| && forall i | 0 <= i < |states| :: dicts[i] == MapOf(states[i].es)
  {
    seq(|states|, i requires 0 <= i < |states| => MapOf(states[i].es))
  }

  lemma {:induction false} StrictThroughout(states: seq<State>, ops: seq<Op>, answers: seq<Answer>,
                                            flags: Flags, i: nat)
    requires History(states, ops, answers, flags) && Plain(flags) && i < |states|
    ensures Strict(states[i].es)
  {
    hide Change, Reshaped, Strict;
    if i == 0 {
      NoEntriesNoMap();
    } else {
      StrictThroughout(states, ops, answers, flags, i - 1);
      ChangeIsStep(states[i - 1], ops[i - 1], answers[i - 1], states[i - 1 + 1], flags);
    }
  }

  /** The history of a store of unique keys is that of a map. */
  lemma HistoryIsTrace(states: seq<State>, ops: seq<Op>, answers: seq<Answer>, flags: Flags)
    requires History(states, ops, answers, flags) && Plain(flags)
    ensures Trace(Dicts(states), ops, answers)
  {
    hide Change, Reshaped, Strict, Step;
    NoEntriesNoMap();
    var dicts := Dicts(states);
    forall i | 0 <= i < |answers| ensures Step(dicts[i], ops[i], answers[i], dicts[i + 1]) {
      StrictThroughout(states, ops, answers, flags, i);
      ChangeIsStep(states[i], ops[i], answers[i], states[i + 1], flags);
    }
  }

  lemma StateInOrder(td: Td)
    requires Valid(td)
    ensures InOrder(StateOf(td).es)
  {
    hide IsSound, Used, Consistent, InOrder;
    EntriesOrdered(Used(td.heap), td.chains, td.tree, td.header);
  }

  /** Takes one operation after another on an empty store, up to the first that does not go through. */
  method Serve(td: Td, ops: seq<Op>) returns (r: Status, answers: seq<Answer>, ghost states: seq<State>)
    requires Valid(td) && StateOf(td) == State([], Leaf, 0) && forall i | 0 <= i < |ops| :: Sized(ops[i])
    modifies td
    ensures r == Ok || r == Space || r == Dup || r == Struct || r == Invalid
    ensures History(states, ops, answers, old(td.header).flags) && forall i | 0 <= i < |states| :: InOrder(states[i].es)
    ensures |answers| <= |ops|
    ensures r == Ok ==> |answers| == |ops| && Valid(td) && |states| == |ops| + 1 && StateOf(td) == states[|ops|]
    ensures |ops| <= TD_MAXDEPTH ==> r != Struct && r != Invalid
    ensures r == Dup ==> old(td.header).flags.noOverwrite
    ensures old(Room(td)) >= TotalCost(ops) + CHUNKHEAD_SIZE ==> r != Space
    ensures r == Space ==> |answers| < |ops| && ops[|answers|].PutOp? &&
                             (td.extendable ==> ShortGrant(td, Cost(ops[|answers|])))
  {
    hide Valid, ContentsOf, Height, Change, InOrder, Reshaped, Room, ShortGrant, History, TotalCost, Whole, Weight;
    var flags := td.header.flags;
    HistoryStarts(ops, flags);
    StateInOrder(td);
    r, answers, states := Ok, [], [State([], Leaf, 0)];
    while |answers| < |ops|
      invariant r == Ok && History(states, ops, answers, flags) && |states| == |answers| + 1 <= |ops| + 1
      invariant forall i | 0 <= i < |states| :: InOrder(states[i].es)
      invariant Valid(td) && td.header.flags == flags && StateOf(td) == states[|answers|]
      invariant |states[|answers|].es| <= |answers|
      invariant old(Room(td)) >= TotalCost(ops) + CHUNKHEAD_SIZE ==>
                  Room(td) >= old(Room(td)) - TotalCost(ops[..|answers|])
    {
      CostGrows(ops, |answers|);
      CostGrows(ops, |answers| + 1);
      var a;
      r, a := Do(td, ops[|answers|]);
      if r != Ok {
        break;
      }
      StateInOrder(td);
      OneMoreAtMost(states[|answers|], ops[|answers|], a, StateOf(td), flags);
      HistoryGoesOn(states, ops, answers, flags, a, StateOf(td));
      answers, states := answers + [a], states + [StateOf(td)];
    }
  }

  /**
   * A client's whole life with a store, with duplicate keys or without: it is made on some resource, and then
   * takes one operation after another, up to the first that does not go through. Up to there the entries are
   * in order and change as they should; without duplicates every answer is that of a map. In the end every
   * byte of the resource is accounted for. A run of up to 128 operations goes through if the resource has room
   * for all that it puts; a store that can be extended is out of space only after too small a grant.
   */
  method Run(resource: seq<Byte>, extendable: bool, callback: (nat, nat) -> Word, flags: Flags, ops: seq<Op>)
    returns (r: Status, td: Td, answers: seq<Answer>, ghost states: seq<State>)
    requires |resource| < WORD_LIMIT && forall i | 0 <= i < |ops| :: Sized(ops[i])
    ensures fresh(td)
    ensures r == Bounds <==> |resource| < HEADER_SIZE + CHUNKHEAD_SIZE
    ensures r == Ok || r == Bounds || r == Space || r == Dup || r == Struct || r == Invalid
    ensures r != Bounds ==>
              History(states, ops, answers, flags) && forall i | 0 <= i < |states| :: InOrder(states[i].es)
    ensures r != Bounds && Plain(flags) ==> Trace(Dicts(states), ops, answers)
    ensures r == Ok ==> |answers| == |ops| && Valid(td) && StateOf(td) == states[|ops|]
    ensures r == Ok ==> Accounts.Accounted(td)
    ensures |ops| <= 128 ==> r != Struct && r != Invalid
    ensures r == Dup ==> flags.noOverwrite
    ensures TotalCost(ops) + HEADER_SIZE + CHUNKHEAD_SIZE <= |resource| ==> r != Space && r != Bounds
    ensures r == Space ==> |answers| < |ops| && ops[|answers|].PutOp? &&
                             (extendable ==>
                                && td.callback == callback
                                && ShortGrant(td, |ops[|answers|].key| + |ops[|answers|].value| + 40))
  {
    hide Accounts.Accounted, Valid, ContentsOf, InOrder, Trace, SizesOf, Largest, ShortGrant, History, TotalCost,
      Whole;
    answers, states := [], [];
    td := new Td(resource, extendable, callback, true);
    r := InitCreate(td, flags);
    if r != Ok {
      return;
    }
    r, answers, states := Serve(td, ops);
    if Plain(flags) {
      HistoryIsTrace(states, ops, answers, flags);
    }
    if r == Ok {
      Accounts.ValidAccounted(td);
    }
  }

  lemma HistoryStarts(ops: seq<Op>, flags: Flags)
    ensures History([State([], Leaf, 0)], ops, [], flags)
  {
  }

  lemma HistoryGoesOn(states: seq<State>, ops: seq<Op>, answers: seq<Answer>, flags: Flags, a: Answer, s': State)
    requires History(states, ops, answers, flags) && |answers| < |ops|
    requires Whole(s') && Change(states[|answers|], ops[|answers|], a, s', flags)
    requires Reshaped(states[|answers|], ops[|answers|], s', flags)
    ensures History(states + [s'], ops, answers + [a], flags)
  {
    hide Change, Reshaped, Whole;
  }

  /** No operation brings in more than one entry. */
  lemma OneMoreAtMost(s: State, op: Op, a: Answer, s': State, flags: Flags)
    requires Change(s, op, a, s', flags)
    ensures |s'.es| <= |s.es| + if op.PutOp? then 1 else 0
  {
  }

  lemma NoEntriesNoMap()
    ensures Strict([]) && MapOf([]) == map[]
  {
    assert KeysOf([]) == {};
  }

  // ------------------------------------------------------------ draining

  /**
   * Pops until there is nothing left: the entries come out in order, duplicates and all, and the whole
   * resource past the header is free again.
   */
  method Drain(td: Td) returns (r: Status, popped: seq<Entry>)
    requires Valid(td)
    modifies td
    ensures r == Ok || r == Struct
    ensures Valid(td)
    ensures popped + ContentsOf(td) == old(ContentsOf(td)) && InOrder(old(ContentsOf(td)))
    ensures r == Ok ==> popped == old(ContentsOf(td)) && Used(td.heap) == map[]
    ensures r == Ok ==> td.header.nentries == 0 && td.header.nchunks == 0 && SetOf(td.free) == td.heap.Keys
    ensures r == Ok ==>
      Tiling(Sizes(td.heap), td.header.size) &&
        BytesOf(Sizes(td.heap), td.header.size, SetOf(td.free)) == td.header.size - HEADER_SIZE
  {
    hide IsSound, Used, Consistent, Records.Entries, Inorder, Height, Values.Cut, InOrder, Tiling, BytesOf, SetOf;
    EntriesOrdered(Used(td.heap), td.chains, td.tree, td.header);
    popped := [];
    while true
      invariant Valid(td)
      invariant popped + ContentsOf(td) == old(ContentsOf(td))
      decreases |ContentsOf(td)|
    {
      ghost var es := ContentsOf(td);
      var key, value;
      ghost var y;
      r, key, value, y := Pop(td, Grow, Into(Grow), NO_FLAGS);
      if r == NotFound {
        NoneLeft(td.mem, td.heap, td.free, td.header, td.chains, td.tree);
        return Ok, popped;
      } else if r != Ok {
        return;
      }
      PoppedFirst(popped, es);
      popped := popped + [Entry(key, value)];
    }
  }

  lemma PoppedFirst(popped: Contents.Entries, es: Contents.Entries)
    requires es != []
    ensures popped + [Entry(Values.Cut(es[0].key, Grow), Values.Cut(es[0].value, Grow))] + es[1..] == popped + es
  {
  }

  lemma NoneLeft(mem: seq<Byte>, heap: Heap, free: seq<nat>, hd: Header, chains: map<nat, seq<nat>>, t: Tree)
    requires IsSound(mem, heap, free, hd) && Consistent(Used(heap), chains, t, hd)
    requires Records.Entries(Used(heap), chains, Inorder(t)) == []
    ensures Used(heap) == map[] && SetOf(free) == heap.Keys && hd.nentries == 0 && hd.nchunks == 0
    ensures Tiling(Sizes(heap), hd.size) && BytesOf(Sizes(heap), hd.size, SetOf(free)) == hd.size - HEADER_SIZE
  {
    hide IsSound, Consistent, Shape, Used, Records.Entries;
    ConsistentTree(Used(heap), chains, t, hd);
    Rootless(Used(heap), chains, hd.top, t);
    Accounts.TiledOf(mem, heap, free, hd);
    Accounts.DrainedIsFree(mem, heap, free, hd, chains);
  }
}
