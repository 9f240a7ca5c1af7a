/**
 The runtime hash map: open addressing, linear probing, tombstones and a doubling
 rehash (runtime/ncrt.c, the __nc_map_* functions).

 A key type K comes with the hash and the equality its map descriptor carries, and
 with a specification-only `view`: the value a raw key stands for.  Two raw keys are
 equal to the descriptor exactly when their views are equal (module KeyHash proves
 this of the generated functions), so the map must behave as a mathematical map on views.
 */
module RuntimeMap {
  import opened Prelude

  // ----- table contents ------------------------------------------------------------

  /** One entry; the state word of the C entry is 0, 1 or 2 in this order. */
  datatype Slot<K, V> = Empty | Live(key: K, value: V) | Tomb

  function StateOf<K, V>(s: Slot<K, V>): nat {
    match s
    case Empty => 0
    case Live(_, _) => 1
    case Tomb => 2
  }

  /** The number of slots in a given state. */
  ghost function Count<K, V>(slots: seq<Slot<K, V>>, state: nat): nat {
    if slots == [] then 0
    else (if StateOf(slots[|slots| - 1]) == state then 1 else 0) + Count(slots[..|slots| - 1], state)
  }

  lemma {:induction false} CountUpdate<K, V>(slots: seq<Slot<K, V>>, i: nat, s: Slot<K, V>, state: nat)
    requires i < |slots|
    ensures Count(slots[i := s], state) + (if StateOf(slots[i]) == state then 1 else 0)
         == Count(slots, state) + (if StateOf(s) == state then 1 else 0)
  {
    var last := |slots| - 1;
    if i == last {
      assert slots[i := s][..last] == slots[..last];
    } else {
      assert slots[i := s][..last] == slots[..last][i := s];
      CountUpdate(slots[..last], i, s, state);
    }
  }

  lemma {:induction false} CountTotal<K, V>(slots: seq<Slot<K, V>>)
    ensures Count(slots, 0) + Count(slots, 1) + Count(slots, 2) == |slots|
  {
    if slots != [] {
      CountTotal(slots[..|slots| - 1]);
    }
  }

  lemma {:induction false} CountWitness<K, V>(slots: seq<Slot<K, V>>, state: nat) returns (i: nat)
    requires Count(slots, state) > 0
    ensures i < |slots| && StateOf(slots[i]) == state
  {
    i := |slots| - 1;
    if StateOf(slots[i]) != state {
      i := CountWitness(slots[..i], state);
    }
  }

  lemma {:induction false} CountAllEmpty<K, V>(slots: seq<Slot<K, V>>)
    requires forall i :: 0 <= i < |slots| ==> slots[i] == Empty
    ensures Count(slots, 1) == 0 && Count(slots, 2) == 0
  {
    if slots != [] {
      CountAllEmpty(slots[..|slots| - 1]);
    }
  }

  // ----- probing -------------------------------------------------------------------

  /** How many steps a probe that starts at `home` needs to reach `at`. */
  function Steps(home: nat, at: nat, cap: nat): nat
    requires home < cap && at < cap
  {
    if home <= at then at - home else at + cap - home
  }

  function Home<K>(hash: K -> nat, key: K, cap: nat): (h: nat)
    requires cap > 0
    ensures h < cap
  {
    hash(key) % cap
  }

  /** The home slot is what is left of the hash modulo the capacity. */
  lemma HomeIsRemainder<K>(hash: K -> nat, key: K, cap: nat, turns: nat, slot: nat)
    requires slot < cap && hash(key) == cap * turns + slot
    ensures Home(hash, key, cap) == slot
  {
    UniqueQuotient(hash(key), turns, slot, cap);
  }

  lemma ProbeAdvances(home: nat, idx: nat, cap: nat)
    requires home < cap && idx < cap
    ensures (idx + 1) % cap < cap
    ensures (idx + 1) % cap == if idx + 1 == cap then 0 else idx + 1
    ensures Steps(home, idx, cap) + 1 < cap ==>
              Steps(home, (idx + 1) % cap, cap) == Steps(home, idx, cap) + 1
  {
  }

  /** No empty slot lies on the cyclic path from a live key's home to its slot. */
  ghost predicate ProbeChains<K(!new), V>(slots: seq<Slot<K, V>>, hash: K -> nat) {
    forall i, j ::
      0 <= i < |slots| && 0 <= j < |slots| && slots[i].Live?
      && Steps(Home(hash, slots[i].key, |slots|), j, |slots|) < Steps(Home(hash, slots[i].key, |slots|), i, |slots|)
      ==> slots[j] != Empty
  }

  /** `slots` holds exactly the bindings of `contents`; `slotOf` says where. */
  ghost predicate Represents<K(!new), V(!new), A(!new)>(
    slots: seq<Slot<K, V>>, slotOf: map<A, nat>, contents: map<A, V>, view: K -> A)
  {
    && slotOf.Keys == contents.Keys
    && (forall a :: a in slotOf ==>
          && slotOf[a] < |slots| && slots[slotOf[a]].Live?
          && view(slots[slotOf[a]].key) == a && slots[slotOf[a]].value == contents[a])
    && (forall i :: 0 <= i < |slots| && slots[i].Live? ==>
          view(slots[i].key) in slotOf && slotOf[view(slots[i].key)] == i)
  }

  /** The descriptor's equality and hash respect the value a raw key stands for. */
  ghost predicate DescriptorOk<K(!new), A(!new)>(hash: K -> nat, eq: (K, K) -> bool, view: K -> A) {
    && (forall k1, k2 :: eq(k1, k2) <==> view(k1) == view(k2))
    && (forall k1, k2 :: eq(k1, k2) ==> hash(k1) == hash(k2))
  }

  /** The first `n` probes of `key` met neither an empty slot nor the key. */
  ghost predicate Missed<K(!new), V, A>(slots: seq<Slot<K, V>>, home: nat, n: nat, a: A, view: K -> A)
    requires home < |slots|
  {
    forall j :: 0 <= j < |slots| && Steps(home, j, |slots|) < n ==>
      slots[j] != Empty && (slots[j].Live? ==> view(slots[j].key) != a)
  }

  /** A probe that ends at an empty slot without meeting the key proves the key absent. */
  lemma AbsentAtEmpty<K(!new), V(!new), A(!new)>(
    slots: seq<Slot<K, V>>, slotOf: map<A, nat>, contents: map<A, V>,
    hash: K -> nat, eq: (K, K) -> bool, view: K -> A, key: K, idx: nat)
    requires idx < |slots| && slots[idx] == Empty
    requires DescriptorOk(hash, eq, view)
    requires Represents(slots, slotOf, contents, view) && ProbeChains(slots, hash)
    requires Missed(slots, Home(hash, key, |slots|), Steps(Home(hash, key, |slots|), idx, |slots|), view(key), view)
    ensures view(key) !in contents
  {
  }

  lemma PresentAt<K(!new), V(!new), A(!new)>(
    slots: seq<Slot<K, V>>, slotOf: map<A, nat>, contents: map<A, V>, view: K -> A, idx: nat)
    requires idx < |slots| && slots[idx].Live?
    requires Represents(slots, slotOf, contents, view)
    ensures view(slots[idx].key) in contents && contents[view(slots[idx].key)] == slots[idx].value
  {
  }

  lemma MissNone<K(!new), V, A>(slots: seq<Slot<K, V>>, home: nat, a: A, view: K -> A)
    requires home < |slots|
    ensures Missed(slots, home, 0, a, view) && AllLive(slots, home, 0)
  {
  }

  /** One more probe without success. */
  lemma MissOne<K(!new), V, A>(slots: seq<Slot<K, V>>, home: nat, n: nat, a: A, view: K -> A, idx: nat)
    requires home < |slots| && idx < |slots| && Steps(home, idx, |slots|) == n
    requires Missed(slots, home, n, a, view)
    requires slots[idx] != Empty && (slots[idx].Live? ==> view(slots[idx].key) != a)
    ensures Missed(slots, home, n + 1, a, view)
  {
    assert forall j :: 0 <= j < |slots| && Steps(home, j, |slots|) == n ==> j == idx;
  }

  /** The first `n` slots on the way from `home` are live, or at least none is empty. */
  ghost predicate AllLive<K, V>(slots: seq<Slot<K, V>>, home: nat, n: nat)
    requires home < |slots|
  {
    forall j :: 0 <= j < |slots| && Steps(home, j, |slots|) < n ==> slots[j].Live?
  }

  ghost predicate NoneEmpty<K, V>(slots: seq<Slot<K, V>>, home: nat, n: nat)
    requires home < |slots|
  {
    forall j :: 0 <= j < |slots| && Steps(home, j, |slots|) < n ==> slots[j] != Empty
  }

  /** On the way from `home` a tombstone comes before any empty slot. */
  ghost predicate TombAhead<K, V>(slots: seq<Slot<K, V>>, home: nat)
    requires home < |slots|
  {
    exists at :: 0 <= at < |slots| && slots[at] == Tomb && NoneEmpty(slots, home, Steps(home, at, |slots|))
  }

  lemma LiveOneMore<K, V>(slots: seq<Slot<K, V>>, home: nat, idx: nat)
    requires home < |slots| && idx < |slots| && slots[idx].Live? && AllLive(slots, home, Steps(home, idx, |slots|))
    ensures AllLive(slots, home, Steps(home, idx, |slots|) + 1)
  {
    assert forall j :: 0 <= j < |slots| && Steps(home, j, |slots|) == Steps(home, idx, |slots|) ==> j == idx;
  }

  /** The first slot that is not live is a tombstone exactly if a tombstone comes before any empty slot. */
  lemma FirstFree<K, V>(slots: seq<Slot<K, V>>, home: nat, at: nat)
    requires home < |slots| && at < |slots| && AllLive(slots, home, Steps(home, at, |slots|)) && !slots[at].Live?
    ensures slots[at] == Tomb <==> TombAhead(slots, home)
  {
    assert forall j :: 0 <= j < |slots| && Steps(home, j, |slots|) == Steps(home, at, |slots|) ==> j == at;
    assert AllLive(slots, home, Steps(home, at, |slots|)) ==> NoneEmpty(slots, home, Steps(home, at, |slots|));
  }

  /** A key buried where its probe found it leaves a tombstone for the next put of the same key. */
  lemma BuriedAhead<K(!new), V, A>(slots: seq<Slot<K, V>>, home: nat, n: nat, a: A, view: K -> A, idx: nat)
    requires home < |slots| && idx < |slots| && Steps(home, idx, |slots|) == n && Missed(slots, home, n, a, view)
    ensures TombAhead(slots[idx := Tomb], home)
  {
    assert NoneEmpty(slots[idx := Tomb], home, n);
  }

  /** A full turn cannot miss every slot while one of them is free. */
  lemma FullTurnHits<K(!new), V, A>(slots: seq<Slot<K, V>>, home: nat, a: A, view: K -> A)
    requires home < |slots| && Count(slots, 1) + Count(slots, 2) < |slots|
    ensures !Missed(slots, home, |slots|, a, view)
  {
    CountTotal(slots);
    var free := CountWitness(slots, 0);
    assert Steps(home, free, |slots|) < |slots|;
  }

  /** Filling a free slot on the key's own probe path keeps the table sound. */
  lemma FillSlot<K(!new), V(!new), A(!new)>(
    slots: seq<Slot<K, V>>, slotOf: map<A, nat>, contents: map<A, V>,
    hash: K -> nat, view: K -> A, key: K, value: V, at: nat)
    requires at < |slots| && !slots[at].Live?
    requires Represents(slots, slotOf, contents, view) && ProbeChains(slots, hash)
    requires view(key) !in contents
    requires Missed(slots, Home(hash, key, |slots|), Steps(Home(hash, key, |slots|), at, |slots|), view(key), view)
    ensures Represents(slots[at := Live(key, value)], slotOf[view(key) := at], contents[view(key) := value], view)
    ensures ProbeChains(slots[at := Live(key, value)], hash)
  {
  }

  /** Storing a new value under a key that is present moves nothing. */
  lemma OverwriteSlot<K(!new), V(!new), A(!new)>(
    slots: seq<Slot<K, V>>, slotOf: map<A, nat>, contents: map<A, V>, hash: K -> nat, view: K -> A, value: V, at: nat)
    requires at < |slots| && slots[at].Live?
    requires Represents(slots, slotOf, contents, view) && ProbeChains(slots, hash)
    ensures Represents(slots[at := slots[at].(value := value)], slotOf, contents[view(slots[at].key) := value], view)
    ensures ProbeChains(slots[at := slots[at].(value := value)], hash)
  {
    var a, updated := view(slots[at].key), slots[at := slots[at].(value := value)];
    assert contents[a := value].Keys == contents.Keys;
    assert forall i :: 0 <= i < |slots| && updated[i].Live? ==> slots[i].Live? && updated[i].key == slots[i].key;
  }

  /** Leaving a tombstone, not an empty slot, keeps every other probe path intact. */
  lemma BurySlot<K(!new), V(!new), A(!new)>(
    slots: seq<Slot<K, V>>, slotOf: map<A, nat>, contents: map<A, V>, hash: K -> nat, view: K -> A, at: nat)
    requires at < |slots| && slots[at].Live?
    requires Represents(slots, slotOf, contents, view) && ProbeChains(slots, hash)
    ensures Represents(slots[at := Tomb], slotOf - {view(slots[at].key)}, contents - {view(slots[at].key)}, view)
    ensures ProbeChains(slots[at := Tomb], hash)
  {
  }

  lemma EmptyTable<K(!new), V(!new), A(!new)>(slots: seq<Slot<K, V>>, hash: K -> nat, view: K -> A)
    requires forall i :: 0 <= i < |slots| ==> slots[i] == Empty
    ensures Represents(slots, map[], map[], view) && ProbeChains(slots, hash)
    ensures Count(slots, 1) == 0 && Count(slots, 2) == 0
  {
    CountAllEmpty(slots);
  }

  /** The bindings whose slot a left-to-right scan has already passed. */
  ghost function Passed<A, V>(contents: map<A, V>, slotOf: map<A, nat>, n: nat): map<A, V>
    requires slotOf.Keys == contents.Keys
  {
    map a | a in contents && slotOf[a] < n :: contents[a]
  }

  lemma PassedEnds<K(!new), V(!new), A(!new)>(
    slots: seq<Slot<K, V>>, slotOf: map<A, nat>, contents: map<A, V>, view: K -> A)
    requires Represents(slots, slotOf, contents, view)
    ensures slotOf.Keys == contents.Keys
    ensures Passed(contents, slotOf, 0) == map[] && Passed(contents, slotOf, |slots|) == contents
  {
  }

  lemma PassOne<K(!new), V(!new), A(!new)>(
    slots: seq<Slot<K, V>>, slotOf: map<A, nat>, contents: map<A, V>, view: K -> A, i: nat)
    requires Represents(slots, slotOf, contents, view) && i < |slots|
    ensures slots[i].Live? ==>
      && view(slots[i].key) !in Passed(contents, slotOf, i)
      && Passed(contents, slotOf, i + 1) == Passed(contents, slotOf, i)[view(slots[i].key) := slots[i].value]
    ensures !slots[i].Live? ==> Passed(contents, slotOf, i + 1) == Passed(contents, slotOf, i)
  {
    assert forall a :: a in contents && slotOf[a] == i ==> slots[i].Live? && a == view(slots[i].key);
  }

  // ----- occupancy arithmetic ------------------------------------------------------

  ghost predicate PowerOfTwo(n: nat) {
    n == 1 || (n > 1 && n % 2 == 0 && PowerOfTwo(n / 2))
  }

  lemma DoublePower(n: nat)
    requires PowerOfTwo(n)
    ensures PowerOfTwo(2 * n)
  {
  }

  /** Rehash before a put when more than seven tenths of the slots are taken. */
  predicate Overloaded(used: nat, cap: nat) {
    10 * used > 7 * cap
  }

  /** The double nearest to 0.70 is this numerator over 2^53. */
  const DOUBLE_070: nat := 6305039478318694
  const TWO_53: nat := 0x20_0000_0000_0000

  lemma {:induction false} NotMultipleOfFive(cap: nat)
    requires PowerOfTwo(cap)
    ensures cap % 5 != 0
  {
    if cap > 1 {
      NotMultipleOfFive(cap / 2);
      assert cap == 2 * (cap / 2);
    }
  }

  lemma SevenTenthsNeverExact(used: nat, cap: nat)
    requires PowerOfTwo(cap)
    ensures 10 * used != 7 * cap
  {
    NotMultipleOfFive(cap);
    var fifth := 6 * used - 4 * cap;
    assert 10 * used == 7 * cap ==> cap == 5 * fifth;
  }

  /**
   The source divides two doubles and compares the quotient with 0.70.  Dividing by a
   power of two is exact, and up to 2^51 slots the comparison is the integer test.
   */
  lemma LoadTestIsExact(used: nat, cap: nat)
    requires PowerOfTwo(cap) && 4 * cap <= TWO_53
    ensures used * TWO_53 > DOUBLE_070 * cap <==> Overloaded(used, cap)
  {
    SevenTenthsNeverExact(used, cap);
  }

  // ----- the specification: a run over a mathematical map --------------------------

  datatype Op<K, V> = Set(key: K, value: V) | Get(key: K) | Has(key: K) | Delete(key: K) | Clear

  datatype Answer<V> = Done | Got(value: V) | Found(yes: bool)

  ghost function SpecStep<K, V, A>(m: map<A, V>, op: Op<K, V>, view: K -> A, zero: V): (map<A, V>, Answer<V>) {
    match op
    case Set(k, v) => (m[view(k) := v], Done)
    case Get(k) => (m, Got(if view(k) in m then m[view(k)] else zero))
    case Has(k) => (m, Found(view(k) in m))
    case Delete(k) => (m - {view(k)}, Done)
    case Clear => (map[], Done)
  }

  ghost function SpecRun<K, V, A>(m: map<A, V>, ops: seq<Op<K, V>>, view: K -> A, zero: V): (map<A, V>,
                                  seq<Answer<V>>) {
    if ops == [] then (m, [])
    else
      var (m', answers) := SpecRun(m, ops[..|ops| - 1], view, zero);
      var (m'', answer) := SpecStep(m', ops[|ops| - 1], view, zero);
      (m'', answers + [answer])
  }

  /** The number of put operations in a run. */
  ghost function Sets<K, V>(ops: seq<Op<K, V>>): nat {
    if ops == [] then 0 else Sets(ops[..|ops| - 1]) + (if ops[|ops| - 1].Set? then 1 else 0)
  }

  // ----- iteration -----------------------------------------------------------------

  /** The live pairs of a table in slot order: what a cursor loop visits. */
  ghost function LivePairs<K, V>(slots: seq<Slot<K, V>>): seq<(K, V)> {
    if slots == [] then []
    else
      var last := slots[|slots| - 1];
      LivePairs(slots[..|slots| - 1]) + if last.Live? then [(last.key, last.value)] else []
  }

  /** Pairs visit every binding of `contents` exactly once. */
  ghost predicate Enumerates<K(!new), V(!new), A(!new)>(pairs: seq<(K, V)>, contents: map<A, V>, view: K -> A) {
    && |pairs| == |contents|
    && (forall p :: 0 <= p < |pairs| ==> view(pairs[p].0) in contents && contents[view(pairs[p].0)] == pairs[p].1)
    && (forall p, q :: 0 <= p < q < |pairs| ==> view(pairs[p].0) != view(pairs[q].0))
    && (forall a :: a in contents ==> exists p :: 0 <= p < |pairs| && view(pairs[p].0) == a)
  }

  lemma {:induction false} LivePairsFromSlots<K, V>(slots: seq<Slot<K, V>>)
    ensures |LivePairs(slots)| == Count(slots, 1)
    ensures forall p :: 0 <= p < |LivePairs(slots)| ==>
              exists i :: 0 <= i < |slots| && slots[i] == Live(LivePairs(slots)[p].0, LivePairs(slots)[p].1)
    ensures forall i :: 0 <= i < |slots| && slots[i].Live? ==> (slots[i].key, slots[i].value) in LivePairs(slots)
  {
    if slots != [] {
      LivePairsFromSlots(slots[..|slots| - 1]);
    }
  }

  lemma {:induction false} LivePairsDistinct<K(!new), V(!new), A(!new)>(
    slots: seq<Slot<K, V>>, slotOf: map<A, nat>, view: K -> A)
    requires forall i :: 0 <= i < |slots| && slots[i].Live? ==>
               view(slots[i].key) in slotOf && slotOf[view(slots[i].key)] == i
    ensures forall p, q :: 0 <= p < q < |LivePairs(slots)| ==>
        view(LivePairs(slots)[p].0) != view(LivePairs(slots)[q].0)
  {
    if slots != [] {
      var front := slots[..|slots| - 1];
      LivePairsDistinct(front, slotOf, view);
      LivePairsFromSlots(front);
    }
  }

  lemma LivePairsEnumerate<K(!new), V(!new), A(!new)>(
    slots: seq<Slot<K, V>>, slotOf: map<A, nat>, contents: map<A, V>, view: K -> A)
    requires Represents(slots, slotOf, contents, view) && Count(slots, 1) == |contents|
    ensures Enumerates(LivePairs(slots), contents, view)
  {
    LivePairsFromSlots(slots);
    LivePairsDistinct(slots, slotOf, view);
    forall a | a in contents
      ensures exists p :: 0 <= p < |LivePairs(slots)| && view(LivePairs(slots)[p].0) == a
    {
      var i := slotOf[a];
      assert (slots[i].key, slots[i].value) in LivePairs(slots);
    }
  }

  lemma {:induction false} LivePairsSkip<K, V>(slots: seq<Slot<K, V>>, lo: nat, hi: nat)
    requires lo <= hi <= |slots|
    requires forall i :: lo <= i < hi ==> !slots[i].Live?
    ensures LivePairs(slots[..hi]) == LivePairs(slots[..lo])
    decreases hi
  {
    if lo < hi {
      assert slots[..hi][..hi - 1] == slots[..hi - 1];
      LivePairsSkip(slots, lo, hi - 1);
    }
  }

  lemma NoPairs<K, V>(slots: seq<Slot<K, V>>)
    requires slots == []
    ensures LivePairs(slots) == []
  {
  }

  lemma LivePairsTake<K, V>(slots: seq<Slot<K, V>>, i: nat)
    requires i < |slots| && slots[i].Live?
    ensures LivePairs(slots[..i + 1]) == LivePairs(slots[..i]) + [(slots[i].key, slots[i].value)]
  {
    assert slots[..i + 1][..i] == slots[..i];
  }

  // ----- the header and its operations -----------------------------------------------

  class NcMap<K(!new), V(!new), A(!new)> {
    var entries: array?<Slot<K, V>>
    var cap: nat
    var len: nat
    var tombstones: nat

    const hash: K -> nat
    const eq: (K, K) -> bool
    const zero: V
    ghost const view: K -> A

    ghost var contents: map<A, V>
    ghost var slotOf: map<A, nat>
    ghost var puts: nat  // put calls since the header was zeroed

    ghost predicate Valid()
      reads this, entries
    {
      && DescriptorOk(hash, eq, view)
      && len == |contents|
      && if cap == 0 then entries == null && len == 0 && tombstones == 0
         else
           && entries != null && entries.Length == cap
           && TableOk(entries[..])
           && OccupancyOk()
    }

    ghost predicate TableOk(slots: seq<Slot<K, V>>)
      reads this
    {
      && Represents(slots, slotOf, contents, view)
      && ProbeChains(slots, hash)
      && Count(slots, 1) == len && Count(slots, 2) == tombstones
    }

    /** The capacity is a power of two, never over-full and never far beyond what puts explain. */
    ghost predicate OccupancyOk()
      reads this
    {
      && 16 <= cap && PowerOfTwo(cap)
      && 10 * (len + tombstones) <= 7 * cap + 10
      && len + tombstones <= puts
      && (7 * cap <= 112 || 7 * cap <= 20 * puts)
    }

    constructor (hash: K -> nat, eq: (K, K) -> bool, zero: V, ghost view: K -> A)
      requires DescriptorOk(hash, eq, view)
      ensures Valid() && contents == map[] && cap == 0 && puts == 0 && entries == null
      ensures this.hash == hash && this.eq == eq && this.zero == zero && this.view == view
    {
      this.hash, this.eq, this.zero, this.view := hash, eq, zero, view;
      entries, cap, len, tombstones := null, 0, 0, 0;
      contents, slotOf, puts := map[], map[], 0;
    }

    method Init()
      requires DescriptorOk(hash, eq, view)
      modifies this
      ensures Valid() && fresh(entries) && cap == 16 && tombstones == 0 && contents == map[] && puts == old(puts)
    {
      cap, len, tombstones := 16, 0, 0;
      entries := new Slot<K, V>[16](_ => Empty);
      contents, slotOf := map[], map[];
      CountAllEmpty(entries[..]);
    }

    method Free()
      requires Valid()
      modifies this
      ensures Valid() && cap == 0 && contents == map[]
    {
      entries, cap, len, tombstones := null, 0, 0, 0;
      contents, slotOf, puts := map[], map[], 0;
    }

    /** The probe loop of rehash: it has no bound, and stops because a free slot exists. */
    method FreeSlotFor(key: K) returns (at: nat)
      requires entries != null && entries.Length == cap > len + tombstones
      requires TableOk(entries[..]) && view(key) !in contents
      ensures at < cap && entries[at] == Empty
      ensures Missed(entries[..], Home(hash, key, cap), Steps(Home(hash, key, cap), at, cap), view(key), view)
    {
      ghost var slots := entries[..];
      CountTotal(slots);
      ghost var free := CountWitness(slots, 0);
      ghost var home := Home(hash, key, cap);
      at := Home(hash, key, cap);
      while entries[at] != Empty
        invariant at < cap
        invariant forall j :: 0 <= j < cap && Steps(home, j, cap) < Steps(home, at, cap) ==> slots[j] != Empty
        decreases cap - Steps(home, at, cap)
      {
        assert Steps(home, at, cap) < Steps(home, free, cap);
        ProbeAdvances(home, at, cap);
        assert forall j :: 0 <= j < cap && Steps(home, j, cap) == Steps(home, at, cap) ==> j == at;
        at := (at + 1) % cap;
      }
    }

    /** One turn of rehash's outer loop: the key is not in the new table yet. */
    method Reinsert(key: K, value: V)
      requires entries != null && entries.Length == cap > len + 1 && tombstones == 0
      requires TableOk(entries[..]) && len == |contents| && view(key) !in contents
      modifies this`len, this`contents, this`slotOf, entries
      ensures TableOk(entries[..]) && len == |contents| == old(len) + 1
      ensures contents == old(contents)[view(key) := value]
    {
      hide Represents, ProbeChains, Missed, Count, Home;
      var at := FreeSlotFor(key);
      Place(at, key, value);
      len := len + 1;
    }

    /** Double the table and re-insert every live entry; tombstones disappear. */
    method Rehash()
      requires Valid() && cap > 0
      modifies this
      ensures DescriptorOk(hash, eq, view) && fresh(entries)
      ensures cap == 2 * old(cap) && entries.Length == cap
      ensures TableOk(entries[..]) && len == |contents| && tombstones == 0
      ensures contents == old(contents) && len == old(len) && puts == old(puts)
    {
      hide Represents, ProbeChains, Missed, Count, Home, DescriptorOk, Passed;
      var oldCap, oldEntries := cap, entries;
      ghost var slots, whole, where := oldEntries[..], contents, slotOf;
      PassedEnds(slots, where, whole, view);
      cap, len, tombstones := 2 * cap, 0, 0;
      entries := new Slot<K, V>[cap](_ => Empty);
      contents, slotOf := map[], map[];
      EmptyTable(entries[..], hash, view);
      for i := 0 to oldCap
        invariant oldEntries[..] == slots && |slots| == oldCap && where.Keys == whole.Keys
        invariant fresh(entries) && entries != oldEntries && entries.Length == cap == 2 * oldCap
        invariant TableOk(entries[..]) && len == |contents| && tombstones == 0 && len <= i
        invariant contents == Passed(whole, where, i)
        invariant puts == old(puts)
      {
        var e := oldEntries[i];
        assert e == slots[i];
        PassOne(slots, where, whole, view, i);
        if e.Live? {
          Reinsert(e.key, e.value);
        }
      }
    }

    /** Write a live entry into a free slot; the caller adjusts the counters. */
    method Place(at: nat, key: K, value: V)
      requires entries != null && at < entries.Length && !entries[at].Live?
      requires Represents(entries[..], slotOf, contents, view) && ProbeChains(entries[..], hash)
      requires view(key) !in contents
      requires Missed(entries[..], Home(hash, key, entries.Length),
          Steps(Home(hash, key, entries.Length), at, entries.Length), view(key), view)
      modifies entries, this`contents, this`slotOf
      ensures contents == old(contents)[view(key) := value] && slotOf == old(slotOf)[view(key) := at]
      ensures Represents(entries[..], slotOf, contents, view) && ProbeChains(entries[..], hash)
      ensures Count(entries[..], 1) == old(Count(entries[..], 1)) + 1
      ensures Count(entries[..], 2) == old(Count(entries[..], 2)) - (if old(entries[at]).Tomb? then 1 else 0)
    {
      ghost var slots := entries[..];
      FillSlot(slots, slotOf, contents, hash, view, key, value, at);
      CountUpdate(slots, at, Live(key, value), 1);
      CountUpdate(slots, at, Live(key, value), 2);
      entries[at] := Live(key, value);
      assert entries[..] == slots[at := Live(key, value)];
      contents, slotOf := contents[view(key) := value], slotOf[view(key) := at];
    }

    /** memcpy over the value of an entry that already holds the key. */
    method Overwrite(at: nat, value: V)
      requires entries != null && at < entries.Length && entries[at].Live?
      requires TableOk(entries[..]) && len == |contents|
      modifies entries, this`contents
      ensures contents == old(contents)[view(old(entries[at]).key) := value]
      ensures TableOk(entries[..]) && len == |contents|
    {
      ghost var slots := entries[..];
      var e := entries[at];
      OverwriteSlot(slots, slotOf, contents, hash, view, value, at);
      CountUpdate(slots, at, e.(value := value), 1);
      CountUpdate(slots, at, e.(value := value), 2);
      entries[at] := e.(value := value);
      assert entries[..] == slots[at := e.(value := value)];
      assert view(e.key) in contents;
      contents := contents[view(e.key) := value];
    }

    /** The beginning of __nc_map_put: afterwards there is a table with room. */
    method MakeRoom()
      requires Valid()
      modifies this
      ensures DescriptorOk(hash, eq, view) && entries != null && entries.Length == cap && TableOk(entries[..])
      ensures len == |contents| && contents == old(contents) && puts == old(puts)
      ensures var cap0 := if old(cap) == 0 then 16 else old(cap);
              if Overloaded(old(len + tombstones), cap0)
              then cap == 2 * cap0 && tombstones == 0
              else cap == cap0 && tombstones == old(tombstones)
      ensures old(cap) > 0 && !Overloaded(old(len + tombstones), old(cap)) ==> entries == old(entries)
      ensures entries == old(entries) ==> entries[..] == old(if entries == null then [] else entries[..])
      ensures entries == old(entries) || fresh(entries)
      ensures 16 <= cap && PowerOfTwo(cap) && 10 * (len + tombstones) <= 7 * cap
      ensures len + tombstones <= puts && (7 * cap <= 112 || 7 * cap <= 20 * (puts + 1))
    {
      hide Represents, ProbeChains, Count, PowerOfTwo, Home;
      if cap == 0 {
        Init();
      }
      if Overloaded(len + tombstones, cap) {
        Rehash();
        assert PowerOfTwo(cap) by { DoublePower(cap / 2); }
      }
    }

    /** __nc_map_put: at most one rehash, then a probe that remembers the first tombstone. */
    method Set(key: K, value: V)
      requires Valid()
      modifies this, entries
      ensures Valid() && (entries == old(entries) || fresh(entries))
      ensures contents == old(contents)[view(key) := value]
      ensures puts == old(puts) + 1
      ensures var cap0 := if old(cap) == 0 then 16 else old(cap);
              if Overloaded(old(len + tombstones), cap0)
              then cap == 2 * cap0 && len + tombstones <= old(len) + 1
              else cap == cap0 && len + tombstones <= old(len + tombstones) + 1
      ensures old(cap) > 0 && !Overloaded(old(len + tombstones), old(cap)) ==>
                && entries == old(entries)
                && (view(key) in old(contents) || TombAhead(old(entries[..]), Home(hash, key, cap)) ==>
                      len + tombstones == old(len + tombstones))
    {
      hide Represents, ProbeChains, Count, PowerOfTwo, Home, TombAhead, AllLive, DescriptorOk;
      MakeRoom();
      puts := puts + 1;
      ghost var slots := entries[..];
      PutProbe(key, value);
      if view(key) !in old(contents) {
        FirstFree(slots, Home(hash, key, cap), slotOf[view(key)]);
      }
    }

    method PutProbe(key: K, value: V)
      requires DescriptorOk(hash, eq, view)
      requires entries != null && entries.Length == cap > len + tombstones
      requires TableOk(entries[..]) && len == |contents|
      modifies entries, this`contents, this`slotOf, this`len, this`tombstones
      ensures contents == old(contents)[view(key) := value]
      ensures TableOk(entries[..]) && len == |contents|
      ensures view(key) in old(contents) ==> len + tombstones == old(len + tombstones)
      ensures view(key) !in old(contents) ==>
                view(key) in slotOf &&
                var at := slotOf[view(key)];
                && at < cap && !old(entries[..])[at].Live?
                && AllLive(old(entries[..]), Home(hash, key, cap), Steps(Home(hash, key, cap), at, cap))
                && len + tombstones == old(len + tombstones) + if old(entries[..])[at] == Empty then 1 else 0
    {
      hide Represents, ProbeChains, Missed, Count, Home, AllLive;
      ghost var slots, home := entries[..], Home(hash, key, cap);
      var idx: nat := Home(hash, key, cap);
      var tomb := -1;
      assert Missed(slots, home, 0, view(key), view) && AllLive(slots, home, 0) by {
        MissNone(slots, home, view(key), view);
      }
      for i := 0 to cap
        invariant unchanged(this) && unchanged(entries) && entries[..] == slots && idx < cap
        invariant i < cap ==> Steps(home, idx, cap) == i
        invariant Missed(slots, home, i, view(key), view)
        invariant tomb == -1 || (0 <= tomb < cap && slots[tomb] == Tomb &&
            Missed(slots, home, Steps(home, tomb, cap), view(key), view))
        invariant AllLive(slots, home, if tomb < 0 then i else Steps(home, tomb, cap))
      {
        var e := entries[idx];
        assert e == slots[idx];
        if e.Empty? {
          AbsentAtEmpty(slots, slotOf, contents, hash, eq, view, key, idx);
          Place(if tomb >= 0 then tomb else idx, key, value);
          len := len + 1;
          if tomb >= 0 {
            tombstones := tombstones - 1;
          }
          return;
        }
        if e.Tomb? && tomb < 0 {
          tomb := idx;
        }
        if e.Live? && eq(key, e.key) {
          PresentAt(slots, slotOf, contents, view, idx);
          Overwrite(idx, value);
          return;
        }
        if e.Live? && tomb < 0 {
          LiveOneMore(slots, home, idx);
        }
        MissOne(slots, home, i, view(key), view, idx);
        ProbeAdvances(home, idx, cap);
        idx := (idx + 1) % cap;
      }
      FullTurnHits(slots, home, view(key), view);
      assert false;
    }

    method Lookup(key: K) returns (found: bool, value: V)
      requires Valid()
      ensures found <==> view(key) in contents
      ensures value == if found then contents[view(key)] else zero
    {
      hide Represents, ProbeChains, Missed, Count, Home, PowerOfTwo;
      value := zero;
      if cap == 0 {
        return false, zero;
      }
      ghost var slots, home := entries[..], Home(hash, key, cap);
      var idx: nat := Home(hash, key, cap);
      MissNone(slots, home, view(key), view);
      for i := 0 to cap
        invariant idx < cap
        invariant i < cap ==> Steps(home, idx, cap) == i
        invariant Missed(slots, home, i, view(key), view)
      {
        var e := entries[idx];
        if e.Empty? {
          AbsentAtEmpty(slots, slotOf, contents, hash, eq, view, key, idx);
          return false, zero;
        }
        if e.Live? && eq(key, e.key) {
          PresentAt(slots, slotOf, contents, view, idx);
          return true, e.value;
        }
        MissOne(slots, home, i, view(key), view, idx);
        ProbeAdvances(home, idx, cap);
        idx := (idx + 1) % cap;
      }
      FullTurnHits(slots, home, view(key), view);
      assert false;
    }

    method Get(key: K) returns (value: V)
      requires Valid()
      ensures value == if view(key) in contents then contents[view(key)] else zero
    {
      var found;
      found, value := Lookup(key);
      if !found {
        value := zero;
      }
    }

    method Has(key: K) returns (found: bool)
      requires Valid()
      ensures found <==> view(key) in contents
    {
      var value;
      found, value := Lookup(key);
    }

    /** Zero an entry and mark it as a tombstone. */
    method Bury(at: nat)
      requires entries != null && at < entries.Length && entries[at].Live?
      requires TableOk(entries[..]) && len == |contents|
      modifies entries, this`contents, this`slotOf, this`len, this`tombstones
      ensures contents == old(contents) - {view(old(entries[at]).key)}
      ensures TableOk(entries[..]) && len == |contents| && entries[..] == old(entries[..])[at := Tomb]
      ensures len == old(len) - 1 && tombstones == old(tombstones) + 1
    {
      hide Represents, ProbeChains, Count;
      ghost var slots, a := entries[..], view(entries[at].key);
      PresentAt(slots, slotOf, contents, view, at);
      BurySlot(slots, slotOf, contents, hash, view, at);
      CountUpdate(slots, at, Tomb, 1);
      CountUpdate(slots, at, Tomb, 2);
      entries[at] := Tomb;
      assert entries[..] == slots[at := Tomb];
      contents, slotOf := contents - {a}, slotOf - {a};
      len, tombstones := len - 1, tombstones + 1;
    }

    method Delete(key: K)
      requires Valid()
      modifies this, entries
      ensures Valid() && entries == old(entries)
      ensures contents == old(contents) - {view(key)}
      ensures puts == old(puts) && cap == old(cap) && len + tombstones == old(len + tombstones)
      ensures view(key) in old(contents) ==> cap > 0 && TombAhead(entries[..], Home(hash, key, cap))
    {
      hide Represents, ProbeChains, Missed, Count, Home, PowerOfTwo, TombAhead;
      if cap == 0 {
        return;
      }
      ghost var slots, home := entries[..], Home(hash, key, cap);
      var idx: nat := Home(hash, key, cap);
      MissNone(slots, home, view(key), view);
      for i := 0 to cap
        invariant unchanged(this) && unchanged(entries) && entries[..] == slots && idx < cap
        invariant i < cap ==> Steps(home, idx, cap) == i
        invariant Missed(slots, home, i, view(key), view)
      {
        var e := entries[idx];
        if e.Empty? {
          AbsentAtEmpty(slots, slotOf, contents, hash, eq, view, key, idx);
          return;
        }
        if e.Live? && eq(key, e.key) {
          Bury(idx);
          BuriedAhead(slots, home, i, view(key), view, idx);
          return;
        }
        MissOne(slots, home, i, view(key), view, idx);
        ProbeAdvances(home, idx, cap);
        idx := (idx + 1) % cap;
      }
      FullTurnHits(slots, home, view(key), view);
      assert false;
    }

    method Clear()
      requires Valid()
      modifies this, entries
      ensures Valid() && entries == old(entries)
      ensures contents == map[] && puts == old(puts) && cap == old(cap) && tombstones == 0
    {
      hide Represents, ProbeChains, Count, DescriptorOk, PowerOfTwo;
      if cap == 0 {
        return;
      }
      forall i | 0 <= i < entries.Length {
        entries[i] := Empty;
      }
      len, tombstones := 0, 0;
      contents, slotOf := map[], map[];
      EmptyTable(entries[..], hash, view);
    }

    /** __nc_map_next: the first live slot at or after `start`, or -1. */
    method Next(start: int) returns (idx: int, pair: Slot<K, V>)
      requires Valid()
      ensures start < 0 || cap == 0 ==> idx == -1
      ensures idx == -1 ==> start < 0 || forall i :: start <= i < cap ==> !entries[i].Live?
      ensures idx != -1 ==>
        && 0 <= start <= idx < cap && pair == entries[idx] && pair.Live?
        && forall i :: start <= i < idx ==> !entries[i].Live?
    {
      if cap == 0 || start < 0 {
        return -1, Empty;
      }
      idx := start;
      while idx < cap
        invariant start <= idx
        invariant forall i :: start <= i < idx && i < cap ==> !entries[i].Live?
      {
        if entries[idx].Live? {
          return idx, entries[idx];
        }
        idx := idx + 1;
      }
      return -1, Empty;
    }

    /** The cursor loop the compiler emits for `for k, v in m`, with a body that records the pair. */
    method ForIn() returns (pairs: seq<(K, V)>)
      requires Valid()
      ensures Enumerates(pairs, contents, view)
    {
      hide Represents, ProbeChains, Count, Enumerates, LivePairs, PowerOfTwo, DescriptorOk;
      pairs := [];
      ghost var slots := if cap == 0 then [] else entries[..];
      if cap == 0 {
        EmptyTable(slots, hash, view);
      }
      var cursor := 0;
      assert LivePairs(slots[..0]) == [] by { NoPairs(slots[..0]); }
      while true
        invariant 0 <= cursor <= |slots| == cap
        invariant pairs == LivePairs(slots[..cursor])
        decreases cap - cursor
      {
        var found, pair := Next(cursor);
        if found < 0 {
          LivePairsSkip(slots, cursor, cap);
          break;
        }
        LivePairsSkip(slots, cursor, found);
        LivePairsTake(slots, found);
        pairs := pairs + [(pair.key, pair.value)];
        cursor := found + 1;
      }
      assert slots[..cap] == slots;
      if cap > 0 {
        LivePairsEnumerate(slots, slotOf, contents, view);
      } else {
        LivePairsEnumerate(slots, map[], contents, view);
      }
    }

    method Apply(op: Op<K, V>) returns (answer: Answer<V>)
      requires Valid()
      modifies this, entries
      ensures Valid() && (entries == old(entries) || fresh(entries))
      ensures (contents, answer) == SpecStep(old(contents), op, view, zero)
      ensures puts == old(puts) + (if op.Set? then 1 else 0)
    {
      hide Represents, ProbeChains, Count, DescriptorOk, PowerOfTwo;
      match op
      case Set(k, v) => Set(k, v); answer := Done;
      case Get(k) => var v := Get(k); answer := Got(v);
      case Has(k) => var b := Has(k); answer := Found(b);
      case Delete(k) => Delete(k); answer := Done;
      case Clear => Clear(); answer := Done;
    }

    /** Putting and deleting one key over and over doubles the table once at most, and never with a slot to spare. */
    method Churn(key: K, values: seq<V>)
      requires Valid() && view(key) !in contents
      modifies this, entries
      ensures Valid() && (entries == old(entries) || fresh(entries)) && contents == old(contents)
      ensures cap <= 2 * if old(cap) == 0 then 16 else old(cap)
      ensures old(cap) > 0 && 10 * (old(len + tombstones) + 1) <= 7 * old(cap) ==> entries == old(entries)
    {
      hide Represents, ProbeChains, Count, PowerOfTwo, Home, TombAhead, DescriptorOk;
      ghost var cap0, used0 := if cap == 0 then 16 else cap, len + tombstones;
      for n := 0 to |values|
        invariant Valid() && (entries == old(entries) || fresh(entries))
        invariant contents == old(contents) && len == old(len)
        invariant n == 0 ==> cap == old(cap) && len + tombstones == used0 && entries == old(entries)
        invariant n > 0 ==> cap > 0 && TombAhead(entries[..], Home(hash, key, cap))
        invariant n > 0 ==> || (cap == cap0 && len + tombstones <= used0 + 1)
                            || (cap == 2 * cap0 && len + tombstones <= len + 1)
        invariant old(cap) > 0 && 10 * (used0 + 1) <= 7 * old(cap) ==> cap == old(cap) && entries == old(entries)
      {
        Set(key, values[n]);
        Delete(key);
        assert contents == old(contents);
      }
    }

    /** Any run of operations answers as a mathematical map does, and len is the map's size. */
    method Run(ops: seq<Op<K, V>>) returns (answers: seq<Answer<V>>)
      requires Valid()
      modifies this, entries
      ensures Valid() && (contents, answers) == SpecRun(old(contents), ops, view, zero)
      ensures len == |contents|
      ensures puts == old(puts) + Sets(ops)
      ensures cap > 0 ==> 10 * (len + tombstones) <= 7 * cap + 10 && 7 * cap <= Max(112, 20 * puts)
    {
      hide Represents, ProbeChains, Count, DescriptorOk, PowerOfTwo, SpecStep;
      answers := [];
      for i := 0 to |ops|
        invariant Valid() && (entries == old(entries) || fresh(entries))
        invariant (contents, answers) == SpecRun(old(contents), ops[..i], view, zero)
        invariant puts == old(puts) + Sets(ops[..i])
      {
        var answer := Apply(ops[i]);
        answers := answers + [answer];
        assert ops[..i + 1][..i] == ops[..i];
      }
      assert ops[..|ops|] == ops;
    }
  }

  function Max(a: int, b: int): int {
    if a < b then b else a
  }
}
