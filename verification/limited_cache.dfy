/**
  `LimitedCache`: a map and a queue of its keys, oldest first, that together hold fewer entries
  than the queue's capacity.  The pair refines `Fifo`, a plain list of slots.
 */
module Cache {
  import opened Bytes

  /** An entry and the time at which its key was inserted; updates do not change the time. */
  datatype Slot<K, V> = Slot(key: K, value: V, born: nat)

  type Fifo<K, V> = seq<Slot<K, V>>

  predicate HasKey<K(==), V>(q: Fifo<K, V>, k: K) {
    exists i :: 0 <= i < |q| && q[i].key == k
  }

  function Lookup<K(==), V>(q: Fifo<K, V>, k: K): Option<V> {
    if q == [] then None else if q[0].key == k then Some(q[0].value) else Lookup(q[1..], k)
  }

  function Assign<K(==), V>(q: Fifo<K, V>, k: K, v: V): (r: Fifo<K, V>)
    ensures |r| == |q| && forall i :: 0 <= i < |q| ==> r[i] == if q[i].key == k then q[i].(value := v) else q[i]
  {
    seq(|q|, i requires 0 <= i < |q| => if q[i].key == k then q[i].(value := v) else q[i])
  }

  /** Appends a slot; a queue that reaches its capacity loses the oldest one. */
  function Push<K, V>(q: Fifo<K, V>, s: Slot<K, V>, capacity: nat): Fifo<K, V> {
    var t := q + [s];
    if |t| == capacity then t[1..] else t
  }

  function Put<K(==), V>(q: Fifo<K, V>, k: K, v: V, capacity: nat, now: nat): Fifo<K, V> {
    if HasKey(q, k) then Assign(q, k, v) else Push(q, Slot(k, v, now), capacity)
  }

  /** Edits the entry of `k`, inserting `v0` first if there is none. */
  function Edit<K(==), V>(q: Fifo<K, V>, k: K, v0: V, edit: V -> V, capacity: nat, now: nat): Fifo<K, V> {
    Put(q, k, edit(match Lookup(q, k) case Some(v) => v case None => v0), capacity, now)
  }

  function Without<K(==), V>(q: Fifo<K, V>, k: K): Fifo<K, V> {
    if q == [] then [] else if q[0].key == k then q[1..] else [q[0]] + Without(q[1..], k)
  }

  lemma {:induction false} LookupIs<K, V>(q: Fifo<K, V>, k: K, i: nat)
    requires i < |q| && q[i].key == k && forall j :: 0 <= j < i ==> q[j].key != k
    ensures Lookup(q, k) == Some(q[i].value) && Without(q, k) == q[..i] + q[i + 1..]
    decreases i
  {
    if i > 0 {
      LookupIs(q[1..], k, i - 1);
      assert [q[0]] + (q[1..][..i - 1] + q[1..][i..]) == q[..i] + q[i + 1..];
    } else {
      assert q[..0] + q[1..] == q[1..];
    }
  }

  lemma {:induction false} LookupNone<K, V>(q: Fifo<K, V>, k: K)
    requires !HasKey(q, k)
    ensures Lookup(q, k) == None && Without(q, k) == q
    decreases |q|
  {
    if q != [] {
      assert forall i :: 0 <= i < |q[1..]| ==> q[1..][i] == q[i + 1];
      LookupNone(q[1..], k);
    }
  }

  lemma {:induction false} LookupFinds<K, V>(q: Fifo<K, V>, name: K)
    ensures HasKey(q, name) <==> Lookup(q, name).Some?
    ensures Lookup(q, name).Some? ==>
              exists i :: 0 <= i < |q| && q[i].key == name && q[i].value == Lookup(q, name).value
    decreases |q|
  {
    if q != [] && q[0].key != name {
      LookupFinds(q[1..], name);
      assert forall i :: 0 <= i < |q[1..]| ==> q[1..][i] == q[i + 1];
      if HasKey(q, name) {
        var i :| 0 <= i < |q| && q[i].key == name;
        assert q[1..][i - 1].key == name;
      }
    }
  }

  /** The queue lists exactly the map's keys, each once. */
  ghost predicate Consistent<K, V>(oldest: seq<K>, entries: map<K, V>, births: map<K, nat>) {
    && (forall i, j :: 0 <= i < j < |oldest| ==> oldest[i] != oldest[j])
    && (forall k :: k in entries ==> k in oldest)
    && (forall k :: k in oldest ==> k in entries && k in births)
  }

  ghost function Slots<K, V>(oldest: seq<K>, entries: map<K, V>, births: map<K, nat>): (q: Fifo<K, V>)
    requires Consistent(oldest, entries, births)
    ensures |q| == |oldest|
    ensures forall i :: 0 <= i < |q| ==> q[i] == Slot(oldest[i], entries[oldest[i]], births[oldest[i]])
  {
    seq(|oldest|, i requires 0 <= i < |oldest| => Slot(oldest[i], entries[oldest[i]], births[oldest[i]]))
  }

  lemma {:induction false} SlotsHasKey<K, V>(oldest: seq<K>, entries: map<K, V>, births: map<K, nat>, k: K)
    requires Consistent(oldest, entries, births)
    ensures HasKey(Slots(oldest, entries, births), k) == (k in entries)
  {
    if k in entries {
      var i :| 0 <= i < |oldest| && oldest[i] == k;
      assert Slots(oldest, entries, births)[i].key == k;
    }
  }

  lemma {:induction false} AssignSlot<K, V>(oldest: seq<K>, entries: map<K, V>, births: map<K, nat>, k: K, v: V)
    requires Consistent(oldest, entries, births) && k in entries
    ensures Consistent(oldest, entries[k := v], births)
    ensures Slots(oldest, entries[k := v], births) == Assign(Slots(oldest, entries, births), k, v)
  {
  }

  lemma {:induction false} AppendSlot<K, V>(oldest: seq<K>, entries: map<K, V>, births: map<K, nat>,
                                            k: K, v: V, now: nat)
    requires Consistent(oldest, entries, births) && k !in entries
    ensures Consistent(oldest + [k], entries[k := v], births[k := now])
    ensures Slots(oldest + [k], entries[k := v], births[k := now])
         == Slots(oldest, entries, births) + [Slot(k, v, now)]
  {
    assert k !in oldest;
  }

  lemma {:induction false} RemoveSlot<K, V>(oldest: seq<K>, entries: map<K, V>, births: map<K, nat>, n: nat)
    requires Consistent(oldest, entries, births) && n < |oldest|
    ensures var q, o, e := Slots(oldest, entries, births), oldest[..n] + oldest[n + 1..], entries - {oldest[n]};
            Consistent(o, e, births) && Slots(o, e, births) == q[..n] + q[n + 1..]
  {
    var o, e := oldest[..n] + oldest[n + 1..], entries - {oldest[n]};
    RemoveKeeps(oldest, entries, births, n);
    var q, r := Slots(oldest, entries, births), Slots(o, e, births);
    var cut := q[..n] + q[n + 1..];
    forall i | 0 <= i < |o| ensures r[i] == cut[i] {
      var j := if i < n then i else i + 1;
      assert o[i] == oldest[j] && cut[i] == q[j];
    }
  }

  lemma {:induction false} RemoveKeeps<K, V>(oldest: seq<K>, entries: map<K, V>, births: map<K, nat>, n: nat)
    requires Consistent(oldest, entries, births) && n < |oldest|
    ensures Consistent(oldest[..n] + oldest[n + 1..], entries - {oldest[n]}, births)
  {
    var o, e := oldest[..n] + oldest[n + 1..], entries - {oldest[n]};
    RemoveKey(oldest, n);
    forall k | k in o ensures k in e && k in births {
      assert k in oldest && k != oldest[n];
    }
  }

  lemma {:induction false} RemoveKey<K>(oldest: seq<K>, n: nat)
    requires n < |oldest| && forall i, j :: 0 <= i < j < |oldest| ==> oldest[i] != oldest[j]
    ensures var o := oldest[..n] + oldest[n + 1..];
            && (forall i :: 0 <= i < |o| ==> o[i] == oldest[if i < n then i else i + 1])
            && (forall i, j :: 0 <= i < j < |o| ==> o[i] != o[j])
            && (forall k :: k in oldest ==> k == oldest[n] || k in o)
            && (forall k :: k in o ==> k in oldest && k != oldest[n])
  {
    var o := oldest[..n] + oldest[n + 1..];
    forall k | k in oldest && k != oldest[n] ensures k in o {
      var i :| 0 <= i < |oldest| && oldest[i] == k;
      assert o[if i < n then i else i - 1] == k;
    }
  }

  lemma {:induction false} RemoveFirst<K, V>(oldest: seq<K>, entries: map<K, V>, births: map<K, nat>)
    requires Consistent(oldest, entries, births) && oldest != []
    ensures Consistent(oldest[1..], entries - {oldest[0]}, births)
    ensures Slots(oldest[1..], entries - {oldest[0]}, births) == Slots(oldest, entries, births)[1..]
  {
    var o, e := oldest[1..], entries - {oldest[0]};
    assert forall i :: 0 <= i < |o| ==> o[i] == oldest[i + 1];
    forall k | k in e ensures k in o {
      var i :| 0 <= i < |oldest| && oldest[i] == k;
      assert o[i - 1] == k;
    }
    assert Consistent(o, e, births);
  }

  class LimitedCache<K(==), V> {
    var entries: map<K, V>
    var oldest: seq<K>
    const capacity: nat
    ghost var births: map<K, nat>
    ghost var clock: nat

    ghost predicate Valid()
      reads this
    {
      |oldest| < capacity && Consistent(oldest, entries, births)
    }

    ghost function Contents(): Fifo<K, V>
      requires Valid()
      reads this
    {
      Slots(oldest, entries, births)
    }

    /**
      The queue has room for at least what was asked for, and for something once it is pushed to;
      it never grows after that, because it is never full when an insertion begins.
     */
    constructor (requested: nat, granted: nat)
      requires requested <= granted && 0 < granted
      ensures Valid() && Contents() == [] && clock == 0 && capacity == granted
    {
      capacity := granted;
      entries, oldest, births, clock := map[], [], map[], 0;
    }

    method Insert(k: K, v: V)
      requires Valid()
      modifies this
      ensures Valid() && Contents() == Put(old(Contents()), k, v, capacity, old(clock)) && clock == old(clock) + 1
    {
      SlotsHasKey(oldest, entries, births, k);
      clock := clock + 1;
      if k in entries {
        AssignSlot(oldest, entries, births, k, v);
        entries := entries[k := v];
        return;
      }
      AppendSlot(oldest, entries, births, k, v, old(clock));
      oldest := oldest + [k];
      entries := entries[k := v];
      births := births[k := old(clock)];
      if |oldest| == capacity {
        EvictOldest();
      }
    }

    method EvictOldest()
      requires oldest != [] && Consistent(oldest, entries, births)
      modifies `oldest, `entries
      ensures Consistent(oldest, entries, births) && |oldest| == |old(oldest)| - 1
      ensures Slots(oldest, entries, births) == old(Slots(oldest, entries, births))[1..]
    {
      RemoveFirst(oldest, entries, births);
      entries := entries - {oldest[0]};
      oldest := oldest[1..];
    }

    method Get(k: K) returns (r: Option<V>)
      requires Valid()
      ensures r == Lookup(Contents(), k) && (r.Some? <==> k in entries)
    {
      ghost var q := Contents();
      SlotsHasKey(oldest, entries, births, k);
      if k in entries {
        ghost var i :| 0 <= i < |oldest| && oldest[i] == k;
        LookupIs(q, k, i);
        r := Some(entries[k]);
      } else {
        LookupNone(q, k);
        r := None;
      }
    }

    method GetOrInsertDefaultAndEdit(k: K, v0: V, edit: V -> V)
      requires Valid()
      modifies this
      ensures Valid() && Contents() == Edit(old(Contents()), k, v0, edit, capacity, old(clock))
      ensures clock == old(clock) + 1
    {
      var found := Get(k);
      match found
      case Some(v) => Insert(k, edit(v));
      case None => Insert(k, edit(v0));
    }

    /** `get_mut` followed by an edit of the value it finds. */
    method GetMutAndEdit(k: K, edit: V -> V) returns (found: Option<V>)
      requires Valid()
      modifies this
      ensures Valid() && clock == old(clock) + 1 && found == Lookup(old(Contents()), k)
      ensures Contents() == if found.Some? then Assign(old(Contents()), k, edit(found.value)) else old(Contents())
    {
      found := Get(k);
      clock := clock + 1;
      if found.Some? {
        AssignSlot(oldest, entries, births, k, edit(found.value));
        entries := entries[k := edit(found.value)];
      }
    }

    method Remove(k: K) returns (r: Option<V>)
      requires Valid()
      modifies this
      ensures Valid() && clock == old(clock) + 1
      ensures r == Lookup(old(Contents()), k) && Contents() == Without(old(Contents()), k)
    {
      r := Get(k);
      clock := clock + 1;
      if r.None? {
        SlotsHasKey(oldest, entries, births, k);
        LookupNone(Contents(), k);
        return;
      }
      var index := 0;
      while oldest[index] != k
        invariant 0 <= index < |oldest| && forall j :: 0 <= j < index ==> oldest[j] != k
        decreases |oldest| - index
      {
        assert index + 1 == |oldest| ==> k !in oldest;
        index := index + 1;
      }
      LookupIs(Contents(), k, index);
      RemoveSlot(oldest, entries, births, index);
      entries := entries - {k};
      oldest := oldest[..index] + oldest[index + 1..];
    }
  }

  // -----------------------------------------------------------------------------------------
  // What every run of the cache guarantees
  // -----------------------------------------------------------------------------------------

  datatype Op<K, !V> =
    | InsertOp(k: K, v: V)
    | EditOp(ek: K, default: V, edit: V -> V)
    | UpdateOp(uk: K, update: V -> V)
    | RemoveOp(rk: K)

  function StepFifo<K(==), V>(q: Fifo<K, V>, op: Op<K, V>, capacity: nat, now: nat): Fifo<K, V> {
    match op
    case InsertOp(k, v) => Put(q, k, v, capacity, now)
    case EditOp(k, v0, edit) => Edit(q, k, v0, edit, capacity, now)
    case UpdateOp(k, update) =>
      (match Lookup(q, k) case Some(v) => Assign(q, k, update(v)) case None => q)
    case RemoveOp(k) => Without(q, k)
  }

  function RunFifo<K(==), V>(q: Fifo<K, V>, ops: seq<Op<K, V>>, capacity: nat, now: nat): Fifo<K, V>
    decreases |ops|
  {
    if ops == [] then q else RunFifo(StepFifo(q, ops[0], capacity, now), ops[1..], capacity, now + 1)
  }

  /** The cache itself, taken through a run from the start, holds what the list of slots holds. */
  method Replay<K(==), V>(requested: nat, granted: nat, ops: seq<Op<K, V>>) returns (c: LimitedCache<K, V>)
    requires requested <= granted && 0 < granted
    ensures fresh(c) && c.Valid() && c.capacity == granted
    ensures c.Contents() == RunFifo([], ops, granted, 0)
  {
    c := new LimitedCache(requested, granted);
    var i := 0;
    assert ops[0..] == ops;
    while i < |ops|
      invariant 0 <= i <= |ops| && fresh(c) && c.Valid() && c.capacity == granted
      invariant RunFifo(c.Contents(), ops[i..], granted, c.clock) == RunFifo([], ops, granted, 0)
    {
      assert ops[i..][0] == ops[i] && ops[i..][1..] == ops[i + 1..];
      Perform(c, ops[i]);
      i := i + 1;
    }
  }

  method Perform<K(==), V>(c: LimitedCache<K, V>, op: Op<K, V>)
    requires c.Valid()
    modifies c
    ensures c.Valid() && c.clock == old(c.clock) + 1
    ensures c.Contents() == StepFifo(old(c.Contents()), op, c.capacity, old(c.clock))
  {
    match op {
      case InsertOp(k, v) => c.Insert(k, v);
      case EditOp(k, v0, edit) => c.GetOrInsertDefaultAndEdit(k, v0, edit);
      case UpdateOp(k, update) => var _ := c.GetMutAndEdit(k, update);
      case RemoveOp(k) => var _ := c.Remove(k);
    }
  }

  /** Fewer entries than the capacity, no key twice, in order of insertion. */
  ghost predicate FifoInv<K, V>(q: Fifo<K, V>, capacity: nat, now: nat) {
    && |q| < capacity
    && (forall i, j :: 0 <= i < j < |q| ==> q[i].key != q[j].key && q[i].born < q[j].born)
    && (forall i :: 0 <= i < |q| ==> q[i].born < now)
  }

  lemma {:induction false} AppendKeepsInv<K, V>(q: Fifo<K, V>, s: Slot<K, V>, capacity: nat, now: nat)
    requires FifoInv(q, capacity, now) && !HasKey(q, s.key) && s.born == now
    ensures FifoInv(q + [s], capacity + 1, now + 1)
  {
    var t := q + [s];
    assert forall i :: 0 <= i < |q| ==> t[i] == q[i] && q[i].key != s.key;
  }

  lemma {:induction false} PutKeepsInv<K, V>(q: Fifo<K, V>, k: K, v: V, capacity: nat, now: nat)
    requires FifoInv(q, capacity, now)
    ensures FifoInv(Put(q, k, v, capacity, now), capacity, now + 1)
  {
    if HasKey(q, k) {
      AssignKeepsInv(q, k, v, capacity, now);
    } else {
      AppendKeepsInv(q, Slot(k, v, now), capacity, now);
      PopKeepsInv(q + [Slot(k, v, now)], capacity, now);
    }
  }

  lemma {:induction false} AssignKeepsInv<K, V>(q: Fifo<K, V>, k: K, v: V, capacity: nat, now: nat)
    requires FifoInv(q, capacity, now)
    ensures FifoInv(Assign(q, k, v), capacity, now + 1)
  {
    var r := Assign(q, k, v);
    assert forall i :: 0 <= i < |q| ==> r[i].key == q[i].key && r[i].born == q[i].born;
  }

  lemma {:induction false} PopKeepsInv<K, V>(t: Fifo<K, V>, capacity: nat, now: nat)
    requires FifoInv(t, capacity + 1, now + 1) && t != []
    ensures FifoInv(if |t| == capacity then t[1..] else t, capacity, now + 1)
  {
    assert forall i :: 0 <= i < |t| - 1 ==> t[1..][i] == t[i + 1];
  }

  lemma {:induction false} WithoutKeepsInv<K, V>(q: Fifo<K, V>, k: K, capacity: nat, now: nat)
    requires FifoInv(q, capacity, now)
    ensures FifoInv(Without(q, k), capacity, now + 1) && !HasKey(Without(q, k), k)
  {
    if HasKey(q, k) {
      var i :| 0 <= i < |q| && q[i].key == k;
      LookupIs(q, k, i);
      CutKeepsInv(q, i, capacity, now);
    } else {
      LookupNone(q, k);
    }
  }

  lemma {:induction false} CutKeepsInv<K, V>(q: Fifo<K, V>, n: nat, capacity: nat, now: nat)
    requires FifoInv(q, capacity, now + 1) && n < |q|
    ensures var r := q[..n] + q[n + 1..]; FifoInv(r, capacity, now + 1) && |r| == |q| - 1 && !HasKey(r, q[n].key)
  {
    var r := q[..n] + q[n + 1..];
    assert forall i :: 0 <= i < |r| ==> r[i] == q[if i < n then i else i + 1];
  }

  lemma {:induction false} StepKeepsFifoInv<K, V>(q: Fifo<K, V>, op: Op<K, V>, capacity: nat, now: nat)
    requires FifoInv(q, capacity, now)
    ensures FifoInv(StepFifo(q, op, capacity, now), capacity, now + 1)
  {
    match op {
      case InsertOp(k, v) => PutKeepsInv(q, k, v, capacity, now);
      case EditOp(k, v0, edit) =>
        PutKeepsInv(q, k, edit(match Lookup(q, k) case Some(v) => v case None => v0), capacity, now);
      case UpdateOp(k, update) =>
      case RemoveOp(k) => WithoutKeepsInv(q, k, capacity, now);
    }
  }

  /** After every run keys are distinct and in first-insertion order, at most capacity - 1 of them. */
  lemma {:induction false} RunKeepsFifoInv<K, V>(q: Fifo<K, V>, ops: seq<Op<K, V>>, capacity: nat, now: nat)
    requires FifoInv(q, capacity, now)
    ensures FifoInv(RunFifo(q, ops, capacity, now), capacity, now + |ops|)
    decreases |ops|
  {
    if ops != [] {
      StepKeepsFifoInv(q, ops[0], capacity, now);
      RunKeepsFifoInv(StepFifo(q, ops[0], capacity, now), ops[1..], capacity, now + 1);
    }
  }

  // What a call does to the value found under each key.

  ghost predicate Distinct<K, V>(q: Fifo<K, V>) {
    forall i, j :: 0 <= i < j < |q| ==> q[i].key != q[j].key
  }

  /** Inserting `k` makes `j` leave: the queue reaches its capacity and `j` is its oldest key. */
  ghost predicate Evicts<K, V>(q: Fifo<K, V>, k: K, capacity: nat, j: K) {
    !HasKey(q, k) && |q| + 1 == capacity && j == if q == [] then k else q[0].key
  }

  lemma {:induction false} AssignLookup<K, V>(q: Fifo<K, V>, k: K, v: V, j: K)
    ensures Lookup(Assign(q, k, v), j) == if j == k && HasKey(q, k) then Some(v) else Lookup(q, j)
    decreases |q|
  {
    if q != [] {
      var r := Assign(q, k, v);
      assert r[1..] == Assign(q[1..], k, v);
      AssignLookup(q[1..], k, v, j);
      assert forall i :: 0 <= i < |q[1..]| ==> q[1..][i] == q[i + 1];
      if q[0].key != k && HasKey(q, k) {
        var i :| 0 <= i < |q| && q[i].key == k;
        assert q[1..][i - 1].key == k;
      }
      if q[0].key == k {
        assert HasKey(q, k);
      }
    }
  }

  lemma {:induction false} AppendLookup<K, V>(q: Fifo<K, V>, s: Slot<K, V>, j: K)
    requires !HasKey(q, s.key)
    ensures Lookup(q + [s], j) == if j == s.key then Some(s.value) else Lookup(q, j)
    decreases |q|
  {
    if q == [] {
      assert q + [s] == [s] && [s][1..] == [];
    } else {
      assert (q + [s])[1..] == q[1..] + [s];
      assert forall i :: 0 <= i < |q[1..]| ==> q[1..][i] == q[i + 1];
      AppendLookup(q[1..], s, j);
    }
  }

  lemma {:induction false} PopLookup<K, V>(q: Fifo<K, V>, j: K)
    requires q != [] && Distinct(q)
    ensures Lookup(q[1..], j) == if j == q[0].key then None else Lookup(q, j)
  {
    if j == q[0].key {
      assert forall i :: 0 <= i < |q[1..]| ==> q[1..][i] == q[i + 1];
      LookupNone(q[1..], j);
    }
  }

  lemma {:induction false} PutLookup<K, V>(q: Fifo<K, V>, k: K, v: V, capacity: nat, now: nat, j: K)
    requires Distinct(q)
    ensures Lookup(Put(q, k, v, capacity, now), j)
         == if Evicts(q, k, capacity, j) then None else if j == k then Some(v) else Lookup(q, j)
  {
    if HasKey(q, k) {
      AssignLookup(q, k, v, j);
    } else {
      var t := q + [Slot(k, v, now)];
      AppendLookup(q, Slot(k, v, now), j);
      assert forall i :: 0 <= i < |q| ==> t[i] == q[i] && q[i].key != k;
      if |t| == capacity {
        PopLookup(t, j);
      }
    }
  }

  lemma {:induction false} WithoutLookup<K, V>(q: Fifo<K, V>, k: K, j: K)
    requires Distinct(q)
    ensures Lookup(Without(q, k), j) == if j == k then None else Lookup(q, j)
    decreases |q|
  {
    if q != [] {
      var rest := q[1..];
      assert forall i :: 0 <= i < |rest| ==> rest[i] == q[i + 1];
      if q[0].key == k {
        PopLookup(q, j);
      } else {
        WithoutLookup(rest, k, j);
        var r := [q[0]] + Without(rest, k);
        assert r[1..] == Without(rest, k) && r[0] == q[0];
      }
    }
  }

  /** Each call, by the value found under every key before and after it. */
  lemma {:induction false} StepFifoExactly<K, V>(q: Fifo<K, V>, op: Op<K, V>, capacity: nat, now: nat, j: K)
    requires Distinct(q)
    ensures var was, found := Lookup(q, j), Lookup(StepFifo(q, op, capacity, now), j);
            match op
            case InsertOp(k, v) => found == if Evicts(q, k, capacity, j) then None else if j == k then Some(v) else was
            case EditOp(k, v0, edit) =>
              found == if Evicts(q, k, capacity, j) then None
                    else if j != k then was
                    else Some(edit(if was.Some? then was.value else v0))
            case UpdateOp(k, update) => found == if j == k && was.Some? then Some(update(was.value)) else was
            case RemoveOp(k) => found == if j == k then None else was
  {
    match op {
      case InsertOp(k, v) => PutLookup(q, k, v, capacity, now, j);
      case EditOp(k, v0, edit) =>
        PutLookup(q, k, edit(match Lookup(q, k) case Some(v) => v case None => v0), capacity, now, j);
      case UpdateOp(k, update) =>
        LookupFinds(q, k);
        if Lookup(q, k).Some? {
          AssignLookup(q, k, update(Lookup(q, k).value), j);
        }
      case RemoveOp(k) => WithoutLookup(q, k, j);
    }
  }

  // Which keys survive when nothing is removed: the last capacity - 1 insertions.

  function Keys<K, V>(q: Fifo<K, V>): (ks: seq<K>)
    ensures |ks| == |q| && forall i :: 0 <= i < |q| ==> ks[i] == q[i].key
  {
    seq(|q|, i requires 0 <= i < |q| => q[i].key)
  }

  /** The keys inserted by a run of insertions, in order; a key counts again once it was evicted. */
  function Insertions<K(==), V>(q: Fifo<K, V>, ops: seq<(K, V)>, capacity: nat, now: nat): seq<K>
    decreases |ops|
  {
    if ops == [] then []
    else (if HasKey(q, ops[0].0) then [] else [ops[0].0])
         + Insertions(Put(q, ops[0].0, ops[0].1, capacity, now), ops[1..], capacity, now + 1)
  }

  function RunInserts<K(==), V>(q: Fifo<K, V>, ops: seq<(K, V)>, capacity: nat, now: nat): Fifo<K, V>
    decreases |ops|
  {
    if ops == [] then q
    else RunInserts(Put(q, ops[0].0, ops[0].1, capacity, now), ops[1..], capacity, now + 1)
  }

  /** The last `n` elements of `s`, or all of them. */
  function Last<K>(s: seq<K>, n: nat): seq<K> {
    if |s| <= n then s else s[|s| - n..]
  }

  lemma {:induction false} LastOfLast<K>(s: seq<K>, t: seq<K>, u: seq<K>, n: nat)
    ensures Last(Last(s + t, n) + u, n) == Last(s + (t + u), n)
  {
    Assoc(s, t, u);
    assert Last(Last(s + t, n) + u, n) == Last(s + t + u, n);
  }

  lemma {:induction false} PutKeys<K, V>(q: Fifo<K, V>, k: K, v: V, capacity: nat, now: nat)
    requires |q| < capacity
    ensures |Put(q, k, v, capacity, now)| < capacity
    ensures Keys(Put(q, k, v, capacity, now))
         == Last(Keys(q) + if HasKey(q, k) then [] else [k], capacity - 1)
  {
  }

  /** Without removals, exactly the last capacity - 1 insertions survive. */
  lemma {:induction false} NewestSurvive<K, V>(q: Fifo<K, V>, ops: seq<(K, V)>, capacity: nat, now: nat)
    requires |q| < capacity
    ensures Keys(RunInserts(q, ops, capacity, now))
         == Last(Keys(q) + Insertions(q, ops, capacity, now), capacity - 1)
    decreases |ops|
  {
    if ops == [] {
      assert Keys(q) + [] == Keys(q);
    } else {
      var (k, v) := ops[0];
      var q' := Put(q, k, v, capacity, now);
      var first: seq<K> := if HasKey(q, k) then [] else [k];
      var more := Insertions(q', ops[1..], capacity, now + 1);
      PutKeys(q, k, v, capacity, now);
      NewestSurvive(q', ops[1..], capacity, now + 1);
      LastOfLast(Keys(q), first, more, capacity - 1);
    }
  }
}
