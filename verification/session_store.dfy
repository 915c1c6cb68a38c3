/**
  `ClientSessionMemoryCache`: per server a key-exchange hint, a TLS 1.2 session and up to eight
  TLS 1.3 tickets, kept in a `LimitedCache`.  The mutex makes each call atomic, so a run is a
  list of calls.
 */
module Sessions {
  import opened Bytes
  import opened Cache

  const MAX_TLS13_TICKETS_PER_SERVER: nat := 8

  type Ticket = nat

  datatype ServerData = ServerData(kxHint: Option<nat>, tls12: Option<nat>, tls13: seq<Ticket>)

  const EMPTY_SERVER := ServerData(None, None, [])

  /** Adds a ticket behind the others; the oldest makes room when there are eight. */
  function AddTicket(d: ServerData, t: Ticket): ServerData {
    d.(tls13 := (if |d.tls13| == MAX_TLS13_TICKETS_PER_SERVER then d.tls13[1..] else d.tls13) + [t])
  }

  function DropNewest(d: ServerData): ServerData {
    if d.tls13 == [] then d else d.(tls13 := d.tls13[..|d.tls13| - 1])
  }

  function Newest(d: Option<ServerData>): Option<Ticket> {
    if d.Some? && d.value.tls13 != [] then Some(d.value.tls13[|d.value.tls13| - 1]) else None
  }

  /** How many servers fit: the requested number of sessions in groups of eight, rounded up. */
  function MaxServers(size: nat): nat {
    (size + (MAX_TLS13_TICKETS_PER_SERVER - 1)) / MAX_TLS13_TICKETS_PER_SERVER
  }

  // -----------------------------------------------------------------------------------------
  // Runs
  // -----------------------------------------------------------------------------------------

  type Store<N> = Fifo<N, ServerData>

  datatype Call<N> =
    | InsertTicket(name: N, ticket: Ticket)
    | TakeTicket(name: N)
    | SetKxHint(name: N, group: nat)
    | SetTls12(name: N, session: nat)
    | RemoveTls12(name: N)

  function Update<N(==)>(q: Store<N>, name: N, edit: ServerData -> ServerData): Store<N> {
    match Lookup(q, name) case Some(d) => Assign(q, name, edit(d)) case None => q
  }

  /** How a call edits the data of its server. */
  function EditOf<N>(c: Call<N>): ServerData -> ServerData {
    match c
    case InsertTicket(_, t) => (d: ServerData) => AddTicket(d, t)
    case TakeTicket(_) => DropNewest
    case SetKxHint(_, g) => (d: ServerData) => d.(kxHint := Some(g))
    case SetTls12(_, s) => (d: ServerData) => d.(tls12 := Some(s))
    case RemoveTls12(_) => (d: ServerData) => d.(tls12 := None)
  }

  /** A call that can create its server's entry edits it; the others touch only an existing one. */
  function StepStore<N(==)>(q: Store<N>, c: Call<N>, capacity: nat, now: nat): Store<N> {
    if c.TakeTicket? || c.RemoveTls12? then Update(q, c.name, EditOf(c))
    else Edit(q, c.name, EMPTY_SERVER, EditOf(c), capacity, now)
  }

  /** What a call returns: only a take returns a ticket. */
  function Returned<N(==)>(q: Store<N>, c: Call<N>): Option<Ticket> {
    if c.TakeTicket? then Newest(Lookup(q, c.name)) else None
  }

  class ClientSessionMemoryCache<N(==)> {
    const servers: LimitedCache<N, ServerData>

    ghost predicate Valid()
      reads this, servers
    {
      servers.Valid()
    }

    ghost function Contents(): Store<N>
      requires Valid()
      reads this, servers
    {
      servers.Contents()
    }

    constructor (size: nat, granted: nat)
      requires MaxServers(size) <= granted && 0 < granted
      ensures Valid() && fresh(servers)
      ensures Contents() == [] && servers.capacity == granted && servers.clock == 0
    {
      servers := new LimitedCache(MaxServers(size), granted);
    }

    method SetKxHintFor(name: N, group: nat)
      requires Valid()
      modifies servers
      ensures Valid() && servers.clock == old(servers.clock) + 1
      ensures Contents() == StepStore(old(Contents()), SetKxHint(name, group), servers.capacity, old(servers.clock))
    {
      servers.GetOrInsertDefaultAndEdit(name, EMPTY_SERVER, EditOf<N>(SetKxHint(name, group)));
    }

    method SetTls12Session(name: N, session: nat)
      requires Valid()
      modifies servers
      ensures Valid() && servers.clock == old(servers.clock) + 1
      ensures Contents() == StepStore(old(Contents()), SetTls12(name, session), servers.capacity, old(servers.clock))
    {
      servers.GetOrInsertDefaultAndEdit(name, EMPTY_SERVER, EditOf<N>(SetTls12(name, session)));
    }

    method RemoveTls12Session(name: N)
      requires Valid()
      modifies servers
      ensures Valid() && servers.clock == old(servers.clock) + 1
      ensures Contents() == StepStore(old(Contents()), RemoveTls12(name), servers.capacity, old(servers.clock))
    {
      var _ := servers.GetMutAndEdit(name, EditOf<N>(RemoveTls12(name)));
    }

    method KxHint(name: N) returns (r: Option<nat>)
      requires Valid()
      ensures r == match Lookup(Contents(), name) case Some(d) => d.kxHint case None => None
    {
      var found := servers.Get(name);
      r := if found.Some? then found.value.kxHint else None;
    }

    method Tls12Session(name: N) returns (r: Option<nat>)
      requires Valid()
      ensures r == match Lookup(Contents(), name) case Some(d) => d.tls12 case None => None
    {
      var found := servers.Get(name);
      r := if found.Some? then found.value.tls12 else None;
    }

    method InsertTls13Ticket(name: N, ticket: Ticket)
      requires Valid()
      modifies servers
      ensures Valid() && servers.clock == old(servers.clock) + 1
      ensures Contents() == StepStore(old(Contents()), InsertTicket(name, ticket), servers.capacity, old(servers.clock))
    {
      servers.GetOrInsertDefaultAndEdit(name, EMPTY_SERVER, EditOf<N>(InsertTicket(name, ticket)));
    }

    method TakeTls13Ticket(name: N) returns (r: Option<Ticket>)
      requires Valid()
      modifies servers
      ensures Valid() && servers.clock == old(servers.clock) + 1 && r == Returned(old(Contents()), TakeTicket(name))
      ensures Contents() == StepStore(old(Contents()), TakeTicket(name), servers.capacity, old(servers.clock))
    {
      var found := servers.GetMutAndEdit(name, EditOf<N>(TakeTicket(name)));
      r := Newest(found);
    }
  }

  // -----------------------------------------------------------------------------------------
  // The invariant of a store
  // -----------------------------------------------------------------------------------------

  /** All tickets a store holds. */
  function Held<N>(q: Store<N>): multiset<Ticket> {
    if q == [] then multiset{} else multiset(q[0].value.tls13) + Held(q[1..])
  }

  ghost predicate Sorted(ts: seq<Ticket>, bound: nat) {
    && (forall i, j :: 0 <= i < j < |ts| ==> ts[i] < ts[j])
    && (forall i :: 0 <= i < |ts| ==> ts[i] < bound)
  }

  ghost predicate StoreInv<N>(q: Store<N>, capacity: nat, now: nat) {
    && FifoInv(q, capacity, now)
    && forall i :: 0 <= i < |q| ==> |q[i].value.tls13| <= MAX_TLS13_TICKETS_PER_SERVER
  }

  lemma {:induction false} HeldConcat<N>(a: Store<N>, b: Store<N>)
    ensures Held(a + b) == Held(a) + Held(b)
    decreases |a|
  {
    if a == [] {
      assert a + b == b;
    } else {
      assert (a + b)[1..] == a[1..] + b;
      HeldConcat(a[1..], b);
    }
  }

  /** Replacing one server's data replaces its tickets and no others. */
  lemma {:induction false} HeldAssign<N>(q: Store<N>, name: N, d: ServerData)
    requires forall i, j :: 0 <= i < j < |q| ==> q[i].key != q[j].key
    requires Lookup(q, name).Some?
    ensures Held(Assign(q, name, d)) + multiset(Lookup(q, name).value.tls13) == Held(q) + multiset(d.tls13)
    ensures multiset(Lookup(q, name).value.tls13) <= Held(q)
    decreases |q|
  {
    var r := Assign(q, name, d);
    var rest := Assign(q[1..], name, d);
    if q[0].key == name {
      assert !HasKey(q[1..], name);
      assert r[1..] == q[1..];
    } else {
      HeldAssign(q[1..], name, d);
      assert r[1..] == rest && r[0] == q[0];
      var l := multiset(Lookup(q, name).value.tls13);
      calc {
        Held(r) + l;
        multiset(q[0].value.tls13) + (Held(rest) + l);
        multiset(q[0].value.tls13) + (Held(q[1..]) + multiset(d.tls13));
        Held(q) + multiset(d.tls13);
      }
    }
  }

  /** Appending a server adds its tickets; the server that leaves takes its own along. */
  lemma {:induction false} HeldPush<N>(q: Store<N>, s: Slot<N, ServerData>, capacity: nat)
    ensures var leaving := if |q| + 1 != capacity then [] else if q == [] then s.value.tls13 else q[0].value.tls13;
            Held(Push(q, s, capacity)) + multiset(leaving) == Held(q) + multiset(s.value.tls13)
  {
    var t := q + [s];
    HeldConcat(q, [s]);
    assert [s][1..] == [];
    assert Held([s]) == multiset(s.value.tls13);
    if |t| == capacity {
      assert t[0] == if q == [] then s else q[0];
      assert Held(t) == multiset(t[0].value.tls13) + Held(t[1..]);
    }
  }

  lemma {:induction false} AddTicketHeld(d: ServerData, t: Ticket)
    ensures multiset(AddTicket(d, t).tls13) + multiset(if |d.tls13| == 8 then [d.tls13[0]] else [])
         == multiset(d.tls13) + multiset{t}
  {
    var ts := d.tls13;
    if |ts| == 8 {
      assert ts == [ts[0]] + ts[1..];
    }
  }

  /** A call's effect on its own server's tickets: one may come, one may be taken, one may be dropped. */
  lemma {:induction false} EditTickets<N>(c: Call<N>, d: ServerData)
    ensures multiset(EditOf(c)(d).tls13) + Taken(if c.TakeTicket? then Newest(Some(d)) else None) + Overflow(c, d)
         == multiset(d.tls13) + Given(c)
  {
    if c.InsertTicket? {
      AddTicketHeld(d, c.ticket);
    } else if c.TakeTicket? && d.tls13 != [] {
      var n := |d.tls13| - 1;
      assert d.tls13 == d.tls13[..n] + [d.tls13[n]];
    }
  }

  /** The oldest of eight tickets is dropped when another one comes. */
  function Overflow<N>(c: Call<N>, d: ServerData): multiset<Ticket> {
    if c.InsertTicket? && |d.tls13| == 8 then multiset{d.tls13[0]} else multiset{}
  }

  function Creates<N>(c: Call<N>): bool {
    c.InsertTicket? || c.SetKxHint? || c.SetTls12?
  }

  /** The tickets a call drops: the oldest of eight, or those of a server that is evicted. */
  ghost function Dropped<N>(q: Store<N>, c: Call<N>, capacity: nat): multiset<Ticket> {
    match Lookup(q, c.name)
    case Some(d) => Overflow(c, d)
    case None =>
      if !Creates(c) || |q| + 1 != capacity then multiset{}
      else if q == [] then Given(c)
      else multiset(q[0].value.tls13)
  }

  /** Every ticket is accounted for by a call. */
  lemma {:induction false} StepHeld<N>(q: Store<N>, c: Call<N>, capacity: nat, now: nat)
    requires StoreInv(q, capacity, now)
    ensures Held(StepStore(q, c, capacity, now)) + Taken(Returned(q, c)) + Dropped(q, c, capacity)
         == Held(q) + Given(c)
  {
    StepIs(q, c, capacity, now);
    match Lookup(q, c.name) {
      case Some(d) => KnownHeld(q, c, d);
      case None =>
        if Creates(c) {
          NewHeld(q, c, capacity, now);
        }
    }
  }

  lemma {:induction false} StepIs<N>(q: Store<N>, c: Call<N>, capacity: nat, now: nat)
    ensures StepStore(q, c, capacity, now)
         == match Lookup(q, c.name)
            case Some(d) => Assign(q, c.name, EditOf(c)(d))
            case None =>
              if Creates(c) then Push(q, Slot(c.name, EditOf(c)(EMPTY_SERVER), now), capacity) else q
  {
    LookupFinds(q, c.name);
  }

  lemma {:induction false} KnownHeld<N>(q: Store<N>, c: Call<N>, d: ServerData)
    requires Distinct(q) && Lookup(q, c.name) == Some(d)
    ensures Held(Assign(q, c.name, EditOf(c)(d))) + Taken(Returned(q, c)) + Overflow(c, d) == Held(q) + Given(c)
  {
    EditTickets(c, d);
    HeldAssign(q, c.name, EditOf(c)(d));
    AddUp(Held(Assign(q, c.name, EditOf(c)(d))), Taken(Returned(q, c)), Overflow(c, d), Held(q), Given(c),
          multiset(d.tls13), multiset(EditOf(c)(d).tls13));
  }

  lemma {:induction false} NewHeld<N>(q: Store<N>, c: Call<N>, capacity: nat, now: nat)
    requires Creates(c) && Lookup(q, c.name) == None
    ensures Held(Push(q, Slot(c.name, EditOf(c)(EMPTY_SERVER), now), capacity)) + Dropped(q, c, capacity)
         == Held(q) + Given(c)
  {
    EditTickets(c, EMPTY_SERVER);
    HeldPush(q, Slot(c.name, EditOf(c)(EMPTY_SERVER), now), capacity);
  }

  lemma {:induction false} AddUp(h': multiset<Ticket>, t: multiset<Ticket>, o: multiset<Ticket>, h: multiset<Ticket>,
                                 g: multiset<Ticket>, d: multiset<Ticket>, e: multiset<Ticket>)
    requires h' + d == h + e && e + t + o == d + g
    ensures h' + t + o == h + g
  {
    forall x ensures (h' + t + o)[x] == (h + g)[x] {
      assert (h' + d)[x] == (h + e)[x] && (e + t + o)[x] == (d + g)[x];
    }
  }

  function Taken(r: Option<Ticket>): multiset<Ticket> {
    if r.Some? then multiset{r.value} else multiset{}
  }

  function Given<N>(c: Call<N>): multiset<Ticket> {
    if c.InsertTicket? then multiset{c.ticket} else multiset{}
  }

  /** Every server of the new store is one of the old store, or the edited one of the call. */
  ghost predicate Comes<N>(q: Store<N>, c: Call<N>, d: ServerData) {
    || (exists i :: 0 <= i < |q| && q[i].value == d)
    || (exists i :: 0 <= i < |q| && d == EditOf(c)(q[i].value))
    || d == EditOf(c)(EMPTY_SERVER)
  }

  lemma {:induction false} StepServers<N>(q: Store<N>, c: Call<N>, capacity: nat, now: nat, n: nat)
    requires n < |StepStore(q, c, capacity, now)|
    ensures Comes(q, c, StepStore(q, c, capacity, now)[n].value)
  {
    var q' := StepStore(q, c, capacity, now);
    LookupFinds(q, c.name);
    if HasKey(q, c.name) {
      assert q'[n].key == q[n].key && (q[n].key != c.name ==> q'[n] == q[n]);
    }
  }

  lemma {:induction false} StepKeepsStoreInv<N>(q: Store<N>, c: Call<N>, capacity: nat, now: nat)
    requires StoreInv(q, capacity, now)
    ensures StoreInv(StepStore(q, c, capacity, now), capacity, now + 1)
  {
    var q' := StepStore(q, c, capacity, now);
    LookupFinds(q, c.name);
    match c {
      case TakeTicket(_) =>
      case RemoveTls12(_) =>
      case _ =>
        var d := match Lookup(q, c.name) case Some(d) => d case None => EMPTY_SERVER;
        PutKeepsInv(q, c.name, EditOf(c)(d), capacity, now);
    }
    forall n | 0 <= n < |q'| ensures |q'[n].value.tls13| <= MAX_TLS13_TICKETS_PER_SERVER {
      StepServers(q, c, capacity, now, n);
    }
  }

  // -----------------------------------------------------------------------------------------
  // What every run guarantees
  // -----------------------------------------------------------------------------------------

  function RunStore<N(==)>(q: Store<N>, calls: seq<Call<N>>, capacity: nat, now: nat): Store<N>
    decreases |calls|
  {
    if calls == [] then q else RunStore(StepStore(q, calls[0], capacity, now), calls[1..], capacity, now + 1)
  }

  /** The tickets a run returns. */
  function AllReturned<N(==)>(q: Store<N>, calls: seq<Call<N>>, capacity: nat, now: nat): multiset<Ticket>
    decreases |calls|
  {
    if calls == [] then multiset{}
    else Taken(Returned(q, calls[0]))
         + AllReturned(StepStore(q, calls[0], capacity, now), calls[1..], capacity, now + 1)
  }

  function AllInserted<N>(calls: seq<Call<N>>): multiset<Ticket> {
    if calls == [] then multiset{} else Given(calls[0]) + AllInserted(calls[1..])
  }

  /** The store itself, taken through a run: what it holds in the end, and the tickets it returned. */
  method Replay<N(==)>(size: nat, granted: nat, calls: seq<Call<N>>)
    returns (c: ClientSessionMemoryCache<N>, returned: multiset<Ticket>)
    requires MaxServers(size) <= granted && 0 < granted
    ensures c.Valid() && c.Contents() == RunStore([], calls, granted, 0)
    ensures returned == AllReturned([], calls, granted, 0)
  {
    c := new ClientSessionMemoryCache(size, granted);
    returned := multiset{};
    var i := 0;
    assert calls[0..] == calls;
    while i < |calls|
      invariant 0 <= i <= |calls| && fresh(c.servers) && c.Valid() && c.servers.capacity == granted
      invariant RunStore(c.Contents(), calls[i..], granted, c.servers.clock) == RunStore([], calls, granted, 0)
      invariant returned + AllReturned(c.Contents(), calls[i..], granted, c.servers.clock)
             == AllReturned([], calls, granted, 0)
    {
      assert calls[i..][0] == calls[i] && calls[i..][1..] == calls[i + 1..];
      match calls[i] {
        case InsertTicket(name, ticket) => c.InsertTls13Ticket(name, ticket);
        case TakeTicket(name) =>
          var r := c.TakeTls13Ticket(name);
          returned := returned + Taken(r);
        case SetKxHint(name, group) => c.SetKxHintFor(name, group);
        case SetTls12(name, session) => c.SetTls12Session(name, session);
        case RemoveTls12(name) => c.RemoveTls12Session(name);
      }
      i := i + 1;
    }
  }

  ghost function AllDropped<N>(q: Store<N>, calls: seq<Call<N>>, capacity: nat, now: nat): multiset<Ticket>
    decreases |calls|
  {
    if calls == [] then multiset{}
    else Dropped(q, calls[0], capacity)
         + AllDropped(StepStore(q, calls[0], capacity, now), calls[1..], capacity, now + 1)
  }

  /** In every run the tickets returned, held and dropped are exactly those inserted. */
  lemma {:induction false} TicketsAreConserved<N>(q: Store<N>, calls: seq<Call<N>>, capacity: nat, now: nat)
    requires StoreInv(q, capacity, now)
    ensures StoreInv(RunStore(q, calls, capacity, now), capacity, now + |calls|)
    ensures AllReturned(q, calls, capacity, now) + Held(RunStore(q, calls, capacity, now))
            + AllDropped(q, calls, capacity, now) == Held(q) + AllInserted(calls)
    decreases |calls|
  {
    if calls != [] {
      var q' := StepStore(q, calls[0], capacity, now);
      StepKeepsStoreInv(q, calls[0], capacity, now);
      StepHeld(q, calls[0], capacity, now);
      TicketsAreConserved(q', calls[1..], capacity, now + 1);
      Chain(Held(q), Given(calls[0]), Taken(Returned(q, calls[0])), Dropped(q, calls[0], capacity), Held(q'),
            AllInserted(calls[1..]), AllReturned(q', calls[1..], capacity, now + 1),
            Held(RunStore(q', calls[1..], capacity, now + 1)), AllDropped(q', calls[1..], capacity, now + 1));
    }
  }

  lemma {:induction false} Chain(h: multiset<Ticket>, g: multiset<Ticket>, t: multiset<Ticket>, o: multiset<Ticket>,
                                 h': multiset<Ticket>, i: multiset<Ticket>, r: multiset<Ticket>, f: multiset<Ticket>,
                                 p: multiset<Ticket>)
    requires h' + t + o == h + g && r + f + p == h' + i
    ensures t + r + f + (o + p) == h + (g + i)
  {
    forall x ensures (t + r + f + (o + p))[x] == (h + (g + i))[x] {
      assert (h' + t + o)[x] == (h + g)[x];
      assert (r + f + p)[x] == (h' + i)[x];
    }
  }

  /** No ticket is returned more often than it was inserted, and what is held was never returned. */
  lemma {:induction false} TicketsAreSingleUse<N>(q: Store<N>, calls: seq<Call<N>>, capacity: nat, now: nat)
    requires StoreInv(q, capacity, now)
    ensures StoreInv(RunStore(q, calls, capacity, now), capacity, now + |calls|)
    ensures AllReturned(q, calls, capacity, now) + Held(RunStore(q, calls, capacity, now))
         <= Held(q) + AllInserted(calls)
  {
    TicketsAreConserved(q, calls, capacity, now);
  }

  // What a call does to each server's data, and what repeated calls return.

  /** A server's hint, session and tickets after a call, by its data before. */
  lemma {:induction false} StepExactly<N>(q: Store<N>, c: Call<N>, capacity: nat, now: nat, j: N)
    requires StoreInv(q, capacity, now)
    ensures var was, found := Lookup(q, j), Lookup(StepStore(q, c, capacity, now), j);
            if Creates(c) && Evicts(q, c.name, capacity, j) then found == None
            else if j != c.name || (was.None? && !Creates(c)) then found == was
            else
              var d := if was.Some? then was.value else ServerData(None, None, []);
              && found.Some?
              && found.value.kxHint == (if c.SetKxHint? then Some(c.group) else d.kxHint)
              && found.value.tls12 == (if c.SetTls12? then Some(c.session)
                                       else if c.RemoveTls12? then None
                                       else d.tls12)
              && found.value.tls13 == (if c.InsertTicket? then Last(d.tls13 + [c.ticket], 8)
                                       else if c.TakeTicket? && d.tls13 != [] then d.tls13[..|d.tls13| - 1]
                                       else d.tls13)
  {
    var d := match Lookup(q, c.name) case Some(d) => d case None => EMPTY_SERVER;
    LookupFinds(q, c.name);
    if Creates(c) {
      PutLookup(q, c.name, EditOf(c)(d), capacity, now, j);
      if c.InsertTicket? {
        AddTicketIsLast(d, c.ticket);
      }
    } else if HasKey(q, c.name) {
      AssignLookup(q, c.name, EditOf(c)(d), j);
    }
  }

  lemma {:induction false} AddTicketIsLast(d: ServerData, t: Ticket)
    ensures |d.tls13| <= 8 ==> AddTicket(d, t).tls13 == Last(d.tls13 + [t], 8)
  {
    if |d.tls13| == 8 {
      assert (d.tls13 + [t])[1..] == d.tls13[1..] + [t];
    }
  }

  function TicketsOf<N(==)>(q: Store<N>, name: N): seq<Ticket> {
    match Lookup(q, name) case Some(d) => d.tls13 case None => []
  }

  function Inserts<N>(name: N, ts: seq<Ticket>): seq<Call<N>> {
    if ts == [] then [] else [InsertTicket(name, ts[0])] + Inserts(name, ts[1..])
  }

  /** What repeated takes return. */
  function Takes<N(==)>(q: Store<N>, name: N, k: nat, capacity: nat, now: nat): (r: seq<Option<Ticket>>)
    ensures |r| == k
    decreases k
  {
    if k == 0 then []
    else [Returned(q, TakeTicket(name))]
         + Takes(StepStore(q, TakeTicket(name), capacity, now), name, k - 1, capacity, now + 1)
  }

  lemma {:induction false} TicketsFew<N>(q: Store<N>, name: N, capacity: nat, now: nat)
    requires StoreInv(q, capacity, now)
    ensures |TicketsOf(q, name)| <= 8
  {
    LookupFinds(q, name);
  }

  lemma {:induction false} InsertsKeepLast<N>(q: Store<N>, name: N, ts: seq<Ticket>, capacity: nat, now: nat)
    requires StoreInv(q, capacity, now) && capacity > 1
    ensures var q' := RunStore(q, Inserts(name, ts), capacity, now);
            StoreInv(q', capacity, now + |ts|) && TicketsOf(q', name) == Last(TicketsOf(q, name) + ts, 8)
    decreases |ts|
  {
    if ts == [] {
      TicketsFew(q, name, capacity, now);
      assert TicketsOf(q, name) + ts == TicketsOf(q, name);
    } else {
      var q1 := StepStore(q, InsertTicket(name, ts[0]), capacity, now);
      StepKeepsStoreInv(q, InsertTicket(name, ts[0]), capacity, now);
      InsertStep(q, name, ts[0], capacity, now);
      InsertsKeepLast(q1, name, ts[1..], capacity, now + 1);
      FirstInsert(q, name, ts, capacity, now);
      LastOfMore(TicketsOf(q, name), ts);
    }
  }

  lemma {:induction false} FirstInsert<N>(q: Store<N>, name: N, ts: seq<Ticket>, capacity: nat, now: nat)
    requires ts != []
    ensures var q1 := StepStore(q, InsertTicket(name, ts[0]), capacity, now);
            RunStore(q, Inserts(name, ts), capacity, now) == RunStore(q1, Inserts(name, ts[1..]), capacity, now + 1)
  {
    var calls := Inserts(name, ts);
    assert calls[0] == InsertTicket(name, ts[0]) && calls[1..] == Inserts(name, ts[1..]);
  }

  lemma {:induction false} LastOfMore(have: seq<Ticket>, ts: seq<Ticket>)
    requires ts != []
    ensures Last(Last(have + [ts[0]], 8) + ts[1..], 8) == Last(have + ts, 8)
  {
    LastOfLast(have, [ts[0]], ts[1..], 8);
    assert [ts[0]] + ts[1..] == ts;
  }

  lemma {:induction false} InsertStep<N>(q: Store<N>, name: N, t: Ticket, capacity: nat, now: nat)
    requires StoreInv(q, capacity, now) && capacity > 1
    ensures TicketsOf(StepStore(q, InsertTicket(name, t), capacity, now), name) == Last(TicketsOf(q, name) + [t], 8)
  {
    StepExactly(q, InsertTicket(name, t), capacity, now, name);
  }

  /** A take returns the newest ticket and leaves the others. */
  lemma {:induction false} TakeStep<N>(q: Store<N>, name: N, capacity: nat, now: nat)
    requires StoreInv(q, capacity, now)
    ensures var have, left := TicketsOf(q, name), TicketsOf(StepStore(q, TakeTicket(name), capacity, now), name);
            && Returned(q, TakeTicket(name)) == (if have == [] then None else Some(have[|have| - 1]))
            && left == if have == [] then [] else have[..|have| - 1]
  {
    StepExactly(q, TakeTicket(name), capacity, now, name);
  }

  /** Taking from a list of tickets, from its end. */
  function Pops(have: seq<Ticket>, k: nat): (r: seq<Option<Ticket>>)
    ensures |r| == k
  {
    if k == 0 then []
    else if have == [] then [None] + Pops([], k - 1)
    else [Some(have[|have| - 1])] + Pops(have[..|have| - 1], k - 1)
  }

  lemma {:induction false} PopsNewestFirst(have: seq<Ticket>, k: nat, i: nat)
    requires i < k
    ensures Pops(have, k)[i] == if i < |have| then Some(have[|have| - 1 - i]) else None
  {
    if i > 0 {
      PopsNewestFirst(if have == [] then [] else have[..|have| - 1], k - 1, i - 1);
    }
  }

  lemma {:induction false} TakesArePops<N>(q: Store<N>, name: N, k: nat, capacity: nat, now: nat)
    requires StoreInv(q, capacity, now)
    ensures Takes(q, name, k, capacity, now) == Pops(TicketsOf(q, name), k)
    decreases k
  {
    if k > 0 {
      TakeStep(q, name, capacity, now);
      StepKeepsStoreInv(q, TakeTicket(name), capacity, now);
      TakesArePops(StepStore(q, TakeTicket(name), capacity, now), name, k - 1, capacity, now + 1);
    }
  }

  /** Of the last eight tickets, from the end: the newest come first, and after them nothing. */
  lemma {:induction false} LastFromBehind(ts: seq<Ticket>, k: nat, i: nat)
    requires i < k
    ensures Pops(Last(ts, 8), k)[i] == if i < Min(|ts|, 8) then Some(ts[|ts| - 1 - i]) else None
  {
    PopsNewestFirst(Last(ts, 8), k, i);
  }

  /**
    Tickets inserted one after another for a server without any, and then taken: the last eight come
    back, newest first, and after them nothing.
   */
  lemma {:induction false} InsertsThenTakes<N>(q: Store<N>, name: N, ts: seq<Ticket>, k: nat, capacity: nat, now: nat)
    requires StoreInv(q, capacity, now) && capacity > 1 && TicketsOf(q, name) == []
    ensures Takes(RunStore(q, Inserts(name, ts), capacity, now), name, k, capacity, now + |ts|) == Pops(Last(ts, 8), k)
    ensures forall i :: 0 <= i < k ==>
              Pops(Last(ts, 8), k)[i] == if i < Min(|ts|, 8) then Some(ts[|ts| - 1 - i]) else None
  {
    InsertsKeepLast(q, name, ts, capacity, now);
    assert [] + ts == ts;
    TakesArePops(RunStore(q, Inserts(name, ts), capacity, now), name, k, capacity, now + |ts|);
    forall i | 0 <= i < k
      ensures Pops(Last(ts, 8), k)[i] == if i < Min(|ts|, 8) then Some(ts[|ts| - 1 - i]) else None
    {
      LastFromBehind(ts, k, i);
    }
  }

  /**
    A store holds fewer servers than it was granted room for, at most 8 tickets each; with exactly what was
    asked for that is fewer than ceil(size / 8) servers and fewer than `size` tickets.
   */
  lemma {:induction false} StoreIsBounded<N>(size: nat, granted: nat, calls: seq<Call<N>>)
    requires MaxServers(size) <= granted && 0 < granted
    ensures var q := RunStore([], calls, granted, 0);
            && |q| < granted && (forall i :: 0 <= i < |q| ==> |q[i].value.tls13| <= 8)
            && (granted == MaxServers(size) ==> 8 * |q| < size && |Held(q)| < size)
  {
    TicketsAreSingleUse([], calls, granted, 0);
    HeldSize(RunStore([], calls, granted, 0));
  }

  lemma {:induction false} HeldSize<N>(q: Store<N>)
    requires forall i :: 0 <= i < |q| ==> |q[i].value.tls13| <= 8
    ensures |Held(q)| <= 8 * |q|
    decreases |q|
  {
    if q != [] {
      assert forall i :: 0 <= i < |q[1..]| ==> q[1..][i] == q[i + 1];
      HeldSize(q[1..]);
    }
  }

  /** A store for at most eight sessions is always empty: it never returns a ticket. */
  lemma {:induction false} SmallStoreReturnsNothing<N>(size: nat, calls: seq<Call<N>>)
    requires 0 < size <= 8
    ensures AllReturned([], calls, MaxServers(size), 0) == multiset{}
  {
    assert MaxServers(size) == 1;
    EmptyForEver(calls, 0);
  }

  lemma {:induction false} EmptyForEver<N>(calls: seq<Call<N>>, now: nat)
    ensures AllReturned([], calls, 1, now) == multiset{}
    decreases |calls|
  {
    if calls != [] {
      var q: Store<N> := [];
      assert StoreInv(q, 1, now);
      StepKeepsStoreInv(q, calls[0], 1, now);
      assert StepStore(q, calls[0], 1, now) == [];
      EmptyForEver(calls[1..], now + 1);
    }
  }

  /** In every state, a ticket just inserted can be taken exactly when the store is for more than eight. */
  lemma {:induction false} InsertThenTake<N>(q: Store<N>, name: N, t: Ticket, size: nat, now: nat)
    requires size > 0 && StoreInv(q, MaxServers(size), now)
    ensures var q' := StepStore(q, InsertTicket(name, t), MaxServers(size), now);
            Returned(q', TakeTicket(name)) == if size > 8 then Some(t) else None
  {
    var c, capacity := InsertTicket(name, t), MaxServers(size);
    var q' := StepStore(q, c, capacity, now);
    var d := match Lookup(q, name) case Some(d) => d case None => EMPTY_SERVER;
    PutThenLookup(q, name, EditOf(c)(d), capacity, now);
  }

  lemma {:induction false} PutThenLookup<N>(q: Store<N>, name: N, d: ServerData, capacity: nat, now: nat)
    requires FifoInv(q, capacity, now)
    ensures Lookup(Put(q, name, d, capacity, now), name) == if capacity > 1 then Some(d) else None
  {
    var q' := Put(q, name, d, capacity, now);
    if HasKey(q, name) {
      var i :| 0 <= i < |q| && q[i].key == name;
      LookupIs(q', name, i);
    } else if capacity > 1 {
      LookupIs(q', name, |q'| - 1);
    }
  }

  /** Tickets named by when they were inserted: each call inserts one later than all before. */
  ghost predicate InOrder<N>(calls: seq<Call<N>>, bound: nat)
    decreases |calls|
  {
    calls == [] ||
    if calls[0].InsertTicket? then bound <= calls[0].ticket && InOrder(calls[1..], calls[0].ticket + 1)
    else InOrder(calls[1..], bound)
  }

  ghost predicate AllSorted<N>(q: Store<N>, bound: nat) {
    forall i :: 0 <= i < |q| ==> Sorted(q[i].value.tls13, bound)
  }

  lemma {:induction false} EditKeepsSorted<N>(c: Call<N>, d: ServerData, bound: nat)
    requires Sorted(d.tls13, bound) && (c.InsertTicket? ==> bound <= c.ticket)
    ensures Sorted(EditOf(c)(d).tls13, if c.InsertTicket? then c.ticket + 1 else bound)
  {
    if c.InsertTicket? {
      var ts := if |d.tls13| == MAX_TLS13_TICKETS_PER_SERVER then d.tls13[1..] else d.tls13;
      assert Sorted(ts, bound);
      assert EditOf(c)(d).tls13 == ts + [c.ticket];
    } else if c.TakeTicket? && d.tls13 != [] {
      assert EditOf(c)(d).tls13 == d.tls13[..|d.tls13| - 1];
    }
  }

  lemma {:induction false} StepKeepsSorted<N>(q: Store<N>, c: Call<N>, capacity: nat, now: nat, bound: nat)
    requires AllSorted(q, bound) && (c.InsertTicket? ==> bound <= c.ticket)
    ensures AllSorted(StepStore(q, c, capacity, now), if c.InsertTicket? then c.ticket + 1 else bound)
  {
    var q', b := StepStore(q, c, capacity, now), if c.InsertTicket? then c.ticket + 1 else bound;
    forall n | 0 <= n < |q'| ensures Sorted(q'[n].value.tls13, b) {
      var d := q'[n].value;
      StepServers(q, c, capacity, now, n);
      EditKeepsSorted(c, EMPTY_SERVER, bound);
      if i :| 0 <= i < |q| && d == EditOf(c)(q[i].value) {
        EditKeepsSorted(c, q[i].value, bound);
      }
    }
  }

  lemma {:induction false} RunKeepsSorted<N>(q: Store<N>, calls: seq<Call<N>>, capacity: nat, now: nat, bound: nat)
    returns (bound': nat)
    requires AllSorted(q, bound) && InOrder(calls, bound)
    ensures AllSorted(RunStore(q, calls, capacity, now), bound')
    decreases |calls|
  {
    if calls == [] {
      bound' := bound;
    } else {
      var b := if calls[0].InsertTicket? then calls[0].ticket + 1 else bound;
      StepKeepsSorted(q, calls[0], capacity, now, bound);
      bound' := RunKeepsSorted(StepStore(q, calls[0], capacity, now), calls[1..], capacity, now + 1, b);
    }
  }

  /** After any run, a take returns the latest inserted ticket its server still has. */
  lemma {:induction false} TakeReturnsNewest<N>(calls: seq<Call<N>>, capacity: nat, name: N)
    requires capacity > 0 && InOrder(calls, 0)
    ensures var q := RunStore([], calls, capacity, 0);
            var d, r := Lookup(q, name), Returned(q, TakeTicket(name));
            && (r.None? <==> d.None? || d.value.tls13 == [])
            && (r.Some? ==> r.value in d.value.tls13 && forall t :: t in d.value.tls13 ==> t <= r.value)
  {
    var q := RunStore([], calls, capacity, 0);
    var _ := RunKeepsSorted([], calls, capacity, 0, 0);
    LookupFinds(q, name);
  }
}
