/**
  Ticket-key rotation.  `TicketSwitcher.maybe_roll` takes the mutex twice and generates keys in
  between, so calls of several threads interleave.  `TicketSwitcherState` holds the two critical
  sections; `System` interleaves them, with every generator call free to fail.
 */
module Ticketer {
  import opened Bytes

  /** Names a generated sub-ticketer; a ticket opens only under the one that sealed it. */
  type Key = nat

  const U64_MAX: nat := U64_END - 1

  function SaturatingAdd(a: nat, b: nat): nat {
    Min(a + b, U64_MAX)
  }

  datatype Switcher = Switcher(next: Option<Key>, current: Key, previous: Option<Key>, nextSwitchTime: nat)
  {
    /** Demotes `current` to `previous`. */
    function Roll(key: Key, now: nat, lifetime: nat): Switcher {
      this.(current := key, previous := Some(current), nextSwitchTime := SaturatingAdd(now, lifetime))
    }

    predicate Opens(key: Key) {
      key == current || previous == Some(key)
    }
  }

  /** How the first critical section ends. */
  datatype Entry = Ready | Rolled | Recovering

  function EntryOf(s: Switcher, now: nat): Entry {
    if now <= s.nextSwitchTime then Ready else if s.next.Some? then Rolled else Recovering
  }

  function AfterEntry(s: Switcher, now: nat, lifetime: nat): Switcher {
    if EntryOf(s, now).Rolled? then s.(next := None).Roll(s.next.value, now, lifetime) else s
  }

  /** The second critical section; `newCurrent` is present when recovering. */
  function AfterInstall(s: Switcher, now: nat, lifetime: nat, next: Key, newCurrent: Option<Key>): Switcher {
    var t := s.(next := Some(next));
    if newCurrent.Some? && now > s.nextSwitchTime then t.Roll(newCurrent.value, now, lifetime) else t
  }

  class TicketSwitcherState {
    const lifetime: nat
    var next: Option<Key>
    var current: Key
    var previous: Option<Key>
    var nextSwitchTime: nat

    function State(): Switcher
      reads this
    {
      Switcher(next, current, previous, nextSwitchTime)
    }

    constructor (lifetime: nat, now: nat, firstNext: Key, firstCurrent: Key)
      ensures this.lifetime == lifetime
      ensures State() == Switcher(Some(firstNext), firstCurrent, None, SaturatingAdd(now, lifetime))
    {
      this.lifetime := lifetime;
      next, current, previous := Some(firstNext), firstCurrent, None;
      nextSwitchTime := SaturatingAdd(now, lifetime);
    }

    method EnterSection(now: nat) returns (entry: Entry)
      modifies this
      ensures entry == EntryOf(old(State()), now)
      ensures State() == AfterEntry(old(State()), now, lifetime)
    {
      if now <= nextSwitchTime {
        return Ready;
      }
      match next
      case Some(key) =>
        next := None;
        previous := Some(current);
        current := key;
        nextSwitchTime := SaturatingAdd(now, lifetime);
        entry := Rolled;
      case None =>
        entry := Recovering;
    }

    method InstallSection(now: nat, newNext: Key, newCurrent: Option<Key>)
      modifies this
      ensures State() == AfterInstall(old(State()), now, lifetime, newNext, newCurrent)
    {
      next := Some(newNext);
      if newCurrent.Some? && now > nextSwitchTime {
        previous := Some(current);
        current := newCurrent.value;
        nextSwitchTime := SaturatingAdd(now, lifetime);
      }
    }

    /** Tries the current key, then the previous one. */
    method Decrypt(key: Key) returns (ok: bool)
      ensures ok == State().Opens(key)
    {
      ok := key == current;
      if !ok {
        match previous
        case Some(p) => ok := key == p;
        case None =>
      }
    }
  }

  // -----------------------------------------------------------------------------------------
  // Interleaved calls
  // -----------------------------------------------------------------------------------------

  /** What a call does once it holds the mutex for the last time. */
  datatype Use = Encrypt | Decrypt(key: Key)

  /** A call between its two critical sections. */
  datatype Call =
    | Generating(now: nat, use: Use, recovering: bool, made: Option<Key>)
    | Installing(now: nat, use: Use, next: Key, newCurrent: Option<Key>)
  {
    predicate HasRolled() {
      match this
      case Generating(_, _, recovering, _) => !recovering
      case Installing(_, _, _, newCurrent) => newCurrent.None?
    }
  }

  /** A reign of one current key, and the tickets issued under it. */
  datatype Epoch = Epoch(key: Key, start: nat)
  datatype Issue = Issue(time: nat, epoch: nat)
  datatype Opening = Opening(time: nat, key: Key, ok: bool)

  /** Where a generated key was last put: in a call's hands, in the `next` slot, or on the throne. */
  datatype Place = First(thread: nat) | Second(thread: nat) | Slot | Reign(epoch: nat)

  /** `failed` says that a generator call has failed since the last install. */
  datatype System = System(
    lifetime: nat,
    shared: Switcher,
    calls: map<nat, Call>,
    unused: Key,
    places: map<Key, Place>,
    epochs: seq<Epoch>,
    issued: seq<Issue>,
    openings: seq<Opening>,
    failed: bool)

  datatype Action =
    | Enter(thread: nat, now: nat, use: Use)
    | Generate(thread: nat, ok: bool)
    | Install(thread: nat)

  function Init(lifetime: nat, now: nat): System {
    System(lifetime, Switcher(Some(0), 1, None, SaturatingAdd(now, lifetime)), map[], 2,
           map[0 := Slot, 1 := Reign(0)], [Epoch(1, now)], [], [], false)
  }

  predicate Enabled(s: System, a: Action) {
    match a
    case Enter(t, now, _) => t !in s.calls && now <= U64_MAX
    case Generate(t, _) => t in s.calls && s.calls[t].Generating?
    case Install(t) => t in s.calls && s.calls[t].Installing?
  }

  function Finish(s: System, now: nat, use: Use): System
    requires s.epochs != []
  {
    match use
    case Encrypt => s.(issued := s.issued + [Issue(now, |s.epochs| - 1)])
    case Decrypt(key) => s.(openings := s.openings + [Opening(now, key, s.shared.Opens(key))])
  }

  /** Replaces the shared state and records a new reign when it has rolled. */
  function WithShared(s: System, shared: Switcher, rolled: bool, now: nat): System {
    if rolled then
      s.(shared := shared, epochs := s.epochs + [Epoch(shared.current, now)],
         places := s.places[shared.current := Reign(|s.epochs|)])
    else s.(shared := shared)
  }

  /** The generator hands the call of thread `t` a key never used before; recovery needs two. */
  function Returned(s: System, t: nat, c: Call): System
    requires c.Generating?
  {
    var key := s.unused;
    var second := c.recovering && c.made.Some?;
    var c' := if !c.recovering then Installing(c.now, c.use, key, None)
              else if c.made.None? then c.(made := Some(key))
              else Installing(c.now, c.use, c.made.value, Some(key));
    s.(unused := key + 1, calls := s.calls[t := c'],
       places := s.places[key := if second then Second(t) else First(t)])
  }

  function Step(s: System, a: Action): System
    requires Enabled(s, a) && s.epochs != []
  {
    match a
    case Enter(t, now, use) =>
      var entry := EntryOf(s.shared, now);
      var s' := WithShared(s, AfterEntry(s.shared, now, s.lifetime), entry.Rolled?, now);
      (match entry
       case Ready => Finish(s', now, use)
       case _ => s'.(calls := s.calls[t := Generating(now, use, entry.Recovering?, None)]))
    case Generate(t, ok) =>
      if ok then Returned(s, t, s.calls[t]) else s.(calls := s.calls - {t}, failed := true)
    case Install(t) =>
      var c := s.calls[t];
      var shared := AfterInstall(s.shared, c.now, s.lifetime, c.next, c.newCurrent);
      var rolled := c.newCurrent.Some? && c.now > s.shared.nextSwitchTime;
      var s' := s.(calls := s.calls - {t}, places := s.places[c.next := Slot], failed := false);
      Finish(WithShared(s', shared, rolled, c.now), c.now, c.use)
  }

  /** The state after a run; `None` if some action of the run could not happen. */
  function Run(s: System, actions: seq<Action>): Option<System>
    decreases |actions|
  {
    if actions == [] then Some(s)
    else if s.epochs == [] || !Enabled(s, actions[0]) then None
    else Run(Step(s, actions[0]), actions[1..])
  }

  // -----------------------------------------------------------------------------------------
  // The invariant
  // -----------------------------------------------------------------------------------------

  function Deadline(s: System, e: Epoch): nat {
    SaturatingAdd(e.start, s.lifetime)
  }

  ghost predicate Spaced(epochs: seq<Epoch>, lifetime: nat) {
    && (forall i :: 0 <= i < |epochs| ==> epochs[i].start <= U64_MAX)
    && (forall i, j :: 0 <= i < j < |epochs| ==> SaturatingAdd(epochs[i].start, lifetime) < epochs[j].start)
  }

  /** Reigns follow each other only after the deadline of the one before. */
  ghost predicate EpochTimes(s: System) {
    && s.epochs != []
    && Spaced(s.epochs, s.lifetime)
    && s.shared.nextSwitchTime == Deadline(s, s.epochs[|s.epochs| - 1])
    && (forall t :: t in s.calls ==> s.calls[t].now <= U64_MAX)
  }

  /** A call that has rolled is not later than the switch time. */
  ghost predicate CallTimes(s: System) {
    forall t :: t in s.calls && s.calls[t].HasRolled() ==> s.calls[t].now <= s.shared.nextSwitchTime
  }

  ghost predicate IssueTimes(s: System) {
    forall i :: 0 <= i < |s.issued| ==> IssueInTime(s, s.issued[i])
  }

  ghost predicate IssueInTime(s: System, i: Issue) {
    i.epoch < |s.epochs| && i.time <= Deadline(s, s.epochs[i.epoch])
  }

  ghost predicate Slots(s: System) {
    var n := |s.epochs|;
    && n > 0
    && s.shared.current == s.epochs[n - 1].key
    && s.shared.previous == if n >= 2 then Some(s.epochs[n - 2].key) else None
  }

  /** Every key in use is where it was last put; so no key is in two places. */
  ghost predicate Placed(s: System) {
    && (forall k :: k in s.places ==> k < s.unused)
    && (forall i :: 0 <= i < |s.epochs| ==> At(s, s.epochs[i].key, Reign(i)))
    && (s.shared.next.Some? ==> At(s, s.shared.next.value, Slot))
    && (forall t :: t in s.calls ==> InHand(s, t, s.calls[t]))
  }

  /** The reserve is empty only while a call that rolled is generating one, or after a failure. */
  ghost predicate Reserved(s: System) {
    s.shared.next.Some? || s.failed || exists t :: t in s.calls && s.calls[t].HasRolled()
  }

  ghost predicate At(s: System, k: Key, p: Place) {
    k in s.places && s.places[k] == p
  }

  ghost predicate InHand(s: System, t: nat, c: Call) {
    match c
    case Generating(_, _, _, made) => made.Some? ==> At(s, made.value, First(t))
    case Installing(_, _, next, newCurrent) =>
      At(s, next, First(t)) && (newCurrent.Some? ==> At(s, newCurrent.value, Second(t)))
  }

  ghost predicate Inv(s: System) {
    EpochTimes(s) && CallTimes(s) && IssueTimes(s) && Slots(s) && Placed(s) && Reserved(s)
  }

  /** All a step does to the reigns: nothing, or a roll after the switch time. */
  ghost predicate RollsAtMostOnce(s: System, s': System) {
    && s'.lifetime == s.lifetime
    && if |s'.epochs| == |s.epochs| then
         s'.epochs == s.epochs && s'.shared.nextSwitchTime == s.shared.nextSwitchTime
       else
         && |s'.epochs| == |s.epochs| + 1 && s'.epochs[..|s.epochs|] == s.epochs
         && var e := s'.epochs[|s.epochs|];
            s.shared.nextSwitchTime < e.start <= U64_MAX && s'.shared.nextSwitchTime == Deadline(s, e)
  }

  lemma {:induction false} StepRolls(s: System, a: Action)
    requires EpochTimes(s) && Enabled(s, a)
    ensures RollsAtMostOnce(s, Step(s, a))
  {
  }

  lemma {:induction false} StepKeepsEpochTimes(s: System, a: Action)
    requires EpochTimes(s) && Enabled(s, a)
    ensures EpochTimes(Step(s, a))
  {
    StepRolls(s, a);
    var s' := Step(s, a);
    assert forall t :: t in s'.calls ==> s'.calls[t].now <= U64_MAX;
    RollKeepsEpochTimes(s, s');
  }

  lemma {:induction false} RollKeepsEpochTimes(s: System, s': System)
    requires EpochTimes(s) && RollsAtMostOnce(s, s') && forall t :: t in s'.calls ==> s'.calls[t].now <= U64_MAX
    ensures EpochTimes(s')
  {
    var n := |s.epochs|;
    if |s'.epochs| > n {
      assert s'.epochs == s.epochs + [s'.epochs[n]];
      SpacedSnoc(s.epochs, s.lifetime, s'.epochs[n]);
    }
  }

  lemma {:induction false} SpacedSnoc(epochs: seq<Epoch>, lifetime: nat, e: Epoch)
    requires epochs != [] && Spaced(epochs, lifetime) && e.start <= U64_MAX
    requires SaturatingAdd(epochs[|epochs| - 1].start, lifetime) < e.start
    ensures Spaced(epochs + [e], lifetime)
  {
    var all, last := epochs + [e], epochs[|epochs| - 1];
    assert forall i :: 0 <= i < |epochs| ==> all[i] == epochs[i];
    forall i | 0 <= i < |epochs| ensures SaturatingAdd(epochs[i].start, lifetime) < e.start {
      assert i < |epochs| - 1 ==> SaturatingAdd(epochs[i].start, lifetime) < last.start;
    }
  }

  lemma {:induction false} StepKeepsCallTimes(s: System, a: Action)
    requires EpochTimes(s) && CallTimes(s) && Enabled(s, a)
    ensures CallTimes(Step(s, a))
  {
    StepRolls(s, a);
  }

  /** A step issues at most one ticket, under the current key and no later than the switch time. */
  lemma {:induction false} StepIssues(s: System, a: Action)
    requires EpochTimes(s) && CallTimes(s) && Enabled(s, a)
    ensures var s' := Step(s, a);
            || s'.issued == s.issued
            || exists i :: s'.issued == s.issued + [i] && i.epoch == |s'.epochs| - 1
                        && i.time <= s'.shared.nextSwitchTime
  {
    StepRolls(s, a);
    var s' := Step(s, a);
    if s'.issued != s.issued {
      var i := s'.issued[|s.issued|];
      assert s'.issued == s.issued + [i];
    }
  }

  lemma {:induction false} StepKeepsIssueTimes(s: System, a: Action)
    requires EpochTimes(s) && CallTimes(s) && IssueTimes(s) && Enabled(s, a)
    ensures IssueTimes(Step(s, a))
  {
    var s' := Step(s, a);
    StepRolls(s, a);
    StepIssues(s, a);
    StepKeepsEpochTimes(s, a);
    forall i | 0 <= i < |s'.issued| ensures IssueInTime(s', s'.issued[i]) {
      if i < |s.issued| {
        assert IssueInTime(s, s.issued[i]) && s'.issued[i] == s.issued[i];
        assert s'.epochs[..|s.epochs|][s.issued[i].epoch] == s.epochs[s.issued[i].epoch];
      }
    }
  }

  lemma {:induction false} StepKeepsSlots(s: System, a: Action)
    requires Slots(s) && Enabled(s, a)
    ensures Slots(Step(s, a))
  {
  }

  lemma {:induction false} EnterKeepsPlaced(s: System, t: nat, now: nat, use: Use)
    requires s.epochs != [] && Placed(s) && Enabled(s, Enter(t, now, use))
    ensures Placed(Step(s, Enter(t, now, use)))
  {
    var s' := Step(s, Enter(t, now, use));
    forall u | u in s'.calls ensures InHand(s', u, s'.calls[u]) {
      assert u in s.calls ==> InHand(s, u, s.calls[u]);
    }
  }

  lemma {:induction false} GenerateKeepsPlaced(s: System, t: nat, ok: bool)
    requires s.epochs != [] && Placed(s) && Enabled(s, Generate(t, ok))
    ensures Placed(Step(s, Generate(t, ok)))
  {
    var s' := Step(s, Generate(t, ok));
    forall u | u in s'.calls ensures InHand(s', u, s'.calls[u]) {
      assert InHand(s, u, s.calls[u]);
    }
  }

  lemma {:induction false} InstallKeepsPlaced(s: System, t: nat)
    requires s.epochs != [] && Placed(s) && Enabled(s, Install(t))
    ensures Placed(Step(s, Install(t)))
  {
    var s' := Step(s, Install(t));
    assert InHand(s, t, s.calls[t]);
    forall u | u in s'.calls ensures InHand(s', u, s'.calls[u]) {
      assert InHand(s, u, s.calls[u]);
    }
    forall i | 0 <= i < |s'.epochs| ensures At(s', s'.epochs[i].key, Reign(i)) {
      assert i < |s.epochs| ==> At(s, s.epochs[i].key, Reign(i));
    }
  }

  lemma {:induction false} StepKeepsReserved(s: System, a: Action)
    requires s.epochs != [] && Reserved(s) && Enabled(s, a)
    ensures Reserved(Step(s, a))
  {
    var s' := Step(s, a);
    if s'.shared.next.None? && !s'.failed {
      if s.shared.next.Some? {
        assert s'.calls[a.thread].HasRolled();
      } else {
        var t :| t in s.calls && s.calls[t].HasRolled();
        assert t in s'.calls && s'.calls[t].HasRolled();
      }
    }
  }

  lemma {:induction false} StepKeepsInv(s: System, a: Action)
    requires Inv(s) && Enabled(s, a)
    ensures Inv(Step(s, a)) && Step(s, a).lifetime == s.lifetime
  {
    StepKeepsEpochTimes(s, a);
    StepKeepsCallTimes(s, a);
    StepKeepsIssueTimes(s, a);
    StepKeepsSlots(s, a);
    StepKeepsReserved(s, a);
    match a {
      case Enter(t, now, use) => EnterKeepsPlaced(s, t, now, use);
      case Generate(t, ok) => GenerateKeepsPlaced(s, t, ok);
      case Install(t) => InstallKeepsPlaced(s, t);
    }
  }

  lemma {:induction false} RunKeepsInv(s: System, actions: seq<Action>)
    requires Inv(s) && Run(s, actions).Some?
    ensures Inv(Run(s, actions).value) && Run(s, actions).value.lifetime == s.lifetime
    decreases |actions|
  {
    if actions != [] {
      StepKeepsInv(s, actions[0]);
      RunKeepsInv(Step(s, actions[0]), actions[1..]);
    }
  }

  // -----------------------------------------------------------------------------------------
  // What every interleaving guarantees
  // -----------------------------------------------------------------------------------------

  /** The state `s` of some run of a switcher created at time `created`. */
  ghost predicate Reachable(s: System, lifetime: nat, created: nat) {
    exists actions :: Run(Init(lifetime, created), actions) == Some(s)
  }

  lemma {:induction false} ReachableInv(s: System, lifetime: nat, created: nat)
    requires created <= U64_MAX && Reachable(s, lifetime, created)
    ensures Inv(s) && s.lifetime == lifetime
  {
    var actions :| Run(Init(lifetime, created), actions) == Some(s);
    RunKeepsInv(Init(lifetime, created), actions);
  }

  /**
    Rolls are more than `lifetime` apart, the slots hold the last two reigns, and no key reigns
    twice: a key that has left both slots never comes back.
   */
  lemma {:induction false} RollsAreSpaced(s: System, lifetime: nat, created: nat)
    requires created <= U64_MAX && Reachable(s, lifetime, created)
    ensures forall i :: 0 < i < |s.epochs| ==> s.epochs[i - 1].start + lifetime < s.epochs[i].start
    ensures Slots(s)
    ensures forall i, j :: 0 <= i < j < |s.epochs| ==> s.epochs[i].key != s.epochs[j].key
    ensures forall i :: 0 <= i < |s.epochs| ==> (s.shared.Opens(s.epochs[i].key) <==> |s.epochs| - 2 <= i)
  {
    ReachableInv(s, lifetime, created);
    OpensExactly(s);
  }

  /** A ticket issued by a call at time t fails to open only after a roll later than t + lifetime. */
  lemma {:induction false} TicketOutlivesLifetime(s: System, lifetime: nat, created: nat, n: nat)
    requires created <= U64_MAX && Reachable(s, lifetime, created) && n < |s.issued|
    ensures s.issued[n].epoch < |s.epochs|
    ensures s.shared.Opens(s.epochs[s.issued[n].epoch].key)
         || exists j :: s.issued[n].epoch < j < |s.epochs| && s.epochs[j].start > s.issued[n].time + lifetime
  {
    ReachableInv(s, lifetime, created);
    var e := s.issued[n].epoch;
    assert IssueInTime(s, s.issued[n]);
    if e + 2 < |s.epochs| {
      assert Deadline(s, s.epochs[e]) < s.epochs[e + 1].start;
      assert Deadline(s, s.epochs[e + 1]) < s.epochs[e + 2].start;
      assert s.epochs[e + 2].start > s.issued[n].time + lifetime;
    }
  }

  /**
    A call returns when it finds nothing to do or has installed its keys, and then does exactly what
    it was called for; a failed generator call ends it without having done anything.
   */
  lemma {:induction false} CallCompletes(s: System, a: Action)
    requires EpochTimes(s) && Enabled(s, a)
    ensures var s' := Step(s, a);
            var done := a.Install? || (a.Enter? && a.now <= s.shared.nextSwitchTime);
            var now := if a.Enter? then a.now else s.calls[a.thread].now;
            var use := if a.Enter? then a.use else s.calls[a.thread].use;
            && s'.issued == s.issued + (if done && use == Encrypt then [Issue(now, |s'.epochs| - 1)] else [])
            && s'.openings == s.openings + (if done && use.Decrypt?
                                            then [Opening(now, use.key, s'.shared.Opens(use.key))] else [])
            && (a.thread in s'.calls <==> (a.Enter? && !done) || (a.Generate? && a.ok))
            && (a.Generate? ==> s'.shared == s.shared && s'.epochs == s.epochs)
  {
  }

  // -----------------------------------------------------------------------------------------
  // The reserve key
  // -----------------------------------------------------------------------------------------

  /**
    An install puts the first key the call was handed into the reserve.  A recovering call that is
    still late makes the second one current; otherwise the keys in use stay.
   */
  lemma {:induction false} InstallFillsReserve(s: System, t: nat)
    requires Inv(s) && Enabled(s, Install(t))
    ensures var c, before, after := s.calls[t], s.shared, Step(s, Install(t)).shared;
            && At(s, c.next, First(t)) && after.next == Some(c.next)
            && if c.newCurrent.Some? && c.now > before.nextSwitchTime then
                 && At(s, c.newCurrent.value, Second(t)) && after.current == c.newCurrent.value
                 && after.previous == Some(before.current)
               else after.current == before.current && after.previous == before.previous
  {
    assert InHand(s, t, s.calls[t]);
  }

  /** A late call that finds a reserve makes it current at once, and leaves none. */
  lemma {:induction false} LateCallTakesReserve(s: System, t: nat, now: nat, use: Use)
    requires Inv(s) && Enabled(s, Enter(t, now, use)) && now > s.shared.nextSwitchTime && s.shared.next.Some?
    ensures var after := Step(s, Enter(t, now, use)).shared;
            && after.current == s.shared.next.value && after.previous == Some(s.shared.current)
            && after.next == None && after.nextSwitchTime == Min(now + s.lifetime, U64_MAX)
  {
  }

  /** In every reachable state, an empty reserve has a reason. */
  lemma {:induction false} ReserveIsFilled(s: System, lifetime: nat, created: nat)
    requires created <= U64_MAX && Reachable(s, lifetime, created)
    ensures s.shared.next.None? ==> s.failed || exists t :: t in s.calls && s.calls[t].HasRolled()
  {
    ReachableInv(s, lifetime, created);
  }

  ghost predicate NoFailure(actions: seq<Action>) {
    forall i :: 0 <= i < |actions| && actions[i].Generate? ==> actions[i].ok
  }

  lemma {:induction false} NeverFailed(s: System, actions: seq<Action>)
    requires Run(s, actions).Some? && NoFailure(actions) && !s.failed
    ensures !Run(s, actions).value.failed
    decreases |actions|
  {
    if actions != [] {
      assert NoFailure(actions[1..]);
      NeverFailed(Step(s, actions[0]), actions[1..]);
    }
  }

  /** After a run without failures in which every call has returned, the next late call rolls at once. */
  lemma {:induction false} NextLateCallRolls(lifetime: nat, created: nat, actions: seq<Action>, now: nat)
    requires created <= U64_MAX && Run(Init(lifetime, created), actions).Some? && NoFailure(actions)
    requires Run(Init(lifetime, created), actions).value.calls == map[]
    ensures var s := Run(Init(lifetime, created), actions).value;
            s.shared.next.Some? && (now > s.shared.nextSwitchTime ==> EntryOf(s.shared, now) == Rolled)
  {
    var s := Run(Init(lifetime, created), actions).value;
    NeverFailed(Init(lifetime, created), actions);
    ReserveIsFilled(s, lifetime, created);
  }

  // -----------------------------------------------------------------------------------------
  // How long a ticket is accepted
  // -----------------------------------------------------------------------------------------

  /** In every run from `s`, the key's tickets are opened only by calls at most at time `bound`. */
  ghost predicate OpensWithin(s: System, key: Key, bound: nat) {
    forall actions, s', i ::
      && Run(s, actions) == Some(s') && |s.openings| <= i < |s'.openings|
      && s'.openings[i].key == key && s'.openings[i].ok
      ==> s'.openings[i].time <= bound
  }

  lemma {:induction false} OpensExactly(s: System)
    requires Inv(s)
    ensures forall i, j :: 0 <= i < j < |s.epochs| ==> s.epochs[i].key != s.epochs[j].key
    ensures forall i :: 0 <= i < |s.epochs| ==> (s.shared.Opens(s.epochs[i].key) <==> |s.epochs| - 2 <= i)
  {
    assert forall i :: 0 <= i < |s.epochs| ==> At(s, s.epochs[i].key, Reign(i));
  }

  /** All a step does to the openings: nothing, or one, no later than the new switch time. */
  ghost predicate OpensAtMostOnce(s: System, s': System) {
    && s.openings <= s'.openings && |s'.openings| <= |s.openings| + 1
    && forall i :: |s.openings| <= i < |s'.openings| && s'.openings[i].ok ==>
         s'.shared.Opens(s'.openings[i].key) && s'.openings[i].time <= s'.shared.nextSwitchTime
  }

  lemma {:induction false} StepOpens(s: System, a: Action)
    requires EpochTimes(s) && CallTimes(s) && Enabled(s, a)
    ensures OpensAtMostOnce(s, Step(s, a))
  {
  }

  /** A demoted key: after its reign, and while it is `previous` the switch time is within `bound`. */
  ghost predicate Demoted(s: System, e: nat, bound: nat) {
    e + 2 <= |s.epochs| && (e + 2 == |s.epochs| ==> s.shared.nextSwitchTime <= bound)
  }

  lemma {:induction false} StaysDemoted(s: System, s': System, e: nat, bound: nat, i: nat)
    requires RollsAtMostOnce(s, s') && OpensAtMostOnce(s, s') && Inv(s') && Demoted(s, e, bound)
    ensures Demoted(s', e, bound) && s'.epochs[e] == s.epochs[e]
    ensures |s.openings| <= i < |s'.openings| && s'.openings[i].ok && s'.openings[i].key == s.epochs[e].key ==>
              s'.openings[i].time <= bound
  {
    OpensExactly(s');
    assert s'.epochs[..|s.epochs|] == s.epochs;
  }

  /** The switch time bounds the openings of a demoted key; once it is gone there are none. */
  lemma {:induction false} DemotedIsBounded(s: System, actions: seq<Action>, e: nat, bound: nat, i: nat)
    requires Inv(s) && Demoted(s, e, bound)
    requires Run(s, actions).Some? && |s.openings| <= i < |Run(s, actions).value.openings|
    ensures var o := Run(s, actions).value.openings[i];
            o.ok && o.key == s.epochs[e].key ==> o.time <= bound
    decreases |actions|
  {
    if actions != [] {
      var s' := Step(s, actions[0]);
      StepKeepsInv(s, actions[0]);
      StepRolls(s, actions[0]);
      StepOpens(s, actions[0]);
      StaysDemoted(s, s', e, bound, i);
      RunKeepsOpenings(s', actions[1..]);
      if i >= |s'.openings| {
        DemotedIsBounded(s', actions[1..], e, bound, i);
      }
    }
  }

  lemma {:induction false} RunKeepsOpenings(s: System, actions: seq<Action>)
    requires Inv(s) && Run(s, actions).Some?
    ensures s.openings <= Run(s, actions).value.openings
    decreases |actions|
  {
    if actions != [] {
      StepKeepsInv(s, actions[0]);
      StepOpens(s, actions[0]);
      RunKeepsOpenings(Step(s, actions[0]), actions[1..]);
    }
  }

  lemma {:induction false} FreshThread(calls: map<nat, Call>) returns (t: nat)
    ensures t !in calls
  {
    t := AboveAll(calls.Keys);
  }

  lemma {:induction false} AboveAll(used: set<nat>) returns (t: nat)
    ensures forall u :: u in used ==> u < t
    decreases |used|
  {
    if used == {} {
      t := 0;
    } else {
      var u :| u in used;
      var t' := AboveAll(used - {u});
      assert forall v :: v in used ==> v == u || v in used - {u};
      t := if t' <= u then u + 1 else t';
    }
  }

  lemma {:induction false} RunOne(s: System, a: Action, rest: seq<Action>)
    requires s.epochs != [] && Enabled(s, a)
    ensures Run(s, [a] + rest) == Run(Step(s, a), rest)
  {
    assert ([a] + rest)[1..] == rest;
  }

  /**
    While its key is current a ticket can be opened at any time whatever: a late call demotes the
    key, and then opens the ticket with it.
   */
  lemma {:induction false} CurrentOpensAnyTime(s: System, now: nat) returns (actions: seq<Action>)
    requires Inv(s) && now <= U64_MAX
    ensures Run(s, actions).Some?
    ensures Run(s, actions).value.openings == s.openings + [Opening(now, s.shared.current, true)]
  {
    var t := FreshThread(s.calls);
    var enter, make, install := Enter(t, now, Decrypt(s.shared.current)), Generate(t, true), Install(t);
    var s1 := Step(s, enter);
    if EntryOf(s.shared, now).Ready? {
      actions := [enter] + [];
      RunOne(s, enter, []);
    } else if EntryOf(s.shared, now).Rolled? {
      var s2 := Step(s1, make);
      RunOne(s, enter, [make] + ([install] + []));
      RunOne(s1, make, [install] + []);
      RunOne(s2, install, []);
      actions := [enter] + ([make] + ([install] + []));
    } else {
      var s2 := Step(s1, make);
      var s3 := Step(s2, make);
      RunOne(s, enter, [make] + ([make] + ([install] + [])));
      RunOne(s1, make, [make] + ([install] + []));
      RunOne(s2, make, [install] + []);
      RunOne(s3, install, []);
      actions := [enter] + ([make] + ([make] + ([install] + [])));
    }
  }

  /** A demoted key still opens at the switch time. */
  lemma {:induction false} DemotedOpensLate(s: System, key: Key) returns (actions: seq<Action>)
    requires Inv(s) && s.shared.Opens(key)
    ensures Run(s, actions).Some?
    ensures Run(s, actions).value.openings == s.openings + [Opening(s.shared.nextSwitchTime, key, true)]
  {
    var t := FreshThread(s.calls);
    var enter := Enter(t, s.shared.nextSwitchTime, Decrypt(key));
    actions := [enter] + [];
    RunOne(s, enter, []);
  }

  lemma {:induction false} LateOpening(s: System, actions: seq<Action>, key: Key, time: nat, bound: nat)
    requires Run(s, actions).Some? && time > bound
    requires Run(s, actions).value.openings == s.openings + [Opening(time, key, true)]
    ensures !OpensWithin(s, key, bound)
  {
    var s' := Run(s, actions).value;
    assert s'.openings[|s.openings|] == Opening(time, key, true);
  }

  /**
    The documented bound, "no longer than twice `lifetime`", from any state on.  It holds exactly
    when the ticket's key is already gone, or is demoted by a roll within `lifetime` of the issue,
    or when the bound lies beyond the clock.  While the key is current it does not hold.
   */
  lemma {:induction false} UpperBoundExactly(s: System, lifetime: nat, created: nat, n: nat)
    requires created <= U64_MAX && Reachable(s, lifetime, created) && n < |s.issued|
    ensures s.epochs != [] && s.issued[n].epoch < |s.epochs|
    ensures var e, last, bound := s.issued[n].epoch, |s.epochs| - 1, s.issued[n].time + 2 * lifetime;
            OpensWithin(s, s.epochs[e].key, bound) <==>
              || bound >= U64_MAX
              || e < last - 1
              || (e == last - 1 && s.epochs[last].start <= s.issued[n].time + lifetime)
  {
    ReachableInv(s, lifetime, created);
    OpensExactly(s);
    assert IssueInTime(s, s.issued[n]);
    var e, last, bound := s.issued[n].epoch, |s.epochs| - 1, s.issued[n].time + 2 * lifetime;
    var key := s.epochs[e].key;
    if e < last && (e < last - 1 || s.shared.nextSwitchTime <= bound) {
      WithinIfDemoted(s, e, bound);
    } else if bound >= U64_MAX {
      WithinClock(s, key, bound);
    } else if e == last {
      var actions := CurrentOpensAnyTime(s, U64_MAX);
      LateOpening(s, actions, key, U64_MAX, bound);
    } else {
      var actions := DemotedOpensLate(s, key);
      LateOpening(s, actions, key, s.shared.nextSwitchTime, bound);
    }
  }

  lemma {:induction false} WithinIfDemoted(s: System, e: nat, bound: nat)
    requires Inv(s) && Demoted(s, e, bound)
    ensures OpensWithin(s, s.epochs[e].key, bound)
  {
    forall actions, s', i | Run(s, actions) == Some(s') && |s.openings| <= i < |s'.openings|
                            && s'.openings[i].key == s.epochs[e].key && s'.openings[i].ok
      ensures s'.openings[i].time <= bound
    {
      DemotedIsBounded(s, actions, e, bound, i);
    }
  }

  lemma {:induction false} WithinClock(s: System, key: Key, bound: nat)
    requires Inv(s) && bound >= U64_MAX
    ensures OpensWithin(s, key, bound)
  {
    forall actions, s', i | Run(s, actions) == Some(s') && |s.openings| <= i < |s'.openings|
                            && s'.openings[i].key == key && s'.openings[i].ok
      ensures s'.openings[i].time <= bound
    {
      ClockBounds(s, actions, i);
    }
  }

  lemma {:induction false} ClockBounds(s: System, actions: seq<Action>, i: nat)
    requires Inv(s) && Run(s, actions).Some? && |s.openings| <= i < |Run(s, actions).value.openings|
    ensures Run(s, actions).value.openings[i].ok ==> Run(s, actions).value.openings[i].time <= U64_MAX
    decreases |actions|
  {
    if actions != [] {
      var s' := Step(s, actions[0]);
      StepKeepsInv(s, actions[0]);
      StepOpens(s, actions[0]);
      RunKeepsOpenings(s', actions[1..]);
      if i >= |s'.openings| {
        ClockBounds(s', actions[1..], i);
      }
    }
  }

  /** A ticket of time 10 under a lifetime of 10 opens at time 1000. */
  lemma {:induction false} UpperBoundFails()
    ensures exists s :: Reachable(s, 10, 0) && s.issued == [Issue(10, 0)]
                     && s.epochs != [] && s.epochs[0].key == 1 && s.openings == [Opening(1000, 1, true)]
  {
    var s0 := Init(10, 0);
    var a1, a2, a3, a4 := Enter(7, 10, Encrypt), Enter(7, 1000, Decrypt(1)), Generate(7, true), Install(7);
    var s1 := Step(s0, a1);
    var s2 := Step(s1, a2);
    var s3 := Step(s2, a3);
    var s4 := Step(s3, a4);
    assert s2.calls[7] == Generating(1000, Decrypt(1), false, None);
    assert s3.calls[7] == Installing(1000, Decrypt(1), 2, None);
    assert s4.openings == [Opening(1000, 1, true)] && s4.issued == [Issue(10, 0)];
    assert Run(s3, [a4]) == Some(s4) by { assert [a4][1..] == []; }
    assert Run(s2, [a3, a4]) == Some(s4) by { assert [a3, a4][1..] == [a4]; }
    assert Run(s1, [a2, a3, a4]) == Some(s4) by { assert [a2, a3, a4][1..] == [a3, a4]; }
    assert Run(s0, [a1, a2, a3, a4]) == Some(s4) by { assert [a1, a2, a3, a4][1..] == [a2, a3, a4]; }
    assert Reachable(s4, 10, 0);
  }
}
