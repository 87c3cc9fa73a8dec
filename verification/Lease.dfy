/** Leader election over one shared Lease. */
module Lease {
  import opened Basics
  import opened Rfc3339

  const LEASE_DURATION_SECONDS := 15
  const ACQUIRE_RETRY_INTERVAL: int := 3 * SECOND
  const EXPIRY: int := 16 * SECOND  // the first age whose whole seconds exceed 15

  datatype LeaseSpec = LeaseSpec(
    holder: Option<string>,
    acquireTime: Option<Instant>,
    renewTime: Option<Instant>,
    durationSeconds: Option<int>)

  /** `MicroTime` keeps microseconds. */
  function Micro(t: Instant): (r: Instant)
    ensures r <= t < r + 1000
  {
    t - t % 1000
  }

  /** `Duration::num_seconds`: whole seconds, truncated towards zero. */
  function NumSeconds(d: int): int {
    if d >= 0 then d / SECOND else -((-d) / SECOND)
  }

  /** The test of `try_acquire`: may `id` take this lease at `now`? */
  predicate MayTake(lease: LeaseSpec, id: string, now: Instant) {
    var duration := lease.durationSeconds.GetOr(LEASE_DURATION_SECONDS);
    || lease.holder == Some(id)
    || lease.renewTime.None?
    || NumSeconds(now - lease.renewTime.value) > duration
  }

  /** What taking the lease writes: the merge patch sets all four fields. */
  function Taken(id: string, at: Instant): LeaseSpec {
    LeaseSpec(Some(id), Some(Micro(at)), Some(Micro(at)), Some(LEASE_DURATION_SECONDS))
  }

  /** What the renewer writes: two fields, unconditionally. */
  function Renewed(lease: LeaseSpec, id: string, at: Instant): LeaseSpec {
    lease.(holder := Some(id), renewTime := Some(Micro(at)))
  }

  /** The age at which a lease of this duration expires: the first whose whole seconds, truncated
      towards zero, exceed it. */
  function ExpiryAge(duration: int): int {
    if duration >= 0 then (duration + 1) * SECOND else duration * SECOND + 1
  }

  lemma MayTakeExactly(lease: LeaseSpec, id: string, now: Instant)
    ensures MayTake(lease, id, now) <==>
              || lease.holder == Some(id) || lease.renewTime.None?
              || now >= lease.renewTime.value + ExpiryAge(lease.durationSeconds.GetOr(LEASE_DURATION_SECONDS))
  {
  }

  lemma ExpiryIsSixteenSeconds(lease: LeaseSpec, id: string, now: Instant)
    requires lease.durationSeconds == Some(LEASE_DURATION_SECONDS) && lease.renewTime.Some?
    ensures MayTake(lease, id, now) <==> lease.holder == Some(id) || now - lease.renewTime.value >= EXPIRY
  {
  }

  // ---------------------------------------------------------------------------------------------
  // The protocol.
  // ---------------------------------------------------------------------------------------------

  /** A replica: waiting between attempts; having started one, at the time it will write; having read
      the lease and decided, at `checked`, to take it; leading, with the renewal time it last wrote;
      leading, about to write the time `at`; or down. */
  datatype Replica =
    | Waiting
    | Attempting(at: Instant)
    | Deciding(at: Instant, checked: Instant, read: Option<LeaseSpec>)
    | Leading(renewed: Instant)
    | Renewing(renewed: Instant, at: Instant)
    | Down

  datatype State = State(clock: Instant, lease: Option<LeaseSpec>, replicas: map<string, Replica>)

  /** One acquisition attempt takes the time, reads the lease and, if it may, writes it, in three
      separate steps; a leader takes the time and patches the lease with it, in two; a replica exits (a
      renewal failed, the body returned, the pod was killed) and may start again; time passes. */
  datatype Action = Begin(id: string) | Read(id: string) | Write(id: string) | Stamp(id: string) | Patch(id: string)
                  | Exit(id: string) | Start(id: string) | Tick(duration: nat)

  function Become(s: State, id: string, r: Replica): State { s.(replicas := s.replicas[id := r]) }

  function Apply(s: State, a: Action): State {
    match a
    case Begin(id) => if id in s.replicas && s.replicas[id].Waiting? then Become(s, id, Attempting(s.clock)) else s
    case Read(id) =>
      if id in s.replicas && s.replicas[id].Attempting? then
        Become(s, id, if s.lease.None? || MayTake(s.lease.value, id, s.clock)
                      then Deciding(s.replicas[id].at, s.clock, s.lease) else Waiting)
      else s
    case Write(id) =>
      if id in s.replicas && s.replicas[id].Deciding? then
        var d := s.replicas[id];
        if d.read.None? && s.lease.Some? then Become(s, id, Waiting)  // the create answers 409
        else Become(s.(lease := Some(Taken(id, d.at))), id, Leading(Micro(d.at)))
      else s
    case Stamp(id) =>
      if id in s.replicas && s.replicas[id].Leading?
      then Become(s, id, Renewing(s.replicas[id].renewed, s.clock)) else s
    case Patch(id) =>
      if id in s.replicas && s.replicas[id].Renewing? then
        var at := s.replicas[id].at;
        if s.lease.None? then Become(s, id, Down)
        else Become(s.(lease := Some(Renewed(s.lease.value, id, at))), id, Leading(Micro(at)))
      else s
    case Exit(id) => if id in s.replicas then Become(s, id, Down) else s
    case Start(id) => if id !in s.replicas || s.replicas[id].Down? then Become(s, id, Waiting) else s
    case Tick(d) => s.(clock := s.clock + d)
  }

  predicate Leads(s: State, id: string) {
    id in s.replicas && (s.replicas[id].Leading? || s.replicas[id].Renewing?)
  }

  /** Every leader has renewed, or left, before 16 s passed since the renewal time it last wrote. */
  ghost predicate Timely(s: State) {
    forall id | Leads(s, id) :: s.clock - s.replicas[id].renewed < EXPIRY
  }

  /** The lease a write replaces is the one its attempt read: nothing came between the two calls. */
  predicate Undisturbed(s: State, a: Action) {
    (a.Write? && a.id in s.replicas && s.replicas[a.id].Deciding? && s.replicas[a.id].read.Some?)
    ==> s.lease == s.replicas[a.id].read
  }

  /** The lease names the leader, its renewal time is the leader's last renewal, and its duration field
      is 15; so at most one replica leads. */
  ghost predicate Exclusive(s: State) {
    forall id | Leads(s, id) ::
      && s.lease.Some? && s.lease.value.holder == Some(id)
      && s.lease.value.renewTime == Some(s.replicas[id].renewed)
      && s.lease.value.durationSeconds == Some(LEASE_DURATION_SECONDS)
  }

  /** The lease is absent or as this operator writes it. */
  predicate Standard(s: State) {
    s.lease.Some? ==> s.lease.value.durationSeconds == Some(LEASE_DURATION_SECONDS) && s.lease.value.renewTime.Some?
  }

  /** A pending decision was taken in the past, on a lease its replica was allowed to take. */
  ghost predicate DecisionsHold(s: State) {
    forall id | id in s.replicas && s.replicas[id].Deciding? ::
      s.replicas[id].checked <= s.clock
      && (s.replicas[id].read.Some? ==> MayTake(s.replicas[id].read.value, id, s.replicas[id].checked))
  }

  ghost predicate Inv(s: State) { Exclusive(s) && DecisionsHold(s) }

  lemma OneLeader(s: State, a: string, b: string)
    requires Exclusive(s) && Leads(s, a) && Leads(s, b)
    ensures a == b
  {
  }

  /** A write can go through, undisturbed and in a timely state, only when nobody else leads. */
  lemma WriterIsAlone(s: State, id: string, other: string)
    requires Inv(s) && Timely(s) && Undisturbed(s, Write(id))
    requires id in s.replicas && s.replicas[id].Deciding? && (s.replicas[id].read.None? ==> s.lease.None?)
    ensures !Leads(s, other)
  {
    if Leads(s, other) {
      ExpiryIsSixteenSeconds(s.lease.value, id, s.replicas[id].checked);
      assert false;
    }
  }

  lemma StepKeepsInv(s: State, a: Action)
    requires Inv(s) && Timely(s) && Undisturbed(s, a)
    ensures Inv(Apply(s, a))
  {
    var s' := Apply(s, a);
    if a.Write? && a.id in s.replicas && s.replicas[a.id].Deciding? && (s.replicas[a.id].read.None? ==> s.lease.None?) {
      forall id | Leads(s', id) ensures id == a.id {
        if id != a.id { WriterIsAlone(s, a.id, id); }
      }
    } else if a.Patch? && Leads(s, a.id) {
      forall id | Leads(s', id) ensures id == a.id {
        if id != a.id { OneLeader(s, id, a.id); }
      }
    }
  }

  /** The states of a run, each step timely and undisturbed. */
  ghost predicate Disciplined(s: State, actions: seq<Action>)
    decreases actions
  {
    Timely(s) && (actions != [] ==> Undisturbed(s, actions[0]) && Disciplined(Apply(s, actions[0]), actions[1..]))
  }

  function Run(s: State, actions: seq<Action>): State
    decreases actions
  {
    if actions == [] then s else Run(Apply(s, actions[0]), actions[1..])
  }

  /** Timed mutual exclusion, from any lease and with nobody leading yet: with distinct identities, if
      every leader renews or exits in time and no lease write comes between an attempt's read and its
      write, then in every reachable state at most one replica leads, the Lease names it, `renewTime` is
      its last renewal and the duration is 15; and a lease that is absent or has duration 15 at first
      has it always. */
  lemma {:induction false} MutualExclusion(s: State, actions: seq<Action>)
    requires (forall id | id in s.replicas :: s.replicas[id] == Waiting || s.replicas[id] == Down)
        && Disciplined(s, actions)
    ensures Exclusive(Run(s, actions))
    ensures forall a, b | Leads(Run(s, actions), a) && Leads(Run(s, actions), b) :: a == b
    ensures Standard(s) ==> Standard(Run(s, actions))
  {
    RunKeepsInv(s, actions);
    if Standard(s) { RunKeepsStandard(s, actions); }
  }

  lemma {:induction false} RunKeepsStandard(s: State, actions: seq<Action>)
    requires Standard(s)
    ensures Standard(Run(s, actions))
    decreases actions
  {
    if actions != [] {
      RunKeepsStandard(Apply(s, actions[0]), actions[1..]);
    }
  }

  lemma {:induction false} RunKeepsInv(s: State, actions: seq<Action>)
    requires Inv(s) && Disciplined(s, actions)
    ensures Inv(Run(s, actions))
    decreases actions
  {
    if actions != [] {
      StepKeepsInv(s, actions[0]);
      RunKeepsInv(Apply(s, actions[0]), actions[1..]);
    }
  }

  // ---------------------------------------------------------------------------------------------
  // The two conditions are needed.
  // ---------------------------------------------------------------------------------------------

  /** In a state where exclusion holds and a write is about to patch the lease, exclusion survives
      exactly when no other replica leads at that moment. */
  lemma WriteKeepsExclusionIff(s: State, id: string)
    requires Exclusive(s) && id in s.replicas && s.replicas[id].Deciding?
        && (s.replicas[id].read.None? ==> s.lease.None?)
    ensures Exclusive(Apply(s, Write(id))) <==> forall other | other != id :: !Leads(s, other)
  {
    var s' := Apply(s, Write(id));
    forall other | other != id ensures Leads(s', other) <==> Leads(s, other) {}
    if other :| other != id && Leads(s, other) {
      assert Leads(s', other) && s'.lease.value.holder == Some(id);
    }
  }

  predicate GoesThrough(s: State, a: Action) {
    && a.Write? && a.id in s.replicas && s.replicas[a.id].Deciding?
    && (s.replicas[a.id].read.None? ==> s.lease.None?)
  }

  /** When a write goes through, the replica the lease names, if it is another, no longer leads. */
  predicate HolderGone(s: State, a: Action) {
    GoesThrough(s, a) && s.lease.Some? && s.lease.value.holder.Some? && s.lease.value.holder.value != a.id
    ==> !Leads(s, s.lease.value.holder.value)
  }

  ghost predicate AlwaysExclusive(s: State, actions: seq<Action>)
    decreases actions
  {
    Exclusive(s) && (actions != [] ==> AlwaysExclusive(Apply(s, actions[0]), actions[1..]))
  }

  predicate AlwaysHolderGone(s: State, actions: seq<Action>)
    decreases actions
  {
    actions != [] ==> HolderGone(s, actions[0]) && AlwaysHolderGone(Apply(s, actions[0]), actions[1..])
  }

  lemma StepStaysExclusive(s: State, a: Action)
    requires Exclusive(s)
    ensures Exclusive(Apply(s, a)) <==> HolderGone(s, a)
  {
    if GoesThrough(s, a) {
      WriteKeepsExclusionIff(s, a.id);
    } else if a.Patch? && Leads(s, a.id) {
      forall id | Leads(Apply(s, a), id) ensures id == a.id {
        if id != a.id { OneLeader(s, id, a.id); }
      }
    }
  }

  /** Exactly when leadership is exclusive throughout a run: when each lease write that goes through finds
      that the holder the lease names, if it is another replica, has stopped leading.  Neither timeliness
      nor the order of calls matters otherwise. */
  lemma {:induction false} ExclusionExactly(s: State, actions: seq<Action>)
    requires Exclusive(s)
    ensures AlwaysExclusive(s, actions) <==> AlwaysHolderGone(s, actions)
    decreases actions
  {
    if actions != [] {
      StepStaysExclusive(s, actions[0]);
      if HolderGone(s, actions[0]) {
        ExclusionExactly(Apply(s, actions[0]), actions[1..]);
      }
    }
  }

  /** Reads and writes are separate calls, so two waiters that both read the expired lease of a dead
      holder both become leaders. */
  lemma InterleavedAttemptsBothLead(a: string, b: string, dead: string)
    requires a != b && dead != a && dead != b
    ensures var s := Run(State(0, Some(Taken(dead, 0)), map[a := Waiting]),
                         [Tick(16 * SECOND), Start(b), Begin(a), Begin(b)]
                         + [Read(a), Read(b), Write(a), Write(b)]);
            Leads(s, a) && Leads(s, b)
  {
    var s0 := State(0, Some(Taken(dead, 0)), map[a := Waiting]);
    var s1, s2, s3, s4 := Run4(s0, Tick(16 * SECOND), Start(b), Begin(a), Begin(b));
    assert s2.replicas[a] == Waiting && s2.replicas[b] == Waiting;
    assert s3.replicas[a] == Attempting(16 * SECOND) && s3.replicas[b] == Waiting;
    assert s4.replicas[a] == Attempting(16 * SECOND) && s4.replicas[b] == Attempting(16 * SECOND);
    BothRead(s4, a, b, dead);
    RunAppend(s0, [Tick(16 * SECOND), Start(b), Begin(a), Begin(b)], [Read(a), Read(b), Write(a), Write(b)]);
  }

  /** Both have started an attempt on the expired lease of another holder. */
  lemma BothRead(s: State, a: string, b: string, dead: string)
    requires a != b && dead != a && dead != b
    requires s.clock == 16 * SECOND && s.lease == Some(Taken(dead, 0))
    requires a in s.replicas && s.replicas[a] == Attempting(s.clock)
    requires b in s.replicas && s.replicas[b] == Attempting(s.clock)
    ensures var s' := Run(s, [Read(a), Read(b), Write(a), Write(b)]); Leads(s', a) && Leads(s', b)
  {
    assert Micro(0) == 0 && NumSeconds(s.clock - 0) == 16;
    var s1, s2, s3, s4 := Run4(s, Read(a), Read(b), Write(a), Write(b));
    assert s1.replicas[a].Deciding? && s1.replicas[a].read.Some? && s1.replicas[b] == Attempting(s.clock);
    assert s2.replicas[a].read.Some? && s2.replicas[b].Deciding? && s2.replicas[b].read.Some?;
    assert s3.replicas[a].Leading? && s3.replicas[b].Deciding?;
  }

  /** A leader that sleeps past the expiry renews without looking and leads beside its successor. */
  lemma LateRenewalBothLead(a: string, b: string)
    requires a != b
    ensures var s := Run(State(0, None, map[a := Waiting, b := Waiting]),
                         [Begin(a), Read(a), Write(a), Tick(16 * SECOND)]
                         + ([Begin(b), Read(b), Write(b), Stamp(a)] + [Patch(a)]));
            Leads(s, a) && Leads(s, b) && s.lease.Some? && s.lease.value.holder == Some(a)
  {
    var s0 := State(0, None, map[a := Waiting, b := Waiting]);
    LeaderSleeps(s0, a, b);
    var s4 := Run(s0, [Begin(a), Read(a), Write(a), Tick(16 * SECOND)]);
    SuccessorTakesOver(s4, a, b);
    RunAppend(s0, [Begin(a), Read(a), Write(a), Tick(16 * SECOND)],
        [Begin(b), Read(b), Write(b), Stamp(a)] + [Patch(a)]);
    RunAppend(s4, [Begin(b), Read(b), Write(b), Stamp(a)], [Patch(a)]);
    var s8 := Run(s4, [Begin(b), Read(b), Write(b), Stamp(a)]);
    assert [Patch(a)][1..] == [] && Run(s8, [Patch(a)]) == Apply(s8, Patch(a));
  }

  /** `a` took the lease at 0 and it is now 16 s; `b` waits. */
  predicate Asleep(s: State, a: string, b: string) {
    && s.clock == 16 * SECOND && s.lease == Some(Taken(a, 0))
    && a in s.replicas && s.replicas[a] == Leading(0) && b in s.replicas && s.replicas[b] == Waiting
  }

  /** A whole attempt, with nothing in between, on a lease that may be taken. */
  lemma Attempt(s: State, id: string, other: string) returns (s1: State, s2: State, s3: State)
    requires id != other && id in s.replicas && s.replicas[id] == Waiting && other in s.replicas
    requires s.lease.None? || MayTake(s.lease.value, id, s.clock)
    ensures s1 == Apply(s, Begin(id)) && s2 == Apply(s1, Read(id)) && s3 == Apply(s2, Write(id))
    ensures s3.clock == s.clock && s3.lease == Some(Taken(id, s.clock))
    ensures id in s3.replicas && s3.replicas[id] == Leading(Micro(s.clock))
    ensures other in s3.replicas && s3.replicas[other] == s.replicas[other]
  {
    s1 := Apply(s, Begin(id));
    assert s1.replicas[id] == Attempting(s.clock) && s1.replicas[other] == s.replicas[other];
    s2 := Apply(s1, Read(id));
    assert s2.replicas[id] == Deciding(s.clock, s.clock, s.lease) && s2.replicas[other] == s.replicas[other];
    s3 := Apply(s2, Write(id));
  }

  lemma LeaderSleeps(s: State, a: string, b: string)
    requires a != b
    requires s.clock == 0 && s.lease.None?
    requires a in s.replicas && s.replicas[a] == Waiting && b in s.replicas && s.replicas[b] == Waiting
    ensures Asleep(Run(s, [Begin(a), Read(a), Write(a), Tick(16 * SECOND)]), a, b)
  {
    assert Micro(0) == 0;
    var s1, s2, s3 := Attempt(s, a, b);
    var s4 := Apply(s3, Tick(16 * SECOND));
    RunIs(s, s1, s2, s3, s4, Begin(a), Read(a), Write(a), Tick(16 * SECOND));
  }

  lemma SuccessorTakesOver(s: State, a: string, b: string)
    requires a != b
    requires Asleep(s, a, b)
    ensures var s' := Run(s, [Begin(b), Read(b), Write(b), Stamp(a)]);
            Leads(s', b) && a in s'.replicas && s'.replicas[a].Renewing? && s'.lease.Some?
  {
    assert Micro(0) == 0 && NumSeconds(s.clock - 0) == 16;
    var s1, s2, s3 := Attempt(s, b, a);
    var s4 := Apply(s3, Stamp(a));
    RunIs(s, s1, s2, s3, s4, Begin(b), Read(b), Write(b), Stamp(a));
  }

  lemma {:induction false} RunAppend(s: State, first: seq<Action>, rest: seq<Action>)
    ensures Run(s, first + rest) == Run(Run(s, first), rest)
    decreases first
  {
    if first == [] {
      assert first + rest == rest;
    } else {
      assert (first + rest)[1..] == first[1..] + rest;
      RunAppend(Apply(s, first[0]), first[1..], rest);
    }
  }

  /** Four actions, one state at a time. */
  lemma RunIs(s: State, s1: State, s2: State, s3: State, s4: State, a: Action, b: Action, d: Action, e: Action)
    requires s1 == Apply(s, a) && s2 == Apply(s1, b) && s3 == Apply(s2, d) && s4 == Apply(s3, e)
    ensures Run(s, [a, b, d, e]) == s4
  {
    assert [a, b, d, e][1..] == [b, d, e] && [b, d, e][1..] == [d, e] && [d, e][1..] == [e] && [e][1..] == [];
    assert Run(s4, []) == s4;
    assert Run(s3, [e]) == s4;
    assert Run(s2, [d, e]) == s4;
    assert Run(s1, [b, d, e]) == s4;
  }

  lemma Run4(s: State, a: Action, b: Action, d: Action, e: Action) returns (s1: State, s2: State, s3: State, s4: State)
    ensures s1 == Apply(s, a) && s2 == Apply(s1, b) && s3 == Apply(s2, d) && s4 == Apply(s3, e)
    ensures s4 == Run(s, [a, b, d, e])
  {
    s1 := Apply(s, a);
    s2 := Apply(s1, b);
    s3 := Apply(s2, d);
    s4 := Apply(s3, e);
    RunIs(s, s1, s2, s3, s4, a, b, d, e);
  }

  // ---------------------------------------------------------------------------------------------
  // Acquiring, as written, and how long a failover takes.
  // ---------------------------------------------------------------------------------------------

  /** When a lease that somebody else holds may be taken. */
  function Expiry(lease: LeaseSpec): Instant {
    lease.renewTime.GetOr(0) + ExpiryAge(lease.durationSeconds.GetOr(LEASE_DURATION_SECONDS))
  }

  /** The loop holds the lease at `now`: it got through at `first`, if the lease could be taken then, and
      otherwise within 3 s of its expiry. */
  predicate AcquiredAt(lease: Option<LeaseSpec>, id: string, first: Instant, now: Instant) {
    if lease.None? || MayTake(lease.value, id, first) then now == first
    else first < Expiry(lease.value) <= now < Expiry(lease.value) + 3 * SECOND
  }

  /** The loop has not got the lease at `now`, with `faults` attempts still to fail: it has not got through
      yet, and will at `first`, or the lease could not be taken so far. */
  predicate Trying(lease: Option<LeaseSpec>, id: string, first: Instant, now: Instant, faults: nat) {
    if now < first then now + (faults + 1) * ACQUIRE_RETRY_INTERVAL == first
    else faults == 0 && lease.Some? && first < Expiry(lease.value) && now < Expiry(lease.value)
         && !MayTake(lease.value, id, first)
  }

  /** One more attempt. */
  lemma NextAttempt(lease: Option<LeaseSpec>, id: string, first: Instant, now: Instant, faults: nat)
    requires Trying(lease, id, first, now, faults)
    ensures var next := now + ACQUIRE_RETRY_INTERVAL;
            if faults == 0 && (lease.None? || MayTake(lease.value, id, next)) then AcquiredAt(lease, id, first, next)
            else Trying(lease, id, first, next, if faults > 0 then faults - 1 else 0)
    ensures faults == 0 && (lease.None? || now + ACQUIRE_RETRY_INTERVAL >= Expiry(lease.value)) ==>
              lease.None? || MayTake(lease.value, id, now + ACQUIRE_RETRY_INTERVAL)
  {
    if lease.Some? {
      MayTakeExactly(lease.value, id, first);
      MayTakeExactly(lease.value, id, now + ACQUIRE_RETRY_INTERVAL);
    }
  }

  /** The Lease object and the clock, with API calls that take no time; the next `faults` attempts fail
      before they take effect. */
  class LeaseServer {
    var clock: Instant
    var lease: Option<LeaseSpec>
    var faults: nat

    constructor (clock: Instant, lease: Option<LeaseSpec>, faults: nat)
      ensures this.clock == clock && this.lease == lease && this.faults == faults
    {
      this.clock := clock;
      this.lease := lease;
      this.faults := faults;
    }

    /** One attempt: create when absent, patch when ours or expired, otherwise report who holds it. */
    method TryAcquire(id: string) returns (ok: bool)
      modifies this`lease, this`faults
      ensures faults == if old(faults) > 0 then old(faults) - 1 else 0
      ensures ok <==> old(faults) == 0 && (old(lease).None? || MayTake(old(lease).value, id, clock))
      ensures lease == if ok then Some(Taken(id, clock)) else old(lease)
    {
      if faults > 0 {
        faults := faults - 1;
        return false;
      }
      var now := clock;
      var micro := Micro(now);
      if lease.None? {
        lease := Some(LeaseSpec(Some(id), Some(micro), Some(micro), Some(LEASE_DURATION_SECONDS)));
        return true;
      }
      var spec := lease.value;
      var duration := spec.durationSeconds.GetOr(LEASE_DURATION_SECONDS);
      var weHold := spec.holder == Some(id);
      var expired := true;
      if spec.renewTime.Some? {
        expired := NumSeconds(clock - spec.renewTime.value) > duration;
      }
      if !weHold && !expired {
        return false;
      }
      lease := Some(spec.(acquireTime := Some(micro), renewTime := Some(micro), holder := Some(id),
                          durationSeconds := Some(LEASE_DURATION_SECONDS)));
      return true;
    }

    /** Attempt, sleep 3 s, attempt again.  The loop ends holding the lease: at its first attempt to get
        through, if the lease may be taken then, and otherwise within 3 s of the moment it expires. */
    method Acquire(id: string)
      modifies this
      ensures lease == Some(Taken(id, clock)) && faults == 0
      ensures AcquiredAt(old(lease), id, old(clock) + old(faults) * (3 * SECOND), clock)
    {
      ghost var first := clock + faults * ACQUIRE_RETRY_INTERVAL;
      if lease.Some? { MayTakeExactly(lease.value, id, clock); }
      var held := TryAcquire(id);
      while !held
        invariant if held
                  then lease == Some(Taken(id, clock)) && faults == 0 && AcquiredAt(old(lease), id, first, clock)
                  else lease == old(lease) && Trying(lease, id, first, clock, faults)
        decreases !held, faults,
                  if lease.Some? && Expiry(lease.value) > clock then Expiry(lease.value) - clock else 0
      {
        NextAttempt(lease, id, first, clock, faults);
        clock := clock + ACQUIRE_RETRY_INTERVAL;
        held := TryAcquire(id);
      }
    }
  }

  // ---------------------------------------------------------------------------------------------
  // Failover, with any number of waiters.
  // ---------------------------------------------------------------------------------------------

  function AttemptOf(id: string): seq<Action> { [Begin(id), Read(id), Write(id)] }

  predicate Concerns(a: Action, id: string) { !a.Tick? && a.id == id }

  /** In this run `id` is a live waiter: it makes an attempt, whose calls take no time, by `next`, and
      after each attempt another within 3 s.  The other replicas do as they like. */
  ghost predicate Retries(s: State, actions: seq<Action>, id: string, next: Instant)
    decreases |actions|
  {
    && s.clock <= next
    && (actions != [] ==>
          if |actions| >= 3 && actions[..3] == AttemptOf(id)
          then Retries(Run(s, actions[..3]), actions[3..], id, s.clock + ACQUIRE_RETRY_INTERVAL)
          else !Concerns(actions[0], id) && Retries(Apply(s, actions[0]), actions[1..], id, next))
  }

  ghost predicate SomeLeader(s: State) { exists id :: Leads(s, id) }

  /** At some point of the run before `deadline` a replica leads. */
  ghost predicate LedBefore(s: State, actions: seq<Action>, deadline: Instant) {
    exists k | 0 <= k <= |actions| :: Run(s, actions[..k]).clock < deadline && SomeLeader(Run(s, actions[..k]))
  }

  lemma {:induction false} LedLater(s: State, first: seq<Action>, rest: seq<Action>, deadline: Instant)
    requires LedBefore(Run(s, first), rest, deadline)
    ensures LedBefore(s, first + rest, deadline)
  {
    var s1 := Run(s, first);
    var k :| 0 <= k <= |rest| && Run(s1, rest[..k]).clock < deadline && SomeLeader(Run(s1, rest[..k]));
    assert (first + rest)[..|first| + k] == first + rest[..k];
    RunAppend(s, first, rest[..k]);
  }

  lemma {:induction false} LedNow(s: State, first: seq<Action>, rest: seq<Action>, deadline: Instant)
    requires SomeLeader(Run(s, first)) && Run(s, first).clock < deadline
    ensures LedBefore(s, first + rest, deadline)
  {
    assert (first + rest)[..|first|] == first;
  }

  /** Until somebody leads, nobody writes the lease. */
  lemma NoLeaderNoWrite(s: State, a: Action, id: string)
    requires !SomeLeader(s) && !SomeLeader(Apply(s, a))
    ensures Apply(s, a).lease == s.lease
    ensures !Concerns(a, id) && id in s.replicas ==>
              id in Apply(s, a).replicas && Apply(s, a).replicas[id] == s.replicas[id]
  {
    if a.Write? && a.id in s.replicas && s.replicas[a.id].Deciding? {
      assert !Leads(Apply(s, a), a.id);
    }
    if a.Patch? { assert !Leads(s, a.id); }
  }

  /** An attempt on the lease of another holder: it leads from 16 s after the last renewal on, and
      changes nothing before. */
  lemma WaiterAttempts(s: State, id: string, r: Instant)
    requires id in s.replicas && s.replicas[id] == Waiting && s.lease.Some? && s.lease.value.holder != Some(id)
    requires s.lease.value.renewTime == Some(r) && s.lease.value.durationSeconds == Some(LEASE_DURATION_SECONDS)
    ensures var s' := Run(s, AttemptOf(id));
            s'.clock == s.clock && if s.clock >= r + EXPIRY then Leads(s', id) else s' == s
  {
    ExpiryIsSixteenSeconds(s.lease.value, id, s.clock);
    var s1 := Apply(s, Begin(id));
    var s2 := Apply(s1, Read(id));
    var s3 := Apply(s2, Write(id));
    assert [Begin(id), Read(id), Write(id)][1..] == [Read(id), Write(id)];
    assert [Read(id), Write(id)][1..] == [Write(id)] && [Write(id)][1..] == [];
    assert Run(s3, []) == s3;
    assert Run(s2, [Write(id)]) == s3;
    assert Run(s1, [Read(id), Write(id)]) == s3;
    if s.clock < r + EXPIRY {
      assert s3.replicas == s.replicas;
    }
  }

  /** Nobody leads, and the lease of somebody else was last renewed at `r`. */
  ghost predicate Abandoned(s: State, id: string, r: Instant) {
    && !SomeLeader(s) && id in s.replicas && s.replicas[id] == Waiting
    && s.lease.Some? && s.lease.value.holder != Some(id) && s.lease.value.renewTime == Some(r)
    && s.lease.value.durationSeconds == Some(LEASE_DURATION_SECONDS)
  }

  lemma {:induction false} AbandonedIsTaken(s: State, actions: seq<Action>, id: string, next: Instant, r: Instant)
    requires Abandoned(s, id, r) && Retries(s, actions, id, next) && next < r + 19 * SECOND
    requires Run(s, actions).clock >= r + 19 * SECOND
    ensures LedBefore(s, actions, r + 19 * SECOND)
    decreases |actions|
  {
    var deadline := r + 19 * SECOND;
    if |actions| >= 3 && actions[..3] == AttemptOf(id) {
      var attempt, rest := AttemptOf(id), actions[3..];
      assert actions == attempt + rest;
      RunAppend(s, attempt, rest);
      WaiterAttempts(s, id, r);
      if s.clock >= r + EXPIRY {
        LedNow(s, attempt, rest, deadline);
      } else {
        AbandonedIsTaken(s, rest, id, s.clock + ACQUIRE_RETRY_INTERVAL, r);
        LedLater(s, attempt, rest, deadline);
      }
    } else {
      var s1, first, rest := Apply(s, actions[0]), [actions[0]], actions[1..];
      assert actions == first + rest && first[1..] == [] && Run(s, first) == s1;
      if SomeLeader(s1) {
        LedNow(s, first, rest, deadline);
      } else {
        NoLeaderNoWrite(s, actions[0], id);
        AbandonedIsTaken(s1, rest, id, next, r);
        LedLater(s, first, rest, deadline);
      }
    }
  }

  /** Failover: the leaders are gone, the lease was last renewed at `r`, and some waiter is alive and
      keeps retrying, among any number of others.  In every such run that goes on long enough, some
      replica leads before r + 19 s, well inside the required 30 s. */
  lemma Failover(s: State, actions: seq<Action>, id: string, r: Instant)
    requires Abandoned(s, id, r) && s.clock < r + EXPIRY
    requires Retries(s, actions, id, s.clock + ACQUIRE_RETRY_INTERVAL)
    requires Run(s, actions).clock >= r + 19 * SECOND
    ensures LedBefore(s, actions, r + 19 * SECOND) && LedBefore(s, actions, r + 30 * SECOND)
  {
    AbandonedIsTaken(s, actions, id, s.clock + ACQUIRE_RETRY_INTERVAL, r);
    var k :| 0 <= k <= |actions| && Run(s, actions[..k]).clock < r + 19 * SECOND && SomeLeader(Run(s, actions[..k]));
  }
}
