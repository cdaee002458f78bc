/**
 The advisory sweep lock: one create-only object on the hub, taken and released in
 separate reads and writes by any number of sweepers. A put may land without being
 acknowledged, a sweeper may die between any two steps, and clocks may disagree.
 */
module SweepLock {
  import opened Common

  // ---------- staleness ----------

  const NANOS_PER_SECOND := 1_000_000_000
  const NANOS_PER_MILLI := 1_000_000
  const DEFAULT_TTL := 3600 * NANOS_PER_SECOND
  // The zero time, the first of January of year 1, against the Unix epoch.
  const ZERO_TIME := -62_135_596_800 * NANOS_PER_SECOND
  const HLC_LOGICAL_STEP := 0x1_0000
  const MAX_DURATION := 0x7fff_ffff_ffff_ffff
  // The whole seconds in the longest duration, some 292 years.
  const MAX_TTL_SECONDS := MAX_DURATION / NANOS_PER_SECOND

  datatype Held = Held(acquiredAtHLC: int, ttlSeconds: int)

  function Wrap64(n: int): int
  {
    var m := n % 0x1_0000_0000_0000_0000;
    if m < 0x8000_0000_0000_0000 then m else m - 0x1_0000_0000_0000_0000
  }

  // Subtracting times saturates.
  function Sub(a: int, b: int): int
  {
    if a - b > MAX_DURATION then MAX_DURATION
    else if a - b < -MAX_DURATION - 1 then -MAX_DURATION - 1
    else a - b
  }

  // An arithmetic shift, so it rounds towards minus infinity.
  function AcquiredAt(held: Held): int
  {
    held.acquiredAtHLC / HLC_LOGICAL_STEP * NANOS_PER_MILLI
  }

  // The hybrid clock's packed form.
  function Pack(millis: int, logical: int): int
  {
    millis * 0x1_0000 + logical
  }

  // Whatever the logical part, a packed clock reads back as its time.
  lemma PackedTimeReadsBack(millis: int, logical: int, ttlSeconds: int)
    requires 0 <= logical < 0x1_0000
    ensures AcquiredAt(Held(Pack(millis, logical), ttlSeconds)) == millis * 1_000_000
  {
  }

  function TTL(held: Held): int
  {
    var ttl := Wrap64(held.ttlSeconds * NANOS_PER_SECOND);
    if ttl <= 0 then DEFAULT_TTL else ttl
  }

  // A positive claim of at most 292 years stands; none, or one that wraps to a negative duration,
  // means an hour.
  lemma ClaimedTTL(acquiredAtHLC: int, seconds: int)
    ensures 0 < seconds <= 9_223_372_036 ==> TTL(Held(acquiredAtHLC, seconds)) == seconds * 1_000_000_000
    ensures -9_223_372_036 <= seconds <= 0 ==> TTL(Held(acquiredAtHLC, seconds)) == 3_600_000_000_000
    ensures 9_223_372_036 < seconds <= 18_446_744_073 ==> TTL(Held(acquiredAtHLC, seconds)) == 3_600_000_000_000
  {
  }

  // The backend's time, or the body's own claim where there is none.
  function Reference(held: Held, lastModified: int): int
  {
    if lastModified == ZERO_TIME then AcquiredAt(held) else lastModified
  }

  predicate Stale(held: Held, lastModified: int, now: int)
  {
    Reference(held, lastModified) != ZERO_TIME && Sub(now, Reference(held, lastModified)) > TTL(held)
  }

  // A product with a whole number of seconds never wraps to the longest duration, so no lock
  // outlives every clock.
  lemma TTLIsReachable(held: Held)
    ensures 0 < TTL(held) < MAX_DURATION
  {
    var n := held.ttlSeconds * NANOS_PER_SECOND;
    var m := n % 0x1_0000_0000_0000_0000;
    var wraps := n / 0x1_0000_0000_0000_0000;
    assert m == 2 * (held.ttlSeconds * 500_000_000 - wraps * 0x8000_0000_0000_0000);
  }

  // A lock can become stale at all exactly when it has an age signal.
  lemma EventuallyStaleIffAged(held: Held, lastModified: int)
    ensures (exists now :: Stale(held, lastModified, now)) <==> Reference(held, lastModified) != ZERO_TIME
    ensures Reference(held, lastModified) != ZERO_TIME ==>
              forall now :: now > Reference(held, lastModified) + TTL(held) <==> Stale(held, lastModified, now)
  {
    TTLIsReachable(held);
    if Reference(held, lastModified) != ZERO_TIME {
      assert Stale(held, lastModified, Reference(held, lastModified) + TTL(held) + 1);
    }
  }

  // With a backend time the acquisition time the body claims never matters, but its TTL does:
  // two bodies are judged alike at every moment exactly when they claim the same one.
  lemma VerdictDependsOnClaimedTTL(held: Held, claimed: Held, lastModified: int)
    requires lastModified != ZERO_TIME
    ensures (forall now :: Stale(held, lastModified, now) <==> Stale(claimed, lastModified, now)) <==>
            TTL(held) == TTL(claimed)
  {
    EventuallyStaleIffAged(held, lastModified);
    EventuallyStaleIffAged(claimed, lastModified);
    var least := if TTL(held) < TTL(claimed) then TTL(held) else TTL(claimed);
    assert TTL(held) != TTL(claimed) ==>
             Stale(held, lastModified, lastModified + least + 1) !=
             Stale(claimed, lastModified, lastModified + least + 1);
  }

  // So a writer can extend its lock by what it claims: five seconds old, a lock of one second is
  // stale and one of a hundred is not, and the largest claim holds for 292 years whatever the
  // backend's time says.
  lemma ClaimExtendsTheLock(acquiredAtHLC: int, lastModified: int, now: int)
    requires lastModified != ZERO_TIME && now <= lastModified + MAX_TTL_SECONDS * NANOS_PER_SECOND
    ensures !Stale(Held(acquiredAtHLC, MAX_TTL_SECONDS), lastModified, now)
    ensures Stale(Held(acquiredAtHLC, 1), lastModified, now) <==> now > lastModified + NANOS_PER_SECOND
    ensures Stale(Held(0, 1), 0, 5 * NANOS_PER_SECOND) && !Stale(Held(0, 100), 0, 5 * NANOS_PER_SECOND)
  {
    EventuallyStaleIffAged(Held(acquiredAtHLC, MAX_TTL_SECONDS), lastModified);
    EventuallyStaleIffAged(Held(acquiredAtHLC, 1), lastModified);
    assert TTL(Held(acquiredAtHLC, 1)) == NANOS_PER_SECOND;
    assert TTL(Held(acquiredAtHLC, MAX_TTL_SECONDS)) == MAX_TTL_SECONDS * NANOS_PER_SECOND;
    assert TTL(Held(0, 100)) == 100 * NANOS_PER_SECOND;
  }

  // The fail-safe for a lock without an age signal is dead for every clock value the fleet can
  // write: without a backend time a lock is judged by its body, and a body that does not parse,
  // whose clock reads zero, counts as acquired in 1970 and is broken.
  lemma FailSafeNeedsANegativeClock(held: Held, now: int)
    ensures AcquiredAt(held) == ZERO_TIME ==> held.acquiredAtHLC < 0
    ensures held.acquiredAtHLC >= 0 ==> (Stale(held, ZERO_TIME, now) <==> Sub(now, AcquiredAt(held)) > TTL(held))
    ensures now > DEFAULT_TTL ==> Stale(Held(0, 0), ZERO_TIME, now)
  {
    assert TTL(Held(0, 0)) == DEFAULT_TTL;
    assert AcquiredAt(Held(0, 0)) == 0;
    if held.acquiredAtHLC >= 0 {
      assert AcquiredAt(held) >= 0;
    }
  }

  // ---------- the protocol ----------

  type Sweeper = nat

  // The body of one acquisition, with its fresh nonce.
  datatype Body = Body(nonce: nat, held: Held)

  // The object and the backend's time for it, the zero time if the backend keeps none.
  datatype Object = Object(body: Body, modified: int)

  datatype PC =
    | Idle
    | Creating(body: Body)    // about to create
    | Inspecting(body: Body)  // lost the create, about to read the current lock
    | Retrying(body: Body)    // read not-found, about to create once more
    | Breaking(body: Body)    // judged the lock stale, about to delete it
    | Recreating(body: Body)  // deleted it, about to create once
    | Sweeping(body: Body)    // holds the lock
    | Releasing(body: Body)   // about to read the lock back
    | Deleting(body: Body)    // read its own body, about to delete it
  {
    predicate InLock()
    {
      Sweeping? || Releasing? || Deleting?
    }
  }

  // `ahead` says how far each sweeper's clock is from the backend's, whose time is `now`.
  datatype Sys = Sys(lock: Option<Object>, next: nat, now: int, timed: bool, ahead: map<Sweeper, int>,
                     pcs: map<Sweeper, PC>)

  datatype Step =
    | Tick(nanos: nat)
    | Start(a: Sweeper, held: Held)
    | Put(a: Sweeper, lands: bool, acked: bool)
    | Get(a: Sweeper)
    | Break(a: Sweeper, lands: bool, acked: bool)
    | BeginRelease(a: Sweeper)
    | ReadBack(a: Sweeper)
    | Delete(a: Sweeper, lands: bool)
    | Die(a: Sweeper)

  function Clock(s: Sys, a: Sweeper): int
  {
    s.now + if a in s.ahead then s.ahead[a] else 0
  }

  // How the current lock looks to a.
  predicate LooksStale(s: Sys, a: Sweeper)
  {
    s.lock.Some? && Stale(s.lock.value.body.held, s.lock.value.modified, Clock(s, a))
  }

  predicate Enabled(s: Sys, l: Step)
  {
    l.Tick? ||
    (&& l.a in s.pcs
     && var pc := s.pcs[l.a];
        match l
        case Start(_, _) => pc.Idle?
        case Put(_, lands, acked) => (pc.Creating? || pc.Retrying? || pc.Recreating?) && (acked ==> lands)
        case Get(_) => pc.Inspecting?
        case Break(_, lands, acked) => pc.Breaking? && (acked ==> lands)
        case BeginRelease(_) => pc.Sweeping?
        case ReadBack(_) => pc.Releasing?
        case Delete(_, _) => pc.Deleting?
        case _ => true)
  }

  function NextPC(s: Sys, l: Step): PC
    requires Enabled(s, l) && !l.Tick?
  {
    var pc := s.pcs[l.a];
    match l
    case Start(_, held) => Creating(Body(s.next, held))
    case Put(_, _, acked) =>
      if s.lock.Some? then (if pc.Creating? then Inspecting(pc.body) else Idle)
      else if acked then Sweeping(pc.body)
      else Idle
    case Get(_) =>
      if s.lock == None then Retrying(pc.body) else if LooksStale(s, l.a) then Breaking(pc.body) else Idle
    case Break(_, _, acked) => if acked then Recreating(pc.body) else Idle
    case BeginRelease(_) => Releasing(pc.body)
    case ReadBack(_) => if s.lock.Some? && s.lock.value.body == pc.body then Deleting(pc.body) else Idle
    case _ => Idle
  }

  function Stored(s: Sys, body: Body): Object
  {
    Object(body, if s.timed then s.now else ZERO_TIME)
  }

  function NextLock(s: Sys, l: Step): Option<Object>
    requires Enabled(s, l)
  {
    match l
    case Put(_, lands, _) =>
      if s.lock == None && lands then Some(Stored(s, s.pcs[l.a].body)) else s.lock
    case Break(_, lands, _) => if lands then None else s.lock
    case Delete(_, lands) => if lands then None else s.lock
    case _ => s.lock
  }

  function Next(s: Sys, l: Step): Sys
    requires Enabled(s, l)
  {
    if l.Tick? then s.(now := s.now + l.nanos)
    else s.(lock := NextLock(s, l), next := if l.Start? then s.next + 1 else s.next, pcs := s.pcs[l.a := NextPC(s, l)])
  }

  predicate Init(s: Sys)
  {
    s.lock == None && forall a :: a in s.pcs ==> s.pcs[a] == Idle
  }

  ghost predicate Run(s: Sys, steps: seq<Step>, t: Sys)
    decreases |steps|
  {
    if steps == [] then s == t
    else Enabled(s, steps[0]) && Run(Next(s, steps[0]), steps[1..], t)
  }

  // ---------- exclusion ----------

  predicate Owns(s: Sys, a: Sweeper)
  {
    a in s.pcs && !s.pcs[a].Idle? && s.lock.Some? && s.lock.value.body == s.pcs[a].body
  }

  // Nonces are used once.
  predicate Unique(s: Sys)
  {
    && (s.lock.Some? ==> s.lock.value.body.nonce < s.next)
    && (forall a :: a in s.pcs && !s.pcs[a].Idle? ==> s.pcs[a].body.nonce < s.next)
    && forall a, b :: a in s.pcs && b in s.pcs && a != b && !s.pcs[a].Idle? && !s.pcs[b].Idle? ==>
         s.pcs[a].body.nonce != s.pcs[b].body.nonce
  }

  // Whoever is in the lock finds its own body on the hub.
  predicate Exclusive(s: Sys)
  {
    forall a :: a in s.pcs && s.pcs[a].InLock() ==> Owns(s, a)
  }

  // A stale break that lands under a sweeper that is in the lock.
  predicate Usurps(s: Sys, l: Step)
  {
    l.Break? && l.lands && exists a :: a in s.pcs && s.pcs[a].InLock()
  }

  // Exclusion is lost exactly when a stale lock is broken under a live sweeper: the create
  // retry, the separate read and delete of a release, lost acknowledgements and deaths are harmless.
  lemma StepStaysExclusiveIffNotUsurping(s: Sys, l: Step)
    requires Enabled(s, l) && Unique(s) && Exclusive(s)
    ensures Exclusive(Next(s, l)) <==> !Usurps(s, l)
    ensures l.Delete? && l.lands ==> Owns(s, l.a)
  {
    var t := Next(s, l);
    if Usurps(s, l) {
      var a :| a in s.pcs && s.pcs[a].InLock();
      assert t.pcs[a].InLock() && t.lock == None;
    }
  }

  lemma StepStaysUnique(s: Sys, l: Step)
    requires Enabled(s, l) && Unique(s)
    ensures Unique(Next(s, l))
  {
    if !l.Tick? {
      var t := Next(s, l);
      assert t.lock == s.lock || t.lock == None || t.lock.value.body == s.pcs[l.a].body;
      assert t.pcs[l.a].Idle? || t.pcs[l.a].body.nonce == if l.Start? then s.next else s.pcs[l.a].body.nonce;
    }
  }

  ghost predicate UsurpingRun(s: Sys, steps: seq<Step>)
    decreases |steps|
  {
    steps != [] && Enabled(s, steps[0]) && (Usurps(s, steps[0]) || UsurpingRun(Next(s, steps[0]), steps[1..]))
  }

  lemma {:induction false} RunStaysExclusive(s: Sys, steps: seq<Step>, t: Sys)
    requires Unique(s) && Exclusive(s) && Run(s, steps, t) && !UsurpingRun(s, steps)
    ensures Unique(t) && Exclusive(t)
    decreases |steps|
  {
    if steps != [] {
      StepStaysUnique(s, steps[0]);
      StepStaysExclusiveIffNotUsurping(s, steps[0]);
      RunStaysExclusive(Next(s, steps[0]), steps[1..], t);
    }
  }

  // In every run without a usurping break, in particular in every run where nobody takes the
  // stale branch, at most one sweeper holds the lock and a release only ever removes its own body.
  lemma MutualExclusion(s: Sys, steps: seq<Step>, t: Sys, a: Sweeper, b: Sweeper)
    requires Init(s) && Run(s, steps, t) && !UsurpingRun(s, steps)
    requires {a, b} <= t.pcs.Keys
    ensures t.pcs[a].InLock() && t.pcs[b].InLock() ==> a == b
    ensures t.pcs[a].Deleting? ==> Owns(t, a)
  {
    RunStaysExclusive(s, steps, t);
  }

  lemma {:induction false} NoBreakNoUsurping(s: Sys, steps: seq<Step>)
    requires forall l :: l in steps ==> !l.Break?
    ensures !UsurpingRun(s, steps)
    decreases |steps|
  {
    if steps != [] && Enabled(s, steps[0]) {
      NoBreakNoUsurping(Next(s, steps[0]), steps[1..]);
    }
  }

  // A sweeper goes on to break the lock it read exactly when by its own clock, however far that is from
  // the backend's, the lock is past its reference time and TTL.
  lemma BreaksIffOverdue(s: Sys, l: Step)
    requires Enabled(s, l) && l.Get?
    ensures NextPC(s, l).Breaking? <==>
            && s.lock.Some?
            && var held, at := s.lock.value.body.held, s.lock.value.modified;
               && Reference(held, at) != ZERO_TIME
               && (if l.a in s.ahead then s.now + s.ahead[l.a] else s.now) > Reference(held, at) + TTL(held)
    ensures NextPC(s, l).Retrying? <==> s.lock == None
  {
    if s.lock.Some? {
      EventuallyStaleIffAged(s.lock.value.body.held, s.lock.value.modified);
    }
  }

  // In any run, usurped or not, a release goes on to delete only what it read back as its own, and
  // a write that was not acknowledged is never taken for granted.
  lemma DoubtGivesUp(s: Sys, l: Step)
    requires Enabled(s, l)
    ensures l.ReadBack? ==> (NextPC(s, l).Deleting? <==> Owns(s, l.a)) && (NextPC(s, l).Deleting? || NextPC(s, l).Idle?)
    ensures l.Put? ==> (NextPC(s, l).Sweeping? <==> s.lock == None && l.acked)
    ensures l.Break? ==> (NextPC(s, l).Recreating? <==> l.acked)
  {
  }

  // ---------- exclusion in time ----------

  // Nobody's clock puts a sweeper at work past its TTL.
  predicate WithinTTL(s: Sys)
  {
    forall a, b :: a in s.pcs && s.pcs[a].InLock() && Owns(s, a) && b in s.pcs ==> !LooksStale(s, b)
  }

  predicate OneBreaker(s: Sys)
  {
    forall a, b :: a in s.pcs && b in s.pcs && s.pcs[a].Breaking? && s.pcs[b].Breaking? ==> a == b
  }

  ghost predicate TimelyRun(s: Sys, steps: seq<Step>)
    decreases |steps|
  {
    && WithinTTL(s) && OneBreaker(s)
    && (steps != [] && Enabled(s, steps[0]) ==> TimelyRun(Next(s, steps[0]), steps[1..]))
  }

  // What a breaker is about to delete is an abandoned lock.
  predicate BreaksAbandoned(s: Sys)
  {
    forall b :: b in s.pcs && s.pcs[b].Breaking? ==>
      s.lock.Some? && forall a :: a in s.pcs ==> !s.pcs[a].InLock()
  }

  lemma StepBreaksAbandoned(s: Sys, l: Step)
    requires Enabled(s, l) && Unique(s) && Exclusive(s) && BreaksAbandoned(s) && WithinTTL(s) && OneBreaker(s)
    ensures BreaksAbandoned(Next(s, l)) && !Usurps(s, l)
  {
    if l.Get? && s.lock.Some? && LooksStale(s, l.a) {
      forall a | a in s.pcs ensures !s.pcs[a].InLock() {
        assert s.pcs[a].InLock() ==> Owns(s, a);
      }
    }
  }

  // While sweeps stay within their TTL on every clock and one sweeper breaks a lock at a time,
  // reclaiming costs no exclusion: every break removes a lock nobody works under.
  lemma {:induction false} TimelyRunsDoNotUsurp(s: Sys, steps: seq<Step>, t: Sys)
    requires Unique(s) && Exclusive(s) && BreaksAbandoned(s) && Run(s, steps, t) && TimelyRun(s, steps)
    ensures !UsurpingRun(s, steps)
    decreases |steps|
  {
    if steps != [] {
      StepStaysUnique(s, steps[0]);
      StepBreaksAbandoned(s, steps[0]);
      StepStaysExclusiveIffNotUsurping(s, steps[0]);
      TimelyRunsDoNotUsurp(Next(s, steps[0]), steps[1..], t);
    }
  }

  lemma TimelyExclusion(s: Sys, steps: seq<Step>, t: Sys, a: Sweeper, b: Sweeper)
    requires Init(s) && Run(s, steps, t) && TimelyRun(s, steps) && {a, b} <= t.pcs.Keys
    ensures t.pcs[a].InLock() && t.pcs[b].InLock() ==> a == b
  {
    TimelyRunsDoNotUsurp(s, steps, t);
    MutualExclusion(s, steps, t, a, b);
  }

  // ---------- progress ----------

  lemma {:induction false} RunThen(s: Sys, steps: seq<Step>, t: Sys, l: Step)
    requires Run(s, steps, t) && Enabled(t, l)
    ensures Run(s, steps + [l], Next(t, l))
    decreases |steps|
  {
    if steps == [] {
      assert [l][1..] == [];
    } else {
      RunThen(Next(s, steps[0]), steps[1..], t, l);
      assert (steps + [l])[1..] == steps[1..] + [l];
    }
  }

  lemma Then(s: Sys, steps: seq<Step>, t: Sys, l: Step) returns (u: Sys, more: seq<Step>)
    requires Run(s, steps, t) && Enabled(t, l)
    ensures u == Next(t, l) && more == steps + [l] && Run(s, more, u)
  {
    RunThen(s, steps, t, l);
    u, more := Next(t, l), steps + [l];
  }

  function Acquired(s: Sys, a: Sweeper, held: Held, now: int): Sys
  {
    var body := Body(s.next, held);
    s.(lock := Some(Stored(s.(now := now), body)), next := s.next + 1, now := now, pcs := s.pcs[a := Sweeping(body)])
  }

  // An idle sweeper to whom the lock looks stale is soon about to break it.
  lemma ReachBreaking(s: Sys, steps: seq<Step>, t: Sys, a: Sweeper, held: Held) returns (u: Sys, more: seq<Step>)
    requires Run(s, steps, t) && a in t.pcs && t.pcs[a].Idle? && LooksStale(t, a)
    ensures Run(s, more, u)
    ensures u == t.(next := t.next + 1, pcs := t.pcs[a := Breaking(Body(t.next, held))])
    ensures forall l :: l in more && l.Break? ==> l in steps || l.a == a
  {
    u, more := Then(s, steps, t, Start(a, held));
    u, more := Then(s, more, u, Put(a, true, true));
    u, more := Then(s, more, u, Get(a));
    assert u.pcs == t.pcs[a := Breaking(Body(t.next, held))];
  }

  // And from there it gets the lock, whoever had it.
  lemma BreakAndSweep(s: Sys, steps: seq<Step>, t: Sys, a: Sweeper) returns (u: Sys, more: seq<Step>)
    requires Run(s, steps, t) && a in t.pcs && t.pcs[a].Breaking?
    ensures Run(s, more, u)
    ensures u == t.(lock := Some(Stored(t, t.pcs[a].body)), pcs := t.pcs[a := Sweeping(t.pcs[a].body)])
    ensures forall l :: l in more && l.Break? ==> l in steps || l.a == a
  {
    u, more := Then(s, steps, t, Break(a, true, true));
    u, more := Then(s, more, u, Put(a, true, true));
    assert u.pcs == t.pcs[a := Sweeping(t.pcs[a].body)];
  }

  // A lock left behind does not wedge the hub: if it has an age signal, then after enough time an
  // uncontended acquirer gets it, and a free lock is got at once.
  lemma Reclaimable(s: Sys, a: Sweeper, held: Held) returns (steps: seq<Step>, t: Sys)
    requires a in s.pcs && s.pcs[a].Idle?
    requires s.lock.Some? ==> Reference(s.lock.value.body.held, s.lock.value.modified) != ZERO_TIME
    ensures Run(s, steps, t) && t.now >= s.now && t == Acquired(s, a, held, t.now)
    ensures s.lock == None ==> t.now == s.now
  {
    if s.lock == None {
      t, steps := Then(s, [], s, Start(a, held));
      t, steps := Then(s, steps, t, Put(a, true, true));
    } else {
      var o := s.lock.value;
      EventuallyStaleIffAged(o.body.held, o.modified);
      var due := Reference(o.body.held, o.modified) + TTL(o.body.held) + 1;
      t, steps := Then(s, [], s, Tick(if due > Clock(s, a) then due - Clock(s, a) else 0));
      assert LooksStale(t, a);
      t, steps := ReachBreaking(s, steps, t, a, held);
      t, steps := BreakAndSweep(s, steps, t, a);
    }
    assert t.pcs == s.pcs[a := Sweeping(Body(s.next, held))];
  }

  // And a sweeper that still has its lock gives it back.
  lemma ReleaseFrees(s: Sys, a: Sweeper) returns (steps: seq<Step>, t: Sys)
    requires a in s.pcs && s.pcs[a].Sweeping? && Owns(s, a)
    ensures Run(s, steps, t) && t == s.(lock := None, pcs := s.pcs[a := Idle])
    ensures forall l :: l in steps ==> !l.Break? && !l.Die? && !l.Tick?
  {
    t, steps := Then(s, [], s, BeginRelease(a));
    t, steps := Then(s, steps, t, ReadBack(a));
    t, steps := Then(s, steps, t, Delete(a, true));
    assert t.pcs == s.pcs[a := Idle];
  }

  // ---------- where the hypotheses bite ----------

  // A lock of one second that sweeper 2 left behind, seen by two others two seconds later.
  lemma Abandoned() returns (s: Sys, steps: seq<Step>, t: Sys)
    ensures Init(s) && Run(s, steps, t) && WithinTTL(t)
    ensures t == Sys(Some(Object(Body(0, Held(0, 1)), 0)), 1, 2 * NANOS_PER_SECOND, true, map[],
                     map[0 := Idle, 1 := Idle, 2 := Idle])
  {
    s := Sys(None, 0, 0, true, map[], map[0 := Idle, 1 := Idle, 2 := Idle]);
    t, steps := Then(s, [], s, Start(2, Held(0, 1)));
    t, steps := Then(s, steps, t, Put(2, true, true));
    t, steps := Then(s, steps, t, Die(2));
    t, steps := Then(s, steps, t, Tick(2 * NANOS_PER_SECOND));
    assert t.pcs == map[0 := Idle, 1 := Idle, 2 := Idle];
  }

  // Two sweepers that both judged one abandoned lock stale end up in the lock together.
  lemma TwoBreakersBothSweep() returns (s: Sys, steps: seq<Step>, t: Sys)
    ensures Init(s) && Run(s, steps, t) && UsurpingRun(s, steps)
    ensures {0, 1} <= t.pcs.Keys && t.pcs[0].Sweeping? && t.pcs[1].Sweeping?
  {
    s, steps, t := Abandoned();
    assert TTL(Held(0, 1)) == NANOS_PER_SECOND;
    assert LooksStale(t, 0) && LooksStale(t, 1);
    t, steps := ReachBreaking(s, steps, t, 0, Held(0, 3600));
    t, steps := ReachBreaking(s, steps, t, 1, Held(0, 3600));
    t, steps := BreakAndSweep(s, steps, t, 0);
    t, steps := BreakAndSweep(s, steps, t, 1);
    if !UsurpingRun(s, steps) {
      MutualExclusion(s, steps, t, 0, 1);
    }
  }

  // A single breaker is enough when a sweep overruns the TTL it claimed.
  lemma OverrunIsBroken() returns (s: Sys, steps: seq<Step>, t: Sys)
    ensures Init(s) && Run(s, steps, t) && UsurpingRun(s, steps) && forall l :: l in steps && l.Break? ==> l.a == 1
    ensures {0, 1} <= t.pcs.Keys && t.pcs[0].Sweeping? && t.pcs[1].Sweeping?
  {
    s := Sys(None, 0, 0, true, map[], map[0 := Idle, 1 := Idle]);
    t, steps := Then(s, [], s, Start(0, Held(0, 1)));
    t, steps := Then(s, steps, t, Put(0, true, true));
    t, steps := Then(s, steps, t, Tick(2 * NANOS_PER_SECOND));
    assert TTL(Held(0, 1)) == NANOS_PER_SECOND;
    assert LooksStale(t, 1);
    t, steps := ReachBreaking(s, steps, t, 1, Held(0, 1));
    t, steps := BreakAndSweep(s, steps, t, 1);
    if !UsurpingRun(s, steps) {
      MutualExclusion(s, steps, t, 0, 1);
    }
  }
}
