/**
 Compactors, pullers and pushers interleaving on one hub. Each actor's compaction is
 cut into its hub operations; any actor may crash anywhere, hub writes may land without
 being acknowledged, and deletions may stop half way. Theorems are about every run.

 The hub offers what its contract promises: a compare-and-swap retention manifest,
 content-addressed snapshot objects, and deletion below per-device floors.
 */
module Retention {
  import opened Common
  import opened CompactFloors

  type ActorId = nat

  datatype Stage = Won | Confirmed | Deleted

  // Where a compaction stands. `base` are the floors from this actor's own cursors and
  // `read` the manifest (and so the etag) it read.
  datatype PC =
    | Idle
    | Planned(base: Floors, read: Option<Manifest>)
    | Locked(base: Floors, read: Option<Manifest>, retried: bool)
    | Published(base: Floors, read: Option<Manifest>, retried: bool, m: Manifest)
    | Conflicted(base: Floors)
    | Holding(m: Manifest, stage: Stage)

  // One device's store: its transport cursors, push watermark, and what it has consumed.
  datatype Actor = Actor(reg: Registry, revoked: set<Device>, cursors: map<Device, int>,
                         pushed: nat, has: set<Event>, pc: PC)

  // `len` counts each device's gapless stream, `gone` the deleted events, `history` every
  // manifest that was ever in force, `cleaned` the devices whose whole stream was reclaimed,
  // and `broken` whether a sweep lock was ever taken over from a sweeper still at work.
  datatype Sys = Sys(len: map<Device, nat>, gone: set<Event>, retention: Option<Manifest>, history: seq<Manifest>,
                     snapshots: set<SnapshotObject>, lock: Option<ActorId>, broken: bool, cleaned: set<Device>,
                     actors: map<ActorId, Actor>)

  datatype Step =
    | PushOwn(a: ActorId)
    | PushOther(d: Device)
    | Pull(a: ActorId, d: Device, upto: nat)
    | Import(a: ActorId)
    | SetTrust(a: ActorId, approved: map<Device, Key>, revoked: set<Device>)
    | Plan(a: ActorId)
    | Lock(a: ActorId)
    | TakeOver(a: ActorId)
    | Publish(a: ActorId, stamp: Stamp, wck: Key)
    | Cas(a: ActorId, acked: bool)
    | Reread(a: ActorId)
    | ReadBack(a: ActorId)
    | DeleteCold(a: ActorId, events: set<Event>)
    | FinishDelete(a: ActorId)
    | AdvanceCursor(a: ActorId, d: Device)
    | Clean(a: ActorId, d: Device, events: set<Event>)
    | Prune(a: ActorId, kill: set<SnapshotObject>)
    | Release(a: ActorId)
    | Crash(a: ActorId)

  function Len(s: Sys, d: Device): nat
  {
    if d in s.len then s.len[d] else 0
  }

  predicate Pushed(s: Sys, e: Event)
  {
    1 <= e.at <= Len(s, e.dev)
  }

  function Cursor(x: Actor, d: Device): int
  {
    At(x.cursors, d)
  }

  // The retention gate: the cursor leaves a gap below the device's floor.
  predicate NeedsSnapshot(s: Sys, x: Actor, d: Device)
  {
    s.retention.Some? && At(s.retention.value.floors, d) > 0 && Cursor(x, d) + 1 < At(s.retention.value.floors, d)
  }

  function Advanced(cursors: map<Device, int>, d: Device, to: int): map<Device, int>
  {
    if d in cursors && cursors[d] >= to then cursors else cursors[d := to]
  }

  // AdvanceHubDeviceCursor never regresses a cursor.
  function ImportedCursors(cursors: map<Device, int>, floors: Floors): map<Device, int>
  {
    map d | d in cursors.Keys + floors.Keys && (d in cursors || floors[d] > 0) ::
      if d in floors && floors[d] > 0 && (d !in cursors || cursors[d] < floors[d] - 1) then floors[d] - 1
      else cursors[d]
  }

  // The manifest this actor is about to publish: it signs and names its own snapshot, built
  // from its own store and stamped with the agreed floors.
  function Drafted(x: Actor, floors: Floors, stamp: Stamp, wck: Key, read: Option<Manifest>): Manifest
    requires x.reg.selfKey.Some?
  {
    Manifest(x.reg.workspace, floors, stamp, Sealed(stamp, wck, Document(x.reg.workspace, stamp, floors, x.has)),
             x.reg.self, stamp.hlc, x.reg.selfKey.value, read)
  }

  predicate ActorEnabled(s: Sys, x: Actor, l: Step)
  {
    match l
    case PushOwn(_) => x.pushed == Len(s, x.reg.self)
    case PushOther(_) => false
    case Pull(_, d, upto) =>
      && Cursor(x, d) < upto <= Len(s, d)
      // The retention gate of Pull, and no hole in what the hub still serves.
      && !NeedsSnapshot(s, x, d)
      && forall at: nat :: Cursor(x, d) < at <= upto ==> Event(d, at) !in s.gone
    case Import(_) =>
      && s.retention.Some?
      && s.retention.value.producedBy in x.reg.approved
      && x.reg.approved[s.retention.value.producedBy] == s.retention.value.signedWith
      && s.retention.value.snapshot in s.snapshots
    case SetTrust(_, _, _) => true
    case Plan(_) => x.pc.Idle? && Reconcile(x.reg, BaseFloors(x.reg.self, x.cursors, x.pushed), s.retention).Some?
    case Lock(_) => x.pc.Planned? && s.lock == None
    case TakeOver(_) => x.pc.Planned?
    case Publish(_, stamp, _) =>
      && x.pc.Locked? && x.reg.selfKey.Some?
      // A keyless device cannot compact.
      && stamp.producedBy == x.reg.self && stamp.epoch > 0
      && Reconcile(x.reg, x.pc.base, x.pc.read).Some?
    case Cas(_, _) => x.pc.Published?
    case Reread(_) => x.pc.Conflicted?
    case ReadBack(_) => x.pc.Holding? && x.pc.stage == Won
    case DeleteCold(_, events) =>
      && x.pc.Holding? && x.pc.stage == Confirmed
      && forall e :: e in events ==> Pushed(s, e) && e.at < At(x.pc.m.floors, e.dev)
    case FinishDelete(_) => x.pc.Holding? && x.pc.stage == Confirmed
    case AdvanceCursor(_, d) => x.pc.Holding? && x.pc.stage == Deleted && At(x.pc.m.floors, d) > 1
    case Clean(_, d, events) =>
      && x.pc.Holding? && x.pc.stage == Deleted && d in x.revoked && At(x.pc.m.floors, d) > 0
      && forall e :: e in events ==> Pushed(s, e) && e.dev == d
    case Prune(_, kill) => x.pc.Holding? && x.pc.stage == Deleted && x.pc.m.snapshot !in kill
    case Release(_) => !x.pc.Idle? && !x.pc.Planned?
    case Crash(_) => true
  }

  predicate Enabled(s: Sys, l: Step)
  {
    if l.PushOther? then forall a :: a in s.actors ==> s.actors[a].reg.self != l.d
    else l.a in s.actors && ActorEnabled(s, s.actors[l.a], l)
  }

  // What the step does to its own actor.
  function ActorNext(s: Sys, x: Actor, l: Step): Actor
    requires ActorEnabled(s, x, l)
  {
    match l
    case PushOther(_) => x
    case PushOwn(_) => x.(pushed := x.pushed + 1, has := x.has + {Event(x.reg.self, x.pushed + 1)})
    case Pull(_, d, upto) =>
      x.(cursors := x.cursors[d := upto],
         has := x.has + set at: nat | 1 <= at <= upto && Cursor(x, d) < at :: Event(d, at))
    case Import(_) =>
      var m := s.retention.value;
      x.(cursors := ImportedCursors(x.cursors, m.floors), has := x.has + Coverage(m.snapshot))
    case SetTrust(_, approved, revoked) => x.(reg := x.reg.(approved := approved), revoked := revoked)
    case Plan(_) => x.(pc := Planned(BaseFloors(x.reg.self, x.cursors, x.pushed), s.retention))
    case Lock(_) => x.(pc := Locked(x.pc.base, x.pc.read, false))
    case TakeOver(_) => x.(pc := Locked(x.pc.base, x.pc.read, false))
    case Publish(_, stamp, wck) =>
      x.(pc := Published(x.pc.base, x.pc.read, x.pc.retried,
                         Drafted(x, Reconcile(x.reg, x.pc.base, x.pc.read).value, stamp, wck, x.pc.read)))
    case Cas(_, acked) =>
      x.(pc := if s.retention == x.pc.read then (if acked then Holding(x.pc.m, Won) else Idle)
               else if acked && !x.pc.retried then Conflicted(x.pc.base)
               else Idle)
    case Reread(_) => x.(pc := Locked(x.pc.base, s.retention, true))
    case ReadBack(_) => x.(pc := if s.retention == Some(x.pc.m) then Holding(x.pc.m, Confirmed) else Idle)
    case DeleteCold(_, _) => x
    case FinishDelete(_) => x.(pc := x.pc.(stage := Deleted))
    case AdvanceCursor(_, d) => x.(cursors := Advanced(x.cursors, d, x.pc.m.floors[d] - 1))
    case Clean(_, _, _) => x
    case Prune(_, _) => x
    case Release(_) => x.(pc := Idle)
    case Crash(_) => x.(pc := Idle)
  }

  predicate InSection(pc: PC)
  {
    !pc.Idle? && !pc.Planned?
  }

  // Some sweeper is at work.
  predicate Occupied(s: Sys)
  {
    exists a :: a in s.actors && InSection(s.actors[a].pc)
  }

  // What the step does to the hub.
  function HubNext(s: Sys, l: Step): Sys
    requires Enabled(s, l)
  {
    if l.PushOther? then s.(len := s.len[l.d := Len(s, l.d) + 1])
    else
      var x := s.actors[l.a];
      match l
      case PushOwn(_) => s.(len := s.len[x.reg.self := x.pushed + 1])
      case Lock(_) => s.(lock := Some(l.a))
      case TakeOver(_) => s.(lock := Some(l.a), broken := s.broken || Occupied(s))
      case Publish(_, _, _) => s.(snapshots := s.snapshots + {ActorNext(s, x, l).pc.m.snapshot})
      case Cas(_, _) =>
        if s.retention == x.pc.read then s.(retention := Some(x.pc.m), history := s.history + [x.pc.m]) else s
      case DeleteCold(_, events) => s.(gone := s.gone + events)
      case Clean(_, d, events) => s.(gone := s.gone + events, cleaned := s.cleaned + {d})
      case Prune(_, kill) => s.(snapshots := s.snapshots - kill)
      case Release(_) => s.(lock := if s.lock == Some(l.a) then None else s.lock)
      case _ => s
  }

  function Next(s: Sys, l: Step): Sys
    requires Enabled(s, l)
  {
    var t := HubNext(s, l);
    if l.PushOther? then t else t.(actors := s.actors[l.a := ActorNext(s, s.actors[l.a], l)])
  }

  predicate Init(s: Sys)
  {
    && s.len == map[] && s.gone == {} && s.retention == None && s.history == [] && s.snapshots == {}
    && s.lock == None && !s.broken && s.cleaned == {}
    && forall a :: a in s.actors ==>
         && s.actors[a].pc == Idle && s.actors[a].cursors == map[] && s.actors[a].pushed == 0 && s.actors[a].has == {}
  }

  // t is reached from s by these steps.
  ghost predicate Run(s: Sys, steps: seq<Step>, t: Sys)
    decreases |steps|
  {
    if steps == [] then s == t
    else Enabled(s, steps[0]) && Run(Next(s, steps[0]), steps[1..], t)
  }

  // ---------- one monotone chain of manifests ----------

  predicate Chained(h: seq<Manifest>)
  {
    && (h != [] ==> h[0].prev == None)
    && forall i :: 0 < i < |h| ==> h[i].prev == Some(h[i - 1]) && AtLeast(h[i].floors, h[i - 1].floors)
  }

  lemma {:induction false} ChainMonotone(h: seq<Manifest>, i: nat, j: nat)
    requires Chained(h) && i <= j < |h|
    ensures AtLeast(h[j].floors, h[i].floors)
    decreases j
  {
    if i < j {
      ChainMonotone(h, i, j - 1);
      AtLeastTransitive(h[j].floors, h[j - 1].floors, h[i].floors);
    }
  }

  predicate ActorOnChain(s: Sys, x: Actor)
  {
    match x.pc
    case Published(_, read, _, m) => m.prev == read && (read.Some? ==> AtLeast(m.floors, read.value.floors))
    case Holding(m, _) => m in s.history
    case _ => true
  }

  predicate OnChain(s: Sys)
  {
    && Chained(s.history)
    && s.retention == (if s.history == [] then None else Some(s.history[|s.history| - 1]))
    && forall a :: a in s.actors ==> ActorOnChain(s, s.actors[a])
  }

  // Confirm before delete: outside reclaimed streams, what is gone lies below the floor in force.
  predicate GoneBelowFloors(s: Sys)
  {
    forall e :: e in s.gone ==>
      Pushed(s, e) && (e.dev in s.cleaned || (s.retention.Some? && e.at < At(s.retention.value.floors, e.dev)))
  }

  lemma AppendStaysChained(h: seq<Manifest>, m: Manifest)
    requires Chained(h) && m.prev == (if h == [] then None else Some(h[|h| - 1]))
    requires h != [] ==> AtLeast(m.floors, h[|h| - 1].floors)
    ensures Chained(h + [m]) && h <= h + [m]
  {
    var more := h + [m];
    forall i | 0 < i < |more| ensures more[i].prev == Some(more[i - 1]) && AtLeast(more[i].floors, more[i - 1].floors) {
      if i < |h| { assert more[i] == h[i]; }
    }
  }

  // Only a compare-and-swap that finds the manifest its actor read changes what is in force:
  // the winner raises every floor, drops no device and carries its predecessor's digest.
  lemma CasStepExtendsChain(s: Sys, l: Step)
    requires Enabled(s, l) && OnChain(s)
    ensures var t := Next(s, l);
            && Chained(t.history)
            && t.retention == (if t.history == [] then None else Some(t.history[|t.history| - 1]))
            && s.history <= t.history
            && (t.retention != s.retention ==>
                  && t.retention.Some? && t.retention.value.prev == s.retention
                  && (s.retention.Some? ==> AtLeast(t.retention.value.floors, s.retention.value.floors)))
  {
    if l.Cas? {
      var x := s.actors[l.a];
      assert ActorOnChain(s, x);
      if s.retention == x.pc.read {
        AppendStaysChained(s.history, x.pc.m);
      }
    }
  }

  lemma DraftOnChain(x: Actor, floors: Floors, stamp: Stamp, wck: Key, read: Option<Manifest>)
    requires x.reg.selfKey.Some? && x.pc.Locked? && Reconcile(x.reg, x.pc.base, read) == Some(floors)
    ensures var m := Drafted(x, floors, stamp, wck, read);
            m.prev == read && (read.Some? ==> AtLeast(m.floors, read.value.floors))
  {
    if read.Some? {
      ReconcileRaisesFloors(x.reg, x.pc.base, read.value);
    }
  }

  // A draft is its producer's own: signed with its key, over the manifest it read, and naming a snapshot
  // sealed from its own store with the very floors it lists.
  lemma DraftIsOwn(s: Sys, l: Step)
    requires Enabled(s, l) && l.Publish?
    ensures var x := s.actors[l.a];
            var pc := Next(s, l).actors[l.a].pc;
            && pc.Published? && pc.read == x.pc.read && pc.m.prev == x.pc.read
            && pc.m.producedBy == x.reg.self && Some(pc.m.signedWith) == x.reg.selfKey
            && pc.m.workspace == x.reg.workspace && pc.m.stamp == l.stamp && pc.m.producedAt == l.stamp.hlc
            && pc.m.snapshot.Sealed? && pc.m.snapshot.envelope == l.stamp && pc.m.snapshot.wck == l.wck
            && pc.m.snapshot.doc == Document(x.reg.workspace, l.stamp, pc.m.floors, x.has)
            && pc.m.snapshot in Next(s, l).snapshots
            && Reconcile(x.reg, x.pc.base, x.pc.read) == Some(pc.m.floors) && l.stamp.epoch > 0
  {
  }

  // A compaction goes through its stages in order: it holds a manifest only after an acknowledged swap
  // over what it read, deletes only after reading that manifest back, and advances, reclaims and
  // prunes only after deleting. A lost swap is tried again once, over what was then in force.
  lemma StagesInOrder(s: Sys, l: Step)
    requires Enabled(s, l) && !l.PushOther?
    ensures var pc, next := s.actors[l.a].pc, Next(s, l).actors[l.a].pc;
            && (next.Holding? && next.stage == Won && next != pc ==>
                  pc.Published? && pc.m == next.m && l.Cas? && l.acked && s.retention == pc.read
                  && Next(s, l).retention == Some(next.m))
            && (next.Holding? && next.stage == Confirmed && next != pc ==>
                  pc == Holding(next.m, Won) && l.ReadBack? && s.retention == Some(next.m))
            && (next.Holding? && next.stage == Deleted && next != pc ==>
                  pc == Holding(next.m, Confirmed) && l.FinishDelete?)
            && (next.Conflicted? ==> pc.Conflicted? || (pc.Published? && !pc.retried && s.retention != pc.read))
            && (l.Reread? ==> pc.Conflicted? && next == Locked(pc.base, s.retention, true))
    ensures l.DeleteCold? ==> s.actors[l.a].pc.Holding? && s.actors[l.a].pc.stage == Confirmed
    ensures l.AdvanceCursor? || l.Clean? || l.Prune? ==>
              s.actors[l.a].pc.Holding? && s.actors[l.a].pc.stage == Deleted
  {
  }

  // A store comes to hold an event only by pushing it, by pulling what the hub still has past a cursor
  // that no floor has overtaken, or by importing the snapshot in force, present on the hub and named
  // by a manifest that an approved producer's own key signed. And nothing it holds is lost.
  lemma ConsumesOnlyWhatIsServed(s: Sys, l: Step, e: Event)
    requires Enabled(s, l) && !l.PushOther?
    ensures s.actors[l.a].has <= Next(s, l).actors[l.a].has
    ensures e in Next(s, l).actors[l.a].has && e !in s.actors[l.a].has ==>
              || (l.PushOwn? && e == Event(s.actors[l.a].reg.self, s.actors[l.a].pushed + 1) && Pushed(Next(s, l), e))
              || (l.Pull? && e.dev == l.d && Pushed(s, e) && e !in s.gone && e.at > Cursor(s.actors[l.a], l.d))
              || (l.Import? && e in Coverage(s.retention.value.snapshot))
    ensures l.Pull? && s.retention.Some? && At(s.retention.value.floors, l.d) > 0 ==>
              Cursor(s.actors[l.a], l.d) + 1 >= At(s.retention.value.floors, l.d)
    ensures l.Import? ==>
              && s.retention.Some? && s.retention.value.snapshot in s.snapshots
              && var m, reg := s.retention.value, s.actors[l.a].reg;
                 m.producedBy in reg.approved && reg.approved[m.producedBy] == m.signedWith
  {
  }

  lemma WinnerOnChain(s: Sys, l: Step)
    requires Enabled(s, l) && OnChain(s) && l.Cas?
    ensures ActorOnChain(Next(s, l), ActorNext(s, s.actors[l.a], l))
  {
    var t, m := Next(s, l), s.actors[l.a].pc.m;
    if s.retention == s.actors[l.a].pc.read {
      assert t.history[|s.history|] == m;
    }
  }

  lemma MoverOnChain(s: Sys, l: Step)
    requires Enabled(s, l) && OnChain(s) && !l.PushOther?
    ensures ActorOnChain(Next(s, l), ActorNext(s, s.actors[l.a], l))
  {
    var x := s.actors[l.a];
    assert ActorOnChain(s, x);
    if l.Publish? {
      DraftOnChain(x, Reconcile(x.reg, x.pc.base, x.pc.read).value, l.stamp, l.wck, x.pc.read);
    } else if l.Cas? {
      WinnerOnChain(s, l);
    }
  }

  lemma StepStaysOnChain(s: Sys, l: Step)
    requires Enabled(s, l) && OnChain(s)
    ensures OnChain(Next(s, l))
  {
    var t := Next(s, l);
    CasStepExtendsChain(s, l);
    forall a | a in t.actors ensures ActorOnChain(t, t.actors[a]) {
      assert ActorOnChain(s, s.actors[a]);
      if !l.PushOther? && a == l.a {
        MoverOnChain(s, l);
      } else {
        assert t.actors[a] == s.actors[a];
      }
    }
  }

  lemma FloorsOnlyRise(s: Sys, l: Step, e: Event)
    requires Enabled(s, l) && OnChain(s)
    requires s.retention.Some? && e.at < At(s.retention.value.floors, e.dev)
    ensures Next(s, l).retention.Some? && e.at < At(Next(s, l).retention.value.floors, e.dev)
  {
    CasStepExtendsChain(s, l);
  }

  // The floors a compactor deletes below are never above the floors in force.
  lemma HeldManifestInForce(s: Sys, a: ActorId)
    requires OnChain(s) && a in s.actors && s.actors[a].pc.Holding?
    ensures s.retention.Some? && AtLeast(s.retention.value.floors, s.actors[a].pc.m.floors)
  {
    assert ActorOnChain(s, s.actors[a]);
    var i :| 0 <= i < |s.history| && s.history[i] == s.actors[a].pc.m;
    ChainMonotone(s.history, i, |s.history| - 1);
  }

  lemma StepKeepsGoneBelowFloors(s: Sys, l: Step)
    requires Enabled(s, l) && OnChain(s) && GoneBelowFloors(s)
    ensures GoneBelowFloors(Next(s, l))
  {
    var t := Next(s, l);
    forall e | e in t.gone
      ensures Pushed(t, e)
      ensures e.dev in t.cleaned || (t.retention.Some? && e.at < At(t.retention.value.floors, e.dev))
    {
      if e in s.gone {
        assert Pushed(s, e);
        if e.dev !in s.cleaned { FloorsOnlyRise(s, l, e); }
      } else if l.DeleteCold? {
        HeldManifestInForce(s, l.a);
        assert e in l.events;
      }
    }
  }

  // ---------- whose stream may be reclaimed ----------

  // A step deletes an event below the floors in force, or one of a stream that its own actor, having
  // published a floor for it, holds revoked.
  lemma StepDeletesBelowOrOfRevoked(s: Sys, l: Step, e: Event)
    requires Enabled(s, l) && OnChain(s) && e in Next(s, l).gone && e !in s.gone
    ensures Pushed(s, e) && !l.PushOther? && s.actors[l.a].pc.Holding? && s.actors[l.a].pc.stage != Won
    ensures s.retention.Some? && AtLeast(s.retention.value.floors, s.actors[l.a].pc.m.floors)
    ensures || e.at < At(s.retention.value.floors, e.dev)
            || (e.dev in s.actors[l.a].revoked && At(s.actors[l.a].pc.m.floors, e.dev) > 0)
    ensures l.Clean? ==> e.dev in s.actors[l.a].revoked
  {
    HeldManifestInForce(s, l.a);
  }

  predicate HeldRevoked(s: Sys, d: Device)
  {
    exists a :: a in s.actors && d in s.actors[a].revoked
  }

  // At no state of the run does anybody hold d revoked.
  ghost predicate NeverRevoked(s: Sys, steps: seq<Step>, d: Device)
    decreases |steps|
  {
    !HeldRevoked(s, d) && (steps != [] && Enabled(s, steps[0]) ==> NeverRevoked(Next(s, steps[0]), steps[1..], d))
  }

  // So only the stream of a device somebody held revoked is ever reclaimed.
  lemma {:induction false} NeverRevokedIsNeverReclaimed(s: Sys, steps: seq<Step>, t: Sys, d: Device)
    requires Run(s, steps, t) && NeverRevoked(s, steps, d) && d !in s.cleaned
    ensures d !in t.cleaned
    decreases |steps|
  {
    if steps != [] {
      NeverRevokedIsNeverReclaimed(Next(s, steps[0]), steps[1..], t, d);
    }
  }

  // ---------- the sweep lock keeps the referenced snapshot present ----------

  predicate ActorSerialized(s: Sys, a: ActorId, x: Actor)
  {
    && (InSection(x.pc) ==> s.lock == Some(a))
    && (x.pc.Published? ==> x.pc.m.snapshot in s.snapshots)
    && (x.pc.Holding? ==> s.retention == Some(x.pc.m))
  }

  // While no lock was ever taken over from a sweeper at work, the passes are serialized and the
  // manifest in force names a snapshot the hub still has. Reclaiming a dead sweeper's lock is harmless.
  predicate Serialized(s: Sys)
  {
    !s.broken ==>
      && (s.retention.Some? ==> s.retention.value.snapshot in s.snapshots)
      && forall a :: a in s.actors ==> ActorSerialized(s, a, s.actors[a])
  }

  lemma MoverHasTheLock(s: Sys, l: Step)
    requires Enabled(s, l) && Serialized(s) && !l.PushOther? && !Next(s, l).broken
    ensures InSection(ActorNext(s, s.actors[l.a], l).pc) ==> HubNext(s, l).lock == Some(l.a)
  {
    assert !s.broken && ActorSerialized(s, l.a, s.actors[l.a]);
    assert InSection(ActorNext(s, s.actors[l.a], l).pc) ==> InSection(s.actors[l.a].pc) || l.Lock? || l.TakeOver?;
  }

  lemma MoverHasItsSnapshot(s: Sys, l: Step)
    requires Enabled(s, l) && Serialized(s) && !l.PushOther? && !Next(s, l).broken
    ensures var pc := ActorNext(s, s.actors[l.a], l).pc; pc.Published? ==> pc.m.snapshot in HubNext(s, l).snapshots
  {
    assert !s.broken && ActorSerialized(s, l.a, s.actors[l.a]);
    assert ActorNext(s, s.actors[l.a], l).pc.Published? ==> s.actors[l.a].pc.Published? || l.Publish?;
  }

  lemma MoverHoldsWhatIsInForce(s: Sys, l: Step)
    requires Enabled(s, l) && Serialized(s) && !l.PushOther? && !Next(s, l).broken
    ensures var pc := ActorNext(s, s.actors[l.a], l).pc; pc.Holding? ==> HubNext(s, l).retention == Some(pc.m)
  {
    assert !s.broken && ActorSerialized(s, l.a, s.actors[l.a]);
    assert ActorNext(s, s.actors[l.a], l).pc.Holding? ==> s.actors[l.a].pc.Holding? || l.Cas?;
  }

  // Taking over the lock of a sweeper that is no longer at work breaks nothing.
  lemma ReclaimIsHarmless(s: Sys, l: Step)
    requires Enabled(s, l)
    ensures l.TakeOver? && (forall a :: a in s.actors ==> s.actors[a].pc.Idle? || s.actors[a].pc.Planned?) ==>
              Next(s, l).broken == s.broken
    ensures !l.TakeOver? ==> Next(s, l).broken == s.broken
  {
  }

  // Only the holder of the lock touches what the others rely on.
  lemma HolderAloneTouches(s: Sys, l: Step)
    requires Enabled(s, l) && Serialized(s) && !l.PushOther? && !Next(s, l).broken
    ensures s.retention != Next(s, l).retention || s.lock != Next(s, l).lock
            || !(s.snapshots <= Next(s, l).snapshots) ==>
              s.lock == None || s.lock == Some(l.a) || !Occupied(s)
    ensures Next(s, l).retention.Some? ==> Next(s, l).retention.value.snapshot in Next(s, l).snapshots
  {
    assert !s.broken && ActorSerialized(s, l.a, s.actors[l.a]);
  }

  lemma StepStaysSerialized(s: Sys, l: Step)
    requires Enabled(s, l) && Serialized(s)
    ensures Serialized(Next(s, l))
  {
    var t := Next(s, l);
    if !t.broken && !l.PushOther? {
      MoverHasTheLock(s, l);
      MoverHasItsSnapshot(s, l);
      MoverHoldsWhatIsInForce(s, l);
      HolderAloneTouches(s, l);
      forall a | a in t.actors ensures ActorSerialized(t, a, t.actors[a]) {
        assert ActorSerialized(s, a, s.actors[a]);
      }
    }
  }

  // ---------- what a snapshot covers ----------

  // Cursors and push watermark are honest about what the store consumed.
  predicate Honest(x: Actor)
  {
    && (forall d :: d in x.cursors ==> HasBelow(x.has, d, x.cursors[d] + 1))
    && HasBelow(x.has, x.reg.self, x.pushed + 1)
  }

  predicate ManifestCovered(m: Manifest)
  {
    Covers(Coverage(m.snapshot), m.floors)
  }

  predicate ActorCovered(x: Actor)
  {
    && Honest(x)
    && match x.pc
       case Idle => true
       case Planned(base, _) => Covers(x.has, base)
       case Locked(base, _, _) => Covers(x.has, base)
       case Conflicted(base) => Covers(x.has, base)
       case Published(base, _, _, m) => Covers(x.has, base) && ManifestCovered(m) && Coverage(m.snapshot) <= x.has
       case Holding(m, _) => ManifestCovered(m) && Coverage(m.snapshot) <= x.has
  }

  predicate Covered(s: Sys)
  {
    && (s.retention.Some? ==> ManifestCovered(s.retention.value))
    && forall a :: a in s.actors ==> ActorCovered(s.actors[a])
  }

  // A publish is sighted when this store has itself consumed what lies below every floor
  // it carries forward from the manifest it read.
  predicate SightedActor(x: Actor, l: Step)
  {
    l.Publish? && x.pc.Locked? && x.pc.read.Some? ==>
      forall d :: d in x.pc.read.value.floors && d !in x.pc.base ==> HasBelow(x.has, d, x.pc.read.value.floors[d])
  }

  predicate Sighted(s: Sys, l: Step)
  {
    l.PushOther? || (l.a in s.actors && SightedActor(s.actors[l.a], l))
  }

  // The exact condition: what an honest store publishes is covered iff the publish is sighted.
  lemma PublishCoveredIffSighted(s: Sys, l: Step)
    requires Enabled(s, l) && l.Publish? && Covers(s.actors[l.a].has, s.actors[l.a].pc.base)
    ensures ManifestCovered(Next(s, l).actors[l.a].pc.m) <==> Sighted(s, l)
  {
    var x := s.actors[l.a];
    if x.pc.read.Some? {
      CoveredUnlessBlind(x.has, x.pc.base, x.pc.read.value.floors);
    }
  }

  // ---------- the same, on cursors a compactor can look up ----------

  function Reached(x: Actor, d: Device): int
  {
    Top(x.reg.self, x.cursors, x.pushed, d)
  }

  // The cursors reach every floor that is merely carried forward.
  predicate CaughtUpActor(x: Actor, l: Step)
  {
    l.Publish? && x.pc.Locked? && x.pc.read.Some? ==>
      forall d :: d in x.pc.read.value.floors && d !in x.pc.base ==>
        x.pc.read.value.floors[d] <= 1 || x.pc.read.value.floors[d] <= Reached(x, d) + 1
  }

  predicate CaughtUp(s: Sys, l: Step)
  {
    l.PushOther? || (l.a in s.actors && CaughtUpActor(s.actors[l.a], l))
  }

  // Nothing beyond the cursors was consumed. Importing a snapshot is what can break this.
  predicate ActorBounded(x: Actor)
  {
    forall e :: e in x.has ==> e.at <= Reached(x, e.dev)
  }

  predicate Bounded(s: Sys)
  {
    forall a :: a in s.actors ==> ActorBounded(s.actors[a])
  }

  lemma HonestReachesItsTop(x: Actor, d: Device)
    requires Honest(x)
    ensures HasBelow(x.has, d, Reached(x, d) + 1)
  {
    if d in x.cursors {
      assert HasBelow(x.has, d, x.cursors[d] + 1);
    }
  }

  lemma CaughtUpIsSighted(x: Actor, l: Step)
    requires Honest(x)
    ensures CaughtUpActor(x, l) ==> SightedActor(x, l)
    ensures ActorBounded(x) ==> (CaughtUpActor(x, l) <==> SightedActor(x, l))
  {
    if l.Publish? && x.pc.Locked? && x.pc.read.Some? {
      var floors := x.pc.read.value.floors;
      forall d | d in floors && d !in x.pc.base
        ensures floors[d] <= 1 || floors[d] <= Reached(x, d) + 1 ==> HasBelow(x.has, d, floors[d])
        ensures ActorBounded(x) && HasBelow(x.has, d, floors[d]) ==> floors[d] <= 1 || floors[d] <= Reached(x, d) + 1
      {
        HonestReachesItsTop(x, d);
        if ActorBounded(x) {
          HeldIffReached(x.has, d, Reached(x, d), floors[d]);
        }
      }
    }
  }

  // What a store publishes is covered if its cursors reach every carried floor, and if it never
  // imported a snapshot, only then.
  lemma PublishCoveredIffCaughtUp(s: Sys, l: Step)
    requires Enabled(s, l) && l.Publish? && ActorCovered(s.actors[l.a])
    ensures CaughtUp(s, l) ==> ManifestCovered(Next(s, l).actors[l.a].pc.m)
    ensures ActorBounded(s.actors[l.a]) ==> (ManifestCovered(Next(s, l).actors[l.a].pc.m) <==> CaughtUp(s, l))
  {
    PublishCoveredIffSighted(s, l);
    CaughtUpIsSighted(s.actors[l.a], l);
  }

  lemma MoverStaysBounded(s: Sys, x: Actor, l: Step)
    requires ActorEnabled(s, x, l) && ActorBounded(x) && !l.Import?
    ensures ActorBounded(ActorNext(s, x, l))
  {
    var y := ActorNext(s, x, l);
    forall e | e in y.has ensures e.at <= Reached(y, e.dev) {
      if e in x.has { assert e.at <= Reached(x, e.dev); }
    }
  }

  lemma StepStaysBounded(s: Sys, l: Step)
    requires Enabled(s, l) && Bounded(s) && !l.Import?
    ensures Bounded(Next(s, l))
  {
    var t := Next(s, l);
    if !l.PushOther? {
      MoverStaysBounded(s, s.actors[l.a], l);
    }
    forall a | a in t.actors ensures ActorBounded(t.actors[a]) {
      assert ActorBounded(s.actors[a]);
    }
  }

  lemma ImportStaysHonest(x: Actor, m: Manifest)
    requires Honest(x) && ManifestCovered(m)
    ensures Honest(x.(cursors := ImportedCursors(x.cursors, m.floors), has := x.has + Coverage(m.snapshot)))
  {
    var cursors, has := ImportedCursors(x.cursors, m.floors), x.has + Coverage(m.snapshot);
    forall d | d in cursors ensures HasBelow(has, d, cursors[d] + 1) {
      if d in x.cursors { assert HasBelow(x.has, d, x.cursors[d] + 1); }
      if d in m.floors { assert HasBelow(Coverage(m.snapshot), d, m.floors[d]); }
    }
  }

  lemma PullStaysHonest(x: Actor, d: Device, upto: nat)
    requires Honest(x) && Cursor(x, d) < upto
    ensures var got := set at: nat | 1 <= at <= upto && Cursor(x, d) < at :: Event(d, at);
            Honest(x.(cursors := x.cursors[d := upto], has := x.has + got))
  {
    var got := set at: nat | 1 <= at <= upto && Cursor(x, d) < at :: Event(d, at);
    forall at: nat | 1 <= at < upto + 1 ensures Event(d, at) in x.has + got {
      if at <= Cursor(x, d) { assert HasBelow(x.has, d, x.cursors[d] + 1); }
    }
    var cursors := x.cursors[d := upto];
    forall e | e in cursors ensures HasBelow(x.has + got, e, cursors[e] + 1) {
      if e != d { assert HasBelow(x.has, e, x.cursors[e] + 1); }
    }
  }

  lemma CoversMore(has: set<Event>, more: set<Event>, floors: Floors)
    requires has <= more && Covers(has, floors)
    ensures Covers(more, floors)
  {
    forall d | d in floors ensures HasBelow(more, d, floors[d]) {
      assert HasBelow(has, d, floors[d]);
    }
  }

  // Growing `has` keeps whatever the compaction already relied on.
  lemma PlanStaysCovered(x: Actor, y: Actor)
    requires ActorCovered(x) && Honest(y) && x.has <= y.has && x.pc == y.pc
    ensures ActorCovered(y)
  {
    match x.pc
    case Planned(base, _) => CoversMore(x.has, y.has, base);
    case Locked(base, _, _) => CoversMore(x.has, y.has, base);
    case Conflicted(base) => CoversMore(x.has, y.has, base);
    case Published(base, _, _, m) => CoversMore(x.has, y.has, base);
    case _ =>
  }

  lemma PlannedIsCovered(x: Actor)
    requires Honest(x)
    ensures Covers(x.has, BaseFloors(x.reg.self, x.cursors, x.pushed))
  {
    BaseFloorsCovered(x.reg.self, x.cursors, x.pushed, x.has);
  }

  lemma AdvanceStaysHonest(x: Actor, m: Manifest, d: Device)
    requires Honest(x) && ManifestCovered(m) && Coverage(m.snapshot) <= x.has && d in m.floors
    ensures Honest(x.(cursors := Advanced(x.cursors, d, m.floors[d] - 1)))
  {
    CoversMore(Coverage(m.snapshot), x.has, m.floors);
  }

  lemma MoverStaysCovered(s: Sys, l: Step)
    requires Enabled(s, l) && Covered(s) && Sighted(s, l) && !l.PushOther?
    ensures ActorCovered(ActorNext(s, s.actors[l.a], l))
  {
    var x := s.actors[l.a];
    var y := ActorNext(s, x, l);
    assert ActorCovered(x);
    match l
    case PushOwn(_) => PlanStaysCovered(x, y);
    case Pull(_, d, upto) => PullStaysHonest(x, d, upto); PlanStaysCovered(x, y);
    case Import(_) => ImportStaysHonest(x, s.retention.value); PlanStaysCovered(x, y);
    case Plan(_) => PlannedIsCovered(x);
    case Publish(_, _, _) => PublishCoveredIffSighted(s, l);
    case AdvanceCursor(_, d) => AdvanceStaysHonest(x, x.pc.m, d);
    case _ =>
  }

  lemma StepStaysCovered(s: Sys, l: Step)
    requires Enabled(s, l) && Covered(s) && Sighted(s, l)
    ensures Covered(Next(s, l))
  {
    var t := Next(s, l);
    if l.Cas? {
      assert ActorCovered(s.actors[l.a]);
    }
    forall a | a in t.actors ensures ActorCovered(t.actors[a]) {
      assert ActorCovered(s.actors[a]);
      if !l.PushOther? && a == l.a {
        MoverStaysCovered(s, l);
      }
    }
  }

  // ---------- floors are worth having ----------

  predicate AboveOne(floors: Floors)
  {
    forall d :: d in floors ==> floors[d] > 1
  }

  predicate ActorAboveOne(x: Actor)
  {
    match x.pc
    case Idle => true
    case Planned(base, read) => AboveOne(base) && (read.Some? ==> AboveOne(read.value.floors))
    case Locked(base, read, _) => AboveOne(base) && (read.Some? ==> AboveOne(read.value.floors))
    case Conflicted(base) => AboveOne(base)
    case Published(base, _, _, m) => AboveOne(base) && AboveOne(m.floors)
    case Holding(m, _) => AboveOne(m.floors)
  }

  // No floor that is ever put in force is trivial: it is at least 2.
  predicate FloorsAboveOne(s: Sys)
  {
    && (s.retention.Some? ==> AboveOne(s.retention.value.floors))
    && forall a :: a in s.actors ==> ActorAboveOne(s.actors[a])
  }

  lemma BaseFloorsAboveOne(self: Device, cursors: map<Device, int>, pushed: int)
    ensures AboveOne(BaseFloors(self, cursors, pushed))
  {
    var base := BaseFloors(self, cursors, pushed);
    assert forall d :: d in base ==> base[d] == OwnFloor(self, cursors, pushed, d);
  }

  lemma MoverAboveOne(s: Sys, x: Actor, l: Step)
    requires ActorEnabled(s, x, l) && ActorAboveOne(x) && (s.retention.Some? ==> AboveOne(s.retention.value.floors))
    ensures ActorAboveOne(ActorNext(s, x, l))
  {
    if l.Plan? {
      BaseFloorsAboveOne(x.reg.self, x.cursors, x.pushed);
    }
  }

  lemma StepKeepsFloorsAboveOne(s: Sys, l: Step)
    requires Enabled(s, l) && FloorsAboveOne(s)
    ensures FloorsAboveOne(Next(s, l))
  {
    var t := Next(s, l);
    if !l.PushOther? {
      assert ActorAboveOne(s.actors[l.a]);
      MoverAboveOne(s, s.actors[l.a], l);
    }
    forall a | a in t.actors ensures ActorAboveOne(t.actors[a]) {
      assert ActorAboveOne(s.actors[a]);
    }
  }

  lemma {:induction false} RunKeepsFloorsAboveOne(s: Sys, steps: seq<Step>, t: Sys)
    requires FloorsAboveOne(s) && Run(s, steps, t)
    ensures FloorsAboveOne(t)
    decreases |steps|
  {
    if steps != [] {
      StepKeepsFloorsAboveOne(s, steps[0]);
      RunKeepsFloorsAboveOne(Next(s, steps[0]), steps[1..], t);
    }
  }

  // ---------- every run ----------

  predicate Safe(s: Sys)
  {
    OnChain(s) && GoneBelowFloors(s) && Serialized(s)
  }

  ghost predicate SightedRun(s: Sys, steps: seq<Step>)
    decreases |steps|
  {
    steps == [] || (Enabled(s, steps[0]) && Sighted(s, steps[0]) && SightedRun(Next(s, steps[0]), steps[1..]))
  }

  lemma StepStaysSafe(s: Sys, l: Step)
    requires Safe(s) && Enabled(s, l)
    ensures Safe(Next(s, l)) && s.history <= Next(s, l).history && s.gone <= Next(s, l).gone
    ensures s.retention.Some? ==>
              Next(s, l).retention.Some? && AtLeast(Next(s, l).retention.value.floors, s.retention.value.floors)
  {
    StepStaysOnChain(s, l);
    CasStepExtendsChain(s, l);
    StepKeepsGoneBelowFloors(s, l);
    StepStaysSerialized(s, l);
  }

  // Safety over every run from a safe state. What is gone stays gone, so an event deleted
  // at any point lies below the floors in force then and at every later point.
  lemma {:induction false} RunStaysSafe(s: Sys, steps: seq<Step>, t: Sys)
    requires Safe(s) && Run(s, steps, t)
    ensures Safe(t)
    ensures s.history <= t.history && s.gone <= t.gone
    ensures s.retention.Some? ==> t.retention.Some? && AtLeast(t.retention.value.floors, s.retention.value.floors)
    decreases |steps|
  {
    if steps != [] {
      var u := Next(s, steps[0]);
      StepStaysSafe(s, steps[0]);
      RunStaysSafe(u, steps[1..], t);
      if s.retention.Some? {
        AtLeastTransitive(t.retention.value.floors, u.retention.value.floors, s.retention.value.floors);
      }
    }
  }

  lemma {:induction false} SightedRunStaysCovered(s: Sys, steps: seq<Step>, t: Sys)
    requires Covered(s) && Run(s, steps, t) && SightedRun(s, steps)
    ensures Covered(t)
    decreases |steps|
  {
    if steps != [] {
      StepStaysCovered(s, steps[0]);
      SightedRunStaysCovered(Next(s, steps[0]), steps[1..], t);
    }
  }

  lemma InitIsSafe(s: Sys)
    requires Init(s)
    ensures Safe(s) && Covered(s) && Bounded(s)
  {
    forall a | a in s.actors ensures ActorCovered(s.actors[a]) && ActorBounded(s.actors[a]) {
      assert s.actors[a].cursors == map[];
    }
  }

  ghost predicate CaughtUpRun(s: Sys, steps: seq<Step>)
    decreases |steps|
  {
    steps == [] || (Enabled(s, steps[0]) && CaughtUp(s, steps[0]) && CaughtUpRun(Next(s, steps[0]), steps[1..]))
  }

  // So runs of compactors that look at their cursors before they publish are sighted, and among
  // runs without imports only those are.
  lemma {:induction false} CaughtUpRunIsSighted(s: Sys, steps: seq<Step>, t: Sys)
    requires Covered(s) && Run(s, steps, t)
    ensures CaughtUpRun(s, steps) ==> SightedRun(s, steps)
    ensures Bounded(s) && (forall l :: l in steps ==> !l.Import?) ==> (CaughtUpRun(s, steps) <==> SightedRun(s, steps))
    decreases |steps|
  {
    if steps != [] {
      var l := steps[0];
      if !l.PushOther? {
        assert ActorCovered(s.actors[l.a]);
        CaughtUpIsSighted(s.actors[l.a], l);
      }
      if Sighted(s, l) {
        StepStaysCovered(s, l);
        CaughtUpRunIsSighted(Next(s, l), steps[1..], t);
      }
      if Bounded(s) && !l.Import? {
        StepStaysBounded(s, l);
      }
    }
  }

  // The retention theorem: over every interleaving of compactors from an empty hub.
  lemma RetentionTheorem(s: Sys, steps: seq<Step>, t: Sys, later: seq<Step>, u: Sys, e: Event)
    requires Init(s) && Run(s, steps, t) && Run(t, later, u)
    // manifests form one monotone hash chain
    ensures Chained(u.history) && t.history <= u.history
    // a deleted event of a device whose stream was not reclaimed is below the floor, for good
    ensures e in t.gone && e.dev !in u.cleaned ==>
              && u.retention.Some? && e.at < At(u.retention.value.floors, e.dev)
              && (e.dev !in t.cleaned ==> t.retention.Some? && e.at < At(t.retention.value.floors, e.dev))
    // nobody's stream is reclaimed before somebody held that device revoked, so until then whatever
    // of its events was deleted is below the floor, for good
    ensures NeverRevoked(s, steps, e.dev) ==>
              && e.dev !in t.cleaned
              && (e in t.gone ==>
                    && t.retention.Some? && e.at < At(t.retention.value.floors, e.dev)
                    && u.retention.Some? && e.at < At(u.retention.value.floors, e.dev))
    // with no lock taken over from a sweeper at work, the manifest in force names a snapshot the hub has
    ensures !u.broken && u.retention.Some? ==> u.retention.value.snapshot in u.snapshots
    // with sighted publishes, in particular when compactors look at their cursors first, that
    // snapshot covers whatever was deleted
    ensures CaughtUpRun(s, steps) ==> SightedRun(s, steps)
    ensures SightedRun(s, steps) && t.retention.Some? && e in t.gone && e.dev !in t.cleaned ==>
              e in Coverage(t.retention.value.snapshot)
  {
    InitIsSafe(s);
    RunStaysSafe(s, steps, t);
    RunStaysSafe(t, later, u);
    CaughtUpRunIsSighted(s, steps, t);
    if NeverRevoked(s, steps, e.dev) {
      NeverRevokedIsNeverReclaimed(s, steps, t, e.dev);
    }
    if SightedRun(s, steps) && t.retention.Some? && e in t.gone && e.dev !in t.cleaned {
      SightedRunStaysCovered(s, steps, t);
      assert HasBelow(Coverage(t.retention.value.snapshot), e.dev, t.retention.value.floors[e.dev]);
    }
  }

  // ---------- where the hypotheses bite ----------

  lemma {:induction false} RunThen(s: Sys, steps: seq<Step>, t: Sys, l: Step)
    requires Run(s, steps, t) && Enabled(t, l)
    ensures Run(s, steps + [l], Next(t, l))
    decreases |steps|
  {
    if steps == [] {
      assert Run(Next(t, l), [], Next(t, l));
      assert [l][1..] == [];
    } else {
      RunThen(Next(s, steps[0]), steps[1..], t, l);
      assert (steps + [l])[1..] == steps[1..] + [l];
    }
  }

  lemma {:induction false} RunJoin(s: Sys, first: seq<Step>, t: Sys, second: seq<Step>, u: Sys)
    requires Run(s, first, t) && Run(t, second, u)
    ensures Run(s, first + second, u)
    decreases |first|
  {
    if first == [] {
      assert first + second == second;
    } else {
      RunJoin(Next(s, first[0]), first[1..], t, second, u);
      assert (first + second)[1..] == first[1..] + second;
    }
  }

  // Reconcile, draft and put the snapshot, once the section is entered from a planned state.
  function PublishedFrom(s: Sys, a: ActorId, base: Floors, floors: Floors, stamp: Stamp): Sys
    requires a in s.actors && s.actors[a].reg.selfKey.Some?
  {
    var m := Drafted(s.actors[a], floors, stamp, 7, s.retention);
    s.(snapshots := s.snapshots + {m.snapshot},
       actors := s.actors[a := s.actors[a].(pc := Published(base, s.retention, false, m))])
  }

  function LockedFrom(s: Sys, a: ActorId, base: Floors, takeOver: bool): Sys
    requires a in s.actors
  {
    s.(lock := Some(a), broken := s.broken || (takeOver && Occupied(s)),
       actors := s.actors[a := s.actors[a].(pc := Locked(base, s.retention, false))])
  }

  // From an idle actor into the section, by the free lock or by taking the lock over.
  lemma ReachLocked(s: Sys, a: ActorId, base: Floors, takeOver: bool) returns (steps: seq<Step>)
    requires a in s.actors && s.actors[a].pc.Idle? && (takeOver || s.lock == None)
    requires base == BaseFloors(s.actors[a].reg.self, s.actors[a].cursors, s.actors[a].pushed)
    requires Reconcile(s.actors[a].reg, base, s.retention).Some?
    ensures Run(s, steps, LockedFrom(s, a, base, takeOver))
  {
    var enter := if takeOver then TakeOver(a) else Lock(a);
    var s1 := Next(s, Plan(a));
    assert Occupied(s1) == Occupied(s) by {
      assert forall b :: b in s.actors ==> InSection(s1.actors[b].pc) == InSection(s.actors[b].pc);
    }
    RunThen(s, [], s, Plan(a));
    RunThen(s, [] + [Plan(a)], s1, enter);
    steps := [] + [Plan(a)] + [enter];
    assert Next(s1, enter) == LockedFrom(s, a, base, takeOver);
  }

  // And on to a published draft.
  lemma ReachPublished(s: Sys, a: ActorId, base: Floors, floors: Floors, stamp: Stamp, takeOver: bool)
    returns (steps: seq<Step>)
    requires a in s.actors && s.actors[a].pc.Idle? && s.actors[a].reg.selfKey.Some?
    requires stamp.producedBy == s.actors[a].reg.self && stamp.epoch > 0 && (takeOver || s.lock == None)
    requires base == BaseFloors(s.actors[a].reg.self, s.actors[a].cursors, s.actors[a].pushed)
    requires Reconcile(s.actors[a].reg, base, s.retention) == Some(floors)
    ensures Run(s, steps, PublishedBy(s, a, base, floors, stamp, takeOver))
  {
    PublishesFromLocked(s, a, base, floors, stamp, takeOver);
    steps := ReachLocked(s, a, base, takeOver);
    RunThen(s, steps, LockedFrom(s, a, base, takeOver), Publish(a, stamp, 7));
    steps := steps + [Publish(a, stamp, 7)];
  }

  lemma PublishesFromLocked(s: Sys, a: ActorId, base: Floors, floors: Floors, stamp: Stamp, takeOver: bool)
    requires a in s.actors && s.actors[a].reg.selfKey.Some?
    requires stamp.producedBy == s.actors[a].reg.self && stamp.epoch > 0
    requires Reconcile(s.actors[a].reg, base, s.retention) == Some(floors)
    ensures var locked := LockedFrom(s, a, base, takeOver);
            && Enabled(locked, Publish(a, stamp, 7))
            && Next(locked, Publish(a, stamp, 7)) == PublishedBy(s, a, base, floors, stamp, takeOver)
  {
  }

  function PublishedBy(s: Sys, a: ActorId, base: Floors, floors: Floors, stamp: Stamp, takeOver: bool): Sys
    requires a in s.actors && s.actors[a].reg.selfKey.Some?
  {
    PublishedFrom(s, a, base, floors, stamp).(lock := Some(a), broken := s.broken || (takeOver && Occupied(s)))
  }

  function ConfirmedFrom(s: Sys, a: ActorId): Sys
    requires a in s.actors && s.actors[a].pc.Published?
  {
    var m := s.actors[a].pc.m;
    s.(retention := Some(m), history := s.history + [m],
       actors := s.actors[a := s.actors[a].(pc := Holding(m, Confirmed))])
  }

  // A draft whose manifest is still in force wins and reads back.
  lemma ReachConfirmed(s: Sys, a: ActorId) returns (steps: seq<Step>)
    requires a in s.actors && s.actors[a].pc.Published? && s.actors[a].pc.read == s.retention
    ensures Run(s, steps, ConfirmedFrom(s, a))
  {
    var s1 := Next(s, Cas(a, true));
    var s2 := Next(s1, ReadBack(a));
    RunThen(s, [], s, Cas(a, true));
    RunThen(s, [] + [Cas(a, true)], s1, ReadBack(a));
    steps := [] + [Cas(a, true)] + [ReadBack(a)];
    assert s2 == ConfirmedFrom(s, a);
  }

  // Without contention a compaction always goes through.
  lemma Uncontended(s: Sys, a: ActorId, base: Floors, floors: Floors, stamp: Stamp, takeOver: bool)
    returns (steps: seq<Step>, t: Sys)
    requires a in s.actors && s.actors[a].pc.Idle? && s.actors[a].reg.selfKey.Some?
    requires stamp.producedBy == s.actors[a].reg.self && stamp.epoch > 0 && (takeOver || s.lock == None)
    requires base == BaseFloors(s.actors[a].reg.self, s.actors[a].cursors, s.actors[a].pushed)
    requires Reconcile(s.actors[a].reg, base, s.retention) == Some(floors)
    ensures Run(s, steps, t)
    ensures t == s.(retention := t.retention, history := t.history, snapshots := t.snapshots, lock := Some(a),
                    broken := s.broken || (takeOver && Occupied(s)), actors := t.actors)
    ensures t.retention == Some(Drafted(s.actors[a], floors, stamp, 7, s.retention))
    ensures t.actors == s.actors[a := s.actors[a].(pc := Holding(t.retention.value, Confirmed))]
  {
    var first := ReachPublished(s, a, base, floors, stamp, takeOver);
    var u := PublishedBy(s, a, base, floors, stamp, takeOver);
    var second := ReachConfirmed(u, a);
    t := ConfirmedFrom(u, a);
    RunJoin(s, first, u, second, t);
    steps := first + second;
  }

  // Two compactors, devices 0 and 1, that trust each other.
  function Peer(self: Device, key: Key, other: Device, otherKey: Key): Actor
  {
    Actor(Registry(0, self, Some(key), map[other := otherKey]), {}, map[], 0, {}, Idle)
  }

  function Start(): Sys
  {
    Sys(map[], {}, None, [], {}, None, false, {}, map[0 := Peer(0, 10, 1, 11), 1 := Peer(1, 11, 0, 10)])
  }

  // Device 2 pushes its first event and device 1 pulls it.
  function Pulled(): Sys
  {
    var x := Peer(1, 11, 0, 10).(cursors := map[2 := 1], has := {Event(2, 1)});
    Start().(len := map[2 := 1], actors := map[0 := Peer(0, 10, 1, 11), 1 := x])
  }

  lemma PeerPulls() returns (steps: seq<Step>)
    ensures Init(Start()) && Run(Start(), steps, Pulled())
  {
    var s := Start();
    assert Enabled(s, PushOther(2));
    var s1 := Next(s, PushOther(2));
    RunThen(s, [], s, PushOther(2));
    assert s1 == s.(len := map[2 := 1]);
    assert Enabled(s1, Pull(1, 2, 1));
    RunThen(s, [] + [PushOther(2)], s1, Pull(1, 2, 1));
    steps := [] + [PushOther(2)] + [Pull(1, 2, 1)];
    assert (set at: nat | 1 <= at <= 1 && Cursor(s1.actors[1], 2) < at :: Event(2, at)) == {Event(2, 1)};
    var y, z := ActorNext(s1, s1.actors[1], Pull(1, 2, 1)), Pulled().actors[1];
    assert y.has == z.has && y.cursors == z.cursors && y == z;
    assert Next(s1, Pull(1, 2, 1)).actors == Pulled().actors;
  }

  // Having published, device 1 deletes the event.
  lemma PeerDeletes(s: Sys) returns (steps: seq<Step>, t: Sys)
    requires 1 in s.actors && s.actors[1].pc.Holding? && s.actors[1].pc.stage == Confirmed
    requires Len(s, 2) == 1 && At(s.actors[1].pc.m.floors, 2) == 2
    ensures Run(s, steps, t) && t == s.(gone := s.gone + {Event(2, 1)}, actors := t.actors) && t.actors == s.actors
  {
    var cold := DeleteCold(1, {Event(2, 1)});
    t := Next(s, cold);
    RunThen(s, [], s, cold);
    steps := [] + [cold];
  }

  lemma PeerReleases(s: Sys) returns (steps: seq<Step>, t: Sys)
    requires 1 in s.actors && s.actors[1].pc.Holding? && s.lock == Some(1)
    ensures Run(s, steps, t)
    ensures t == s.(lock := None, actors := s.actors[1 := s.actors[1].(pc := Idle)])
  {
    t := Next(s, Release(1));
    RunThen(s, [], s, Release(1));
    steps := [] + [Release(1)];
  }

  // Device 1 consumes device 2's first event and publishes.
  lemma PeerPublishes() returns (steps: seq<Step>, t: Sys)
    ensures Init(Start()) && Run(Start(), steps, t)
    ensures t == Pulled().(retention := t.retention, history := t.history, snapshots := t.snapshots, lock := Some(1),
                           actors := t.actors)
    ensures t.retention.Some? && t.retention.value.floors == map[2 := 2]
    ensures t.retention.value.producedBy == 1 && t.retention.value.signedWith == 11
    ensures t.actors == Pulled().actors[1 := Pulled().actors[1].(pc := Holding(t.retention.value, Confirmed))]
  {
    var s := Pulled();
    var x := s.actors[1];
    var base: Floors := map[2 := 2];
    assert BaseFloors(x.reg.self, x.cursors, x.pushed) == base;
    var first := PeerPulls();
    var second;
    second, t := Uncontended(s, 1, base, base, Stamp(1, 1, 0, 5), false);
    RunJoin(Start(), first, s, second, t);
    steps := first + second;
  }

  // And deletes it and finishes.
  lemma PeerCompacts() returns (steps: seq<Step>, t: Sys)
    ensures Init(Start()) && Run(Start(), steps, t)
    ensures t.gone == {Event(2, 1)} && t.cleaned == {} && t.lock == None && !t.broken
    ensures t.retention.Some? && t.retention.value.floors == map[2 := 2]
    ensures t.retention.value.producedBy == 1 && t.retention.value.signedWith == 11
    ensures 0 in t.actors && t.actors[0] == Peer(0, 10, 1, 11)
  {
    var first, u := PeerPublishes();
    var second, v := PeerDeletes(u);
    var third;
    third, t := PeerReleases(v);
    RunJoin(Start(), first, u, second, v);
    RunJoin(Start(), first + second, v, third, t);
    steps := first + second + third;
  }

  // A blind publish loses state: a compactor whose last pull predates a peer's compaction
  // carries the peer's floor forward over events it never consumed, and from then on the
  // manifest in force names a snapshot without an event the hub no longer has.
  lemma BlindCarryLosesAnEvent() returns (steps: seq<Step>, t: Sys)
    ensures Init(Start()) && Run(Start(), steps, t) && !t.broken
    ensures Event(2, 1) in t.gone && 2 !in t.cleaned
    ensures t.retention.Some? && Event(2, 1) !in Coverage(t.retention.value.snapshot)
    ensures !SightedRun(Start(), steps) && !CaughtUpRun(Start(), steps)
  {
    var before, s := PeerCompacts();
    var x := s.actors[0];
    var base: Floors := map[];
    assert BaseFloors(0, x.cursors, 0) == base;
    var floors: Floors := map[2 := 2];
    assert Merge(base, s.retention.value.floors) == floors;
    assert Verified(x.reg, s.retention.value);
    var after;
    after, t := Uncontended(s, 0, base, floors, Stamp(0, 1, 0, 6), false);
    RunJoin(Start(), before, s, after, t);
    steps := before + after;
    assert t.retention.value.floors == floors && 2 in floors;
    assert !HasBelow(Coverage(t.retention.value.snapshot), 2, 2) by {
      assert Event(2, 1) !in Coverage(t.retention.value.snapshot);
    }
    assert !ManifestCovered(t.retention.value);
    InitIsSafe(Start());
    CaughtUpRunIsSighted(Start(), steps, t);
    if SightedRun(Start(), steps) {
      SightedRunStaysCovered(Start(), steps, t);
    }
  }

  // A sweeper that is done deleting prunes a draft it does not reference, and the drafter,
  // who took the lock over, puts that draft in force.
  lemma PruneUnderTakeOver(s: Sys) returns (steps: seq<Step>, t: Sys)
    requires {0, 1} <= s.actors.Keys && s.actors[0].pc.Holding? && s.actors[0].pc.stage == Deleted
    requires s.actors[1].pc.Published? && s.actors[1].pc.read == s.retention
    requires s.actors[1].pc.m.snapshot != s.actors[0].pc.m.snapshot
    ensures Run(s, steps, t) && t.broken == s.broken
    ensures t.retention == Some(s.actors[1].pc.m) && s.actors[1].pc.m.snapshot !in t.snapshots
  {
    var prune := Prune(0, {s.actors[1].pc.m.snapshot});
    var s1 := Next(s, prune);
    RunThen(s, [], s, prune);
    t := Next(s1, Cas(1, true));
    RunThen(s, [] + [prune], s1, Cas(1, true));
    steps := [] + [prune] + [Cas(1, true)];
  }

  // Device 0 publishes an empty compaction and is done deleting.
  lemma FirstSweeper() returns (steps: seq<Step>, t: Sys)
    ensures Init(Start()) && Run(Start(), steps, t)
    ensures 0 in t.actors && t.retention.Some? && t.actors[0].pc == Holding(t.retention.value, Deleted)
    ensures 1 in t.actors && t.actors[1] == Peer(1, 11, 0, 10)
    ensures t.retention.value.floors == map[] && t.retention.value.producedBy == 0 && t.retention.value.signedWith == 10
    ensures t.retention.value.snapshot.Sealed? && t.retention.value.snapshot.envelope.hlc == 5
  {
    var s := Start();
    var none: Floors := map[];
    assert BaseFloors(0, s.actors[0].cursors, 0) == none;
    var first, s1 := Uncontended(s, 0, none, none, Stamp(0, 1, 0, 5), false);
    t := Next(s1, FinishDelete(0));
    RunThen(s, first, s1, FinishDelete(0));
    steps := first + [FinishDelete(0)];
  }

  // With a lock taken over from a live sweeper, pruning can delete the snapshot a peer is
  // about to put in force.
  lemma TakenOverLockLosesTheSnapshot() returns (steps: seq<Step>, t: Sys)
    ensures Init(Start()) && Run(Start(), steps, t) && t.broken
    ensures t.retention.Some? && t.retention.value.snapshot !in t.snapshots
  {
    var first, s := FirstSweeper();
    var none: Floors := map[];
    var x := s.actors[1];
    assert BaseFloors(x.reg.self, x.cursors, x.pushed) == none;
    assert Merge(none, none) == none && Verified(x.reg, s.retention.value);
    var stamp := Stamp(1, 1, 0, 6);
    var second := ReachPublished(s, 1, none, none, stamp, true);
    var s1 := PublishedFrom(s, 1, none, none, stamp).(lock := Some(1), broken := true);
    assert s1.actors[1].pc.m.snapshot.envelope.hlc == 6;
    var third;
    third, t := PruneUnderTakeOver(s1);
    RunJoin(Start(), first, s, second, s1);
    RunJoin(Start(), first + second, s1, third, t);
    steps := first + second + third;
  }

  // ---------- catching up: import, then pull ----------

  // What is left of d's stream can be pulled to its end.
  predicate Pullable(s: Sys, x: Actor, d: Device)
  {
    && !NeedsSnapshot(s, x, d)
    && forall at: nat :: Cursor(x, d) < at <= Len(s, d) ==> Event(d, at) !in s.gone
  }

  predicate OnlyPulls(steps: seq<Step>, a: ActorId)
  {
    forall l :: l in steps ==> l.Pull? && l.a == a
  }

  lemma PullToTheEnd(s: Sys, a: ActorId, d: Device) returns (steps: seq<Step>, y: Actor)
    requires a in s.actors && Honest(s.actors[a]) && Pullable(s, s.actors[a], d)
    ensures Run(s, steps, s.(actors := s.actors[a := y])) && OnlyPulls(steps, a)
    ensures Honest(y) && s.actors[a].has <= y.has && HasBelow(y.has, d, Len(s, d) + 1)
    ensures forall e :: e != d ==> Cursor(y, e) == Cursor(s.actors[a], e)
  {
    var x := s.actors[a];
    if Cursor(x, d) >= Len(s, d) {
      steps, y := [], x;
      assert s.actors[a := x] == s.actors;
      HonestHasBelowCursor(x, d);
    } else {
      var pull := Pull(a, d, Len(s, d));
      y := ActorNext(s, x, pull);
      PullStaysHonest(x, d, Len(s, d));
      steps := [] + [pull];
      RunThen(s, [], s, pull);
      HonestHasBelowCursor(y, d);
    }
  }

  lemma HonestHasBelowCursor(x: Actor, d: Device)
    requires Honest(x)
    ensures HasBelow(x.has, d, Cursor(x, d) + 1)
  {
    if d in x.cursors {
      assert HasBelow(x.has, d, x.cursors[d] + 1);
    }
  }

  lemma OneMorePulled(s: Sys, has: set<Event>, more: set<Event>, todo: set<Device>, d: Device)
    requires has <= more && HasBelow(has, d, Len(s, d) + 1)
    requires forall e :: e in todo - {d} ==> HasBelow(more, e, Len(s, e) + 1)
    ensures forall e :: e in todo ==> HasBelow(more, e, Len(s, e) + 1)
  {
    forall e | e in todo ensures HasBelow(more, e, Len(s, e) + 1) {
      assert e != d ==> e in todo - {d};
    }
  }

  // Pulling d leaves the other devices as they were.
  lemma StillPullable(s: Sys, a: ActorId, y: Actor, todo: set<Device>, d: Device)
    requires a in s.actors && forall e :: e in todo ==> Pullable(s, s.actors[a], e)
    requires forall e :: e != d ==> Cursor(y, e) == Cursor(s.actors[a], e)
    ensures forall e :: e in todo - {d} ==> Pullable(s.(actors := s.actors[a := y]), y, e)
  {
    forall e | e in todo - {d} ensures Pullable(s.(actors := s.actors[a := y]), y, e) {
      assert Pullable(s, s.actors[a], e);
    }
  }

  lemma PullsJoin(s: Sys, a: ActorId, first: seq<Step>, z: Actor, more: seq<Step>, y: Actor)
    requires a in s.actors
    requires var t := s.(actors := s.actors[a := z]);
             Run(s, first, t) && Run(t, more, t.(actors := t.actors[a := y]))
    ensures Run(s, first + more, s.(actors := s.actors[a := y]))
  {
    var t := s.(actors := s.actors[a := z]);
    assert t.actors[a := y] == s.actors[a := y];
    RunJoin(s, first, t, more, s.(actors := s.actors[a := y]));
  }

  lemma {:induction false} PullAll(s: Sys, a: ActorId, todo: set<Device>) returns (steps: seq<Step>, y: Actor)
    requires a in s.actors && Honest(s.actors[a])
    requires forall d :: d in todo ==> Pullable(s, s.actors[a], d)
    ensures Run(s, steps, s.(actors := s.actors[a := y])) && OnlyPulls(steps, a)
    ensures s.actors[a].has <= y.has
    ensures forall d :: d in todo ==> HasBelow(y.has, d, Len(s, d) + 1)
    decreases |todo|
  {
    if todo == {} {
      steps, y := [], s.actors[a];
      assert s.actors[a := y] == s.actors;
    } else {
      var d :| d in todo;
      var first, z := PullToTheEnd(s, a, d);
      var t := s.(actors := s.actors[a := z]);
      StillPullable(s, a, z, todo, d);
      var more;
      more, y := PullAll(t, a, todo - {d});
      steps := first + more;
      PullsJoin(s, a, first, z, more, y);
      OneMorePulled(s, z.has, y.has, todo, d);
    }
  }

  // What an import leaves to be pulled is all there: the hub's gaps lie below the floors.
  lemma ImportReachesFloor(s: Sys, a: ActorId, d: Device)
    requires GoneBelowFloors(s) && Enabled(s, Import(a)) && d !in s.cleaned
    ensures var t := Next(s, Import(a)); Pullable(t, t.actors[a], d)
  {
    var t, floors := Next(s, Import(a)), s.retention.value.floors;
    assert At(floors, d) > 0 ==> d in floors && Cursor(t.actors[a], d) >= floors[d] - 1;
    forall e | e in t.gone && e.dev == d ensures e.at <= Cursor(t.actors[a], d) {
      assert Pushed(s, e) && e.at < At(floors, d);
    }
  }

  lemma PulledIsHeld(s: Sys, has: set<Event>, e: Event)
    requires Pushed(s, e) && HasBelow(has, e.dev, Len(s, e.dev) + 1)
    ensures e in has
  {
    assert e == Event(e.dev, e.at);
  }

  // A device that may import, whatever its cursors, ends up with every pushed event outside the
  // reclaimed streams: one import, then pulls that the retention gate lets through.
  lemma ImportThenPullCatchesUp(s: Sys, a: ActorId) returns (steps: seq<Step>, t: Sys)
    requires Covered(s) && GoneBelowFloors(s) && Enabled(s, Import(a))
    ensures Run(s, [Import(a)] + steps, t) && OnlyPulls(steps, a) && t == s.(actors := t.actors) && a in t.actors
    ensures forall e :: Pushed(s, e) && e.dev !in s.cleaned ==> e in t.actors[a].has
  {
    var s1 := Next(s, Import(a));
    assert ActorCovered(s.actors[a]);
    ImportStaysHonest(s.actors[a], s.retention.value);
    forall d | d in s.len.Keys - s.cleaned ensures Pullable(s1, s1.actors[a], d) {
      ImportReachesFloor(s, a, d);
    }
    var y;
    steps, y := PullAll(s1, a, s.len.Keys - s.cleaned);
    t := s1.(actors := s1.actors[a := y]);
    assert [] + [Import(a)] == [Import(a)];
    RunThen(s, [], s, Import(a));
    RunJoin(s, [Import(a)], s1, steps, t);
    forall e | Pushed(s, e) && e.dev !in s.cleaned ensures e in y.has {
      assert e.dev in s.len.Keys - s.cleaned && Len(s1, e.dev) == Len(s, e.dev);
      PulledIsHeld(s1, y.has, e);
    }
  }
}
