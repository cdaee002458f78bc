/**
 A device revoke owes a rotation of the workspace key. Two durable markers, the owed
 rotation and the pending containment, together never forget it: through crashes between
 any two durable writes, failed marks, corrupt rows, and rotations by peers.
 */
module OwedRotation {
  import opened Common

  type Device = nat

  datatype RotationRow = NoRotation | Garbled | Owed(epoch: nat)

  // The pending containment record: the device and when its revoke was recorded.
  datatype ContainmentRow = NoContainment | Unreadable | Pending(since: map<Device, int>)

  // ---------- the pending containment record ----------

  // Merging never drops a device or resets its time; an unreadable record is started afresh,
  // because bookkeeping must never block a revoke.
  function Marked(row: ContainmentRow, d: Device, now: int): ContainmentRow
  {
    var since := if row.Pending? then row.since else map[];
    Pending(if d in since then since else since[d := now])
  }

  // Clearing removes only the named devices, and the row with the last of them; an
  // unreadable row is never cleared by name.
  function Cleared(row: ContainmentRow, ids: set<Device>): ContainmentRow
  {
    if !row.Pending? then row
    else if row.since.Keys <= ids then NoContainment
    else Pending(row.since - ids)
  }

  predicate PendingFor(row: ContainmentRow, d: Device)
  {
    row.Pending? && d in row.since
  }

  // Everything that happens to the record: marks, clears by name, whole clears and corruption.
  datatype RowOp = Mark(d: Device, now: int) | Clear(ids: set<Device>) | Drop | Garble

  function AfterOp(row: ContainmentRow, op: RowOp): ContainmentRow
  {
    match op
    case Mark(d, now) => Marked(row, d, now)
    case Clear(ids) => Cleared(row, ids)
    case Drop => NoContainment
    case Garble => Unreadable
  }

  function AfterOps(row: ContainmentRow, ops: seq<RowOp>): ContainmentRow
  {
    if ops == [] then row else AfterOp(AfterOps(row, ops[..|ops| - 1]), ops[|ops| - 1])
  }

  predicate Forgets(op: RowOp, d: Device)
  {
    op.Drop? || op.Garble? || (op.Clear? && d in op.ids)
  }

  predicate Unforgotten(ops: seq<RowOp>, d: Device, from: nat)
  {
    forall j :: from <= j < |ops| ==> !Forgets(ops[j], d)
  }

  // Operation i marks d and nothing later forgets it.
  predicate StillMarked(ops: seq<RowOp>, d: Device, i: nat)
  {
    i < |ops| && ops[i].Mark? && ops[i].d == d && Unforgotten(ops, d, i)
  }

  // Over any history of the record, d is pending exactly when it was marked, or pending to begin
  // with, and nothing since then named it, dropped the record or garbled it. Its time is that of
  // the first such mark, however often it was marked again.
  lemma {:induction false} PendingIffStillMarked(row: ContainmentRow, ops: seq<RowOp>, d: Device)
    ensures PendingFor(AfterOps(row, ops), d) <==>
            (PendingFor(row, d) && Unforgotten(ops, d, 0)) || exists i: nat :: StillMarked(ops, d, i)
    ensures PendingFor(row, d) && Unforgotten(ops, d, 0) ==> AfterOps(row, ops).since[d] == row.since[d]
    ensures PendingFor(AfterOps(row, ops), d) && !(PendingFor(row, d) && Unforgotten(ops, d, 0)) ==>
              exists i: nat :: StillMarked(ops, d, i) && AfterOps(row, ops).since[d] == ops[i].now
                               && forall k: nat :: StillMarked(ops, d, k) ==> i <= k
  {
    if ops != [] {
      var n := |ops| - 1;
      var before, last := ops[..n], ops[n];
      PendingIffStillMarked(row, before, d);
      if !Forgets(last, d) {
        assert Unforgotten(ops, d, 0) <==> Unforgotten(before, d, 0);
        forall i: nat | i < n ensures StillMarked(ops, d, i) <==> StillMarked(before, d, i) {
          assert before[i] == ops[i];
        }
        assert StillMarked(ops, d, n) <==> last.Mark? && last.d == d;
      } else {
        assert forall i: nat :: i <= n ==> !Unforgotten(ops, d, i);
      }
    }
  }

  // Nothing later starts the record afresh.
  predicate StillGarbled(ops: seq<RowOp>, from: nat)
  {
    forall j :: from <= j < |ops| ==> !ops[j].Mark? && !ops[j].Drop?
  }

  // A garbled record stays so, whatever is cleared by name, until a mark or a whole clear; and a
  // record that is neither gone nor garbled always names somebody.
  lemma {:induction false} GarbledIffNotRestarted(row: ContainmentRow, ops: seq<RowOp>)
    requires row != Pending(map[])
    ensures AfterOps(row, ops) == Unreadable <==>
            (row == Unreadable && StillGarbled(ops, 0))
            || exists i: nat :: i < |ops| && ops[i].Garble? && StillGarbled(ops, i)
    ensures AfterOps(row, ops) != Pending(map[])
  {
    if ops != [] {
      var n := |ops| - 1;
      var before, last := ops[..n], ops[n];
      GarbledIffNotRestarted(row, before);
      forall i: nat | i <= n
        ensures StillGarbled(ops, i) <==> StillGarbled(before, i) && !last.Mark? && !last.Drop?
      {
        assert forall j :: i <= j < n ==> before[j] == ops[j];
      }
      assert forall i: nat :: i < n ==> before[i] == ops[i];
      assert last.Garble? ==> StillGarbled(ops, n);
      if AfterOps(row, before).Pending? && last.Clear? {
        ClearedNamesSomebody(AfterOps(row, before), last.ids);
      }
    }
  }

  lemma ClearedNamesSomebody(row: ContainmentRow, ids: set<Device>)
    requires row.Pending? && row.since != map[]
    ensures Cleared(row, ids) != Pending(map[])
  {
    if !(row.since.Keys <= ids) {
      var d :| d in row.since && d !in ids;
      assert d in row.since - ids;
    }
  }

  // What a pull applies: a peer's revoke of a device, or a grant of a newer epoch.
  datatype Remote = TrustFlip(d: Device) | Grant(epoch: nat)

  // The newest epoch known after these, and the devices they revoke.
  function AfterGrants(epoch: nat, remote: seq<Remote>): (r: nat)
    ensures r >= epoch && forall e :: e in remote && e.Grant? ==> r >= e.epoch
    ensures r == epoch || Grant(r) in remote
  {
    if remote == [] then epoch
    else
      var before, last := AfterGrants(epoch, remote[..|remote| - 1]), remote[|remote| - 1];
      if last.Grant? && last.epoch > before then last.epoch else before
  }

  function Flipped(remote: seq<Remote>): set<Device>
  {
    set e | e in remote && e.TrustFlip? :: e.d
  }

  lemma FlippedSoFar(remote: seq<Remote>, i: nat)
    requires i < |remote|
    ensures Flipped(remote[..i]) + Flipped([remote[i]]) <= Flipped(remote)
    ensures Flipped([remote[i]]) == if remote[i].TrustFlip? then {remote[i].d} else {}
  {
    assert remote[i] in remote && forall e :: e in remote[..i] ==> e in remote;
  }

  // One of these revokes a device for the first time, while there is a key it may have read.
  predicate ArmedAt(epoch: nat, revoked: set<Device>, remote: seq<Remote>, i: nat)
  {
    && i < |remote| && remote[i].TrustFlip? && AfterGrants(epoch, remote[..i]) > 0
    && remote[i].d !in revoked && remote[i].d !in Flipped(remote[..i])
  }

  ghost predicate Arms(epoch: nat, revoked: set<Device>, remote: seq<Remote>)
  {
    exists i: nat :: ArmedAt(epoch, revoked, remote, i)
  }

  lemma ArmsOneMore(epoch: nat, revoked: set<Device>, remote: seq<Remote>, e: Remote)
    ensures Flipped(remote + [e]) == Flipped(remote) + if e.TrustFlip? then {e.d} else {}
    ensures AfterGrants(epoch, remote + [e]) ==
            if e.Grant? && e.epoch > AfterGrants(epoch, remote) then e.epoch else AfterGrants(epoch, remote)
    ensures Arms(epoch, revoked, remote + [e]) <==>
            || Arms(epoch, revoked, remote)
            || (e.TrustFlip? && AfterGrants(epoch, remote) > 0 && e.d !in revoked + Flipped(remote))
  {
    var more := remote + [e];
    assert more[..|remote|] == remote;
    forall i: nat | i < |remote| ensures ArmedAt(epoch, revoked, more, i) <==> ArmedAt(epoch, revoked, remote, i) {
      assert more[..i] == remote[..i];
    }
    assert ArmedAt(epoch, revoked, more, |remote|) <==>
           e.TrustFlip? && AfterGrants(epoch, remote) > 0 && e.d !in revoked + Flipped(remote);
  }

  lemma NewFlipsArm(epoch: nat, revoked: set<Device>, remote: seq<Remote>)
    ensures epoch > 0 && !(Flipped(remote) <= revoked) ==> Arms(epoch, revoked, remote)
  {
    if epoch > 0 && !(Flipped(remote) <= revoked) {
      var d :| d in Flipped(remote) && d !in revoked;
      NewFlipArms(epoch, revoked, remote, d);
    }
  }

  datatype Trust = Trust(epoch: nat, approved: set<Device>, revoked: set<Device>, rotation: RotationRow)

  // Everything pulled took effect.
  ghost predicate Applied(before: Trust, remote: seq<Remote>, after: Trust)
  {
    && after.revoked == before.revoked + Flipped(remote) && after.approved == before.approved - Flipped(remote)
    && after.epoch == AfterGrants(before.epoch, remote)
    && (before.rotation != NoRotation ==> after.rotation == before.rotation)
    && (after.rotation != NoRotation <==>
          before.rotation != NoRotation || Arms(before.epoch, before.revoked, remote))
  }

  lemma AppliedOneMore(before: Trust, remote: seq<Remote>, known: Trust, e: Remote, after: Trust)
    requires Applied(before, remote, known)
    requires after.revoked == known.revoked + Flipped([e]) && after.approved == known.approved - Flipped([e])
    requires after.epoch == if e.Grant? && e.epoch > known.epoch then e.epoch else known.epoch
    requires after.rotation ==
             if known.rotation == NoRotation && after.epoch > 0 && after.revoked != known.revoked
             then Owed(after.epoch) else known.rotation
    ensures Applied(before, remote + [e], after)
  {
    ArmsOneMore(before.epoch, before.revoked, remote, e);
    FlippedSoFar([e], 0);
  }

  // A revoke of a device not yet revoked always arms a store that has a key.
  lemma NewFlipArms(epoch: nat, revoked: set<Device>, remote: seq<Remote>, d: Device)
    requires epoch > 0 && d in Flipped(remote) && d !in revoked
    ensures Arms(epoch, revoked, remote)
  {
    if remote != [] {
      var n := |remote| - 1;
      assert remote == remote[..n] + [remote[n]];
      ArmsOneMore(epoch, revoked, remote[..n], remote[n]);
      if d in Flipped(remote[..n]) {
        NewFlipArms(epoch, revoked, remote[..n], d);
      }
    }
  }

  datatype Command =
    | Revoke(d: Device, now: int)
    | SyncCycle(remote: seq<Remote>, aged: bool)
    | KeysRotate
    | Approve(d: Device)
    | CorruptRotation
    | CorruptContainment

  class DeviceStore {
    const fate: nat -> Fate
    // What reading the active epoch at revoke time reports.
    const readable: nat -> bool
    var tick: nat
    var epoch: nat
    var approved: set<Device>
    var revoked: set<Device>
    var rotation: RotationRow
    var containment: ContainmentRow
    // Recipients of the grants of this device's own last completed rotation.
    var granted: set<Device>

    // Locally revoked devices that were excluded by an own rotation after their revoke, and
    // those for whom no key epoch existed when their rotation came up.
    ghost var excluded: set<Device>
    ghost var exempt: set<Device>
    // Whether the containment row was ever garbled.
    ghost var garbled: bool
    // The process died at its last step; it takes no other until it is started again.
    ghost var dead: bool

    constructor (fate: nat -> Fate, readable: nat -> bool, approved: set<Device>)
      ensures this.fate == fate && this.readable == readable && this.approved == approved
      ensures Remembered() && revoked == {} && rotation == NoRotation && containment == NoContainment && epoch == 0
      ensures !dead && !garbled
    {
      this.fate, this.readable, this.approved := fate, readable, approved;
      tick, epoch, revoked, rotation, containment, granted := 0, 0, {}, NoRotation, NoContainment, {};
      excluded, exempt, garbled, dead := {}, {}, false, false;
    }

    // Nothing more is owed for d.
    ghost predicate Settled(d: Device)
      reads this`excluded, this`exempt
    {
      d in excluded || d in exempt
    }

    // The promise, at every command boundary and crash point: each locally revoked device is
    // settled or a marker is present; and unless the record was garbled, it names the device.
    ghost predicate Remembered()
      reads this`revoked, this`excluded, this`exempt, this`rotation, this`containment, this`garbled, this`approved
    {
      && approved !! revoked
      && (containment == Unreadable ==> garbled)
      && forall d :: d in revoked && !Settled(d) ==>
           || rotation != NoRotation
           || (containment != NoContainment && (garbled || PendingFor(containment, d)))
    }

    // Nothing is owed beyond the rotation marker, so the containment row may go.
    ghost predicate Accounted()
      reads this`revoked, this`excluded, this`exempt, this`rotation
    {
      forall d :: d in revoked ==> Settled(d) || rotation != NoRotation
    }

    ghost predicate Undisturbed()
    {
      forall t :: fate(t) == Fine && readable(t)
    }

    method Step() returns (f: Fate)
      requires !dead
      modifies this`tick, this`dead
      ensures f == fate(old(tick)) && tick == old(tick) + 1 && dead == (f.Report() == Crashed)
    {
      f := fate(tick);
      tick := tick + 1;
      dead := f.Report() == Crashed;
    }

    // ---------- the key ----------

    // Rotate: wrap for every approved recipient, record the new epoch, then one transaction
    // per grant. A failure after the epoch was recorded leaves a half-minted epoch behind.
    method Rotate() returns (r: Report)
      requires approved !! revoked
      requires !dead
      modifies this`tick, this`dead, this`epoch, this`granted, this`excluded
      ensures r == Done ==> epoch == old(epoch) + 1 && granted == approved && granted !! revoked
      ensures r == Done ==> excluded == old(excluded) + revoked
      ensures r != Done ==> excluded == old(excluded) && old(epoch) <= epoch <= old(epoch) + 1
      ensures Undisturbed() ==> r == Done
      // No step of a completed rotation failed, and a mint whose wrapping failed recorded nothing.
      ensures tick > old(tick) && (r == Done ==> forall t :: old(tick) <= t < tick ==> fate(t) == Fine)
      ensures r != Done ==> fate(tick - 1) != Fine
      ensures fate(old(tick)) != Fine ==> epoch == old(epoch)
      ensures fate(old(tick)) == Fine ==> epoch == old(epoch) + if fate(old(tick) + 1).Lands() then 1 else 0
      ensures dead == (r == Crashed)
    {
      var f := Step();
      if f != Fine {
        return if f.Report() == Crashed then Crashed else Failed;
      }
      f := Step();
      if f.Lands() {
        epoch := epoch + 1;
      }
      if f != Fine {
        return f.Report();
      }
      r := SendGrants();
      if r == Done {
        excluded := excluded + revoked;
      }
    }

    // One grant transaction per approved recipient.
    method SendGrants() returns (r: Report)
      requires !dead
      modifies this`tick, this`dead, this`granted
      ensures r == Done ==> granted == approved
      ensures Undisturbed() ==> r == Done
      ensures tick >= old(tick) && (r == Done ==> forall t :: old(tick) <= t < tick ==> fate(t) == Fine)
      ensures r != Done ==> tick > old(tick) && fate(tick - 1) != Fine
      ensures dead == (r == Crashed)
    {
      granted := {};
      var todo := approved;
      while todo != {}
        invariant todo <= approved && granted == approved - todo
        invariant !dead && tick >= old(tick) && forall t :: old(tick) <= t < tick ==> fate(t) == Fine
        decreases todo
      {
        var d :| d in todo;
        var f := Step();
        if f != Fine {
          return f.Report();
        }
        todo := todo - {d};
        granted := granted + {d};
      }
      r := Done;
    }

    method MarkRotation(at: nat) returns (r: Report)
      requires !dead
      modifies this`tick, this`dead, this`rotation
      ensures rotation == if fate(old(tick)).Lands() then Owed(at) else old(rotation)
      ensures tick == old(tick) + 1 && r == fate(old(tick)).Report()
      ensures dead == (r == Crashed)
    {
      var f := Step();
      if f.Lands() { rotation := Owed(at); }
      r := f.Report();
    }

    method ClearRotation() returns (r: Report)
      requires !dead
      modifies this`tick, this`dead, this`rotation
      ensures rotation == if fate(old(tick)).Lands() then NoRotation else old(rotation)
      ensures Undisturbed() ==> r == Done
      ensures tick == old(tick) + 1 && r == fate(old(tick)).Report()
      ensures dead == (r == Crashed)
    {
      var f := Step();
      if f.Lands() { rotation := NoRotation; }
      r := f.Report();
    }

    method ClearContainment(ids: set<Device>) returns (r: Report)
      requires !dead
      modifies this`tick, this`dead, this`containment
      ensures containment == if fate(old(tick)).Lands() then Cleared(old(containment), ids) else old(containment)
      ensures Undisturbed() ==> r == Done
      ensures tick == old(tick) + 1 && r == fate(old(tick)).Report()
      ensures dead == (r == Crashed)
    {
      var f := Step();
      if f.Lands() { containment := Cleared(containment, ids); }
      r := f.Report();
    }

    // rotateWorkspaceKeyOnRevoke: true only once the rotation is done, durably owed, or moot.
    method RotateOnRevoke() returns (accounted: bool, crashed: bool)
      requires Remembered()
      requires !dead
      modifies this`tick, this`dead, this`epoch, this`granted, this`excluded, this`exempt, this`rotation
      ensures Remembered() && (accounted ==> Accounted())
      ensures crashed ==> !accounted
      ensures old(excluded) <= excluded && old(exempt) <= exempt && epoch >= old(epoch)
      ensures Undisturbed() ==> accounted && rotation == (if old(epoch) > 0 then NoRotation else old(rotation))
      ensures Undisturbed() && old(epoch) > 0 ==> revoked <= excluded && epoch == old(epoch) + 1 && granted == approved
      ensures dead == crashed
      // Without a readable epoch nothing is done; else it is unaccounted for only if a step failed.
      ensures !readable(old(tick)) ==> !accounted && tick == old(tick) && rotation == old(rotation)
      ensures readable(old(tick)) && !accounted ==> tick > old(tick) && fate(tick - 1) != Fine
      // Devices are excluded only by a completed rotation, and let off only where there is no key.
      ensures excluded != old(excluded) ==> epoch == old(epoch) + 1 && granted == approved
      ensures old(epoch) > 0 ==> exempt == old(exempt)
    {
      accounted, crashed := false, false;
      if !readable(tick) {
        return;
      }
      if epoch == 0 {
        exempt := exempt + revoked;
        accounted := true;
        return;
      }
      var at := epoch;
      var rotated := Rotate();
      if rotated == Crashed {
        crashed := true;
        return;
      }
      if rotated == Failed {
        var marked := MarkRotation(at);
        accounted, crashed := marked == Done, marked == Crashed;
        return;
      }
      // A failed clear is only a warning.
      var cleared := ClearRotation();
      accounted, crashed := cleared != Crashed, cleared == Crashed;
    }

    // The revoke command: the trust flip and the containment mark in one transaction, then the
    // rotation, then flags, rewraps and the ack, and only then the containment is cleared.
    method RevokeDevice(d: Device, now: int) returns (r: Report)
      requires Remembered()
      requires !dead
      modifies this`tick, this`dead, this`epoch, this`granted, this`excluded, this`exempt, this`rotation,
               this`containment, this`revoked, this`approved
      ensures Remembered()
      // Whatever the markers held and whatever fails later, the first write decides the trust.
      ensures revoked == if fate(old(tick)).Lands() then old(revoked) + {d} else old(revoked)
      ensures approved == if fate(old(tick)).Lands() then old(approved) - {d} else old(approved)
      // The device is pending from that write on, and stays so until its rotation is accounted for;
      // no other device's entry changes.
      ensures !fate(old(tick)).Lands() ==> containment == old(containment)
      ensures fate(old(tick)).Lands() ==>
                || containment == Marked(old(containment), d, now)
                || (Accounted() && containment == Cleared(Marked(old(containment), d, now), {d}))
      ensures Undisturbed() ==> r == Done && !PendingFor(containment, d)
      ensures Undisturbed() && old(epoch) > 0 ==>
                rotation == NoRotation && revoked <= excluded && epoch == old(epoch) + 1 && granted == approved
      ensures dead == (r == Crashed)
      ensures old(epoch) > 0 ==> exempt <= old(exempt)
    {
      var f := FlipAndMark(d, now);
      if f != Fine {
        return f.Report();
      }
      var accounted, crashed := RotateOnRevoke();
      if crashed {
        return Crashed;
      }
      r := FlagAndRewrap(d, accounted);
    }

    // The trust flip and the containment mark, in one transaction.
    method FlipAndMark(d: Device, now: int) returns (f: Fate)
      requires Remembered()
      requires !dead
      modifies this`tick, this`dead, this`excluded, this`exempt, this`containment, this`revoked, this`approved
      ensures Remembered() && f == fate(old(tick))
      ensures revoked == if f.Lands() then old(revoked) + {d} else old(revoked)
      ensures approved == if f.Lands() then old(approved) - {d} else old(approved)
      ensures containment == if f.Lands() then Marked(old(containment), d, now) else old(containment)
      ensures PendingFor(Marked(old(containment), d, now), d)
      ensures tick == old(tick) + 1 && (f.Lands() ==> !Settled(d))
      ensures excluded <= old(excluded) && exempt <= old(exempt)
      ensures dead == (f.Report() == Crashed)
    {
      f := Step();
      if f.Lands() {
        revoked, approved := revoked + {d}, approved - {d};
        excluded, exempt := excluded - {d}, exempt - {d};
        containment := Marked(containment, d, now);
      }
    }

    // Flagging the secret bindings is fatal when it fails, rewrapping the blobs and the ack are
    // not; a rewrap that failed keeps the device pending.
    method FlagAndRewrap(d: Device, accounted: bool) returns (r: Report)
      requires Remembered() && (accounted ==> Accounted())
      requires !dead
      modifies this`tick, this`dead, this`containment
      ensures Remembered()
      // It is cleared only once both are done and the ack was at least tried, and a failed flag stops it.
      ensures containment ==
              if accounted && fate(old(tick)) == Fine && fate(old(tick) + 1) == Fine
                 && fate(old(tick) + 2).Report() != Crashed && fate(old(tick) + 3).Lands()
              then Cleared(old(containment), {d}) else old(containment)
      ensures fate(old(tick)) != Fine ==> r == fate(old(tick)).Report() && tick == old(tick) + 1
      ensures Undisturbed() ==> r == Done
      ensures dead == (r == Crashed)
    {
      var f := Step();
      if f != Fine {
        return f.Report();
      }
      f := Step();
      if f.Report() == Crashed {
        return Crashed;
      }
      var rewrapped := f == Fine;
      f := Step();
      if f.Report() == Crashed {
        return Crashed;
      }
      r := Done;
      if accounted && rewrapped {
        r := ClearContainment({d});
      }
    }

    // ---------- the sync cycle ----------

    // A peer's revoke arms the rotation marker with the flip, unless this device has no key; a
    // marker already there is left alone.
    method ApplyRemote(e: Remote) returns (r: Report)
      requires Remembered()
      requires !dead
      modifies this`tick, this`dead, this`epoch, this`rotation, this`excluded, this`exempt, this`revoked, this`approved
      ensures Remembered() && (r == Done ==> fate(old(tick)).Lands())
      // It takes effect whole or not at all.
      ensures revoked == old(revoked) + if fate(old(tick)).Lands() then Flipped([e]) else {}
      ensures approved == old(approved) - if fate(old(tick)).Lands() then Flipped([e]) else {}
      ensures epoch == if fate(old(tick)).Lands() && e.Grant? && e.epoch > old(epoch) then e.epoch else old(epoch)
      // A first revoke owes a rotation, and only that does; without a key there is nothing to protect.
      ensures rotation ==
              if old(rotation) == NoRotation && epoch > 0 && revoked != old(revoked) then Owed(epoch) else old(rotation)
      ensures forall d :: d in revoked - old(revoked) ==> (Settled(d) <==> epoch == 0)
      ensures forall d :: d in old(revoked) && old(Settled(d)) ==> Settled(d)
      ensures Undisturbed() ==> r == Done
      ensures tick == old(tick) + 1 && r == fate(old(tick)).Report()
      ensures dead == (r == Crashed)
      ensures old(epoch) > 0 ==> exempt <= old(exempt)
      ensures excluded <= old(excluded)
    {
      var f := Step();
      if f.Lands() {
        assert Flipped([e]) == if e.TrustFlip? then {e.d} else {};
        match e
        case TrustFlip(d) =>
          if d !in revoked {
            revoked, approved := revoked + {d}, approved - {d};
            excluded, exempt := excluded - {d}, exempt - {d};
            if epoch == 0 {
              exempt := exempt + {d};
            } else if rotation == NoRotation {
              rotation := Owed(epoch);
            }
          }
        case Grant(at) =>
          if at > epoch { epoch := at; }
      }
      r := f.Report();
    }

    // maybeRotateWorkspaceKey: either marker forces a rotation, age asks for one.
    method MaybeRotate(aged: bool) returns (r: Report, rotated: bool)
      requires Remembered()
      requires !dead
      modifies this`tick, this`dead, this`epoch, this`granted, this`excluded, this`rotation
      ensures Remembered() && old(excluded) <= excluded && epoch >= old(epoch)
      ensures rotated ==> revoked <= excluded && granted == approved && epoch == old(epoch) + 1
      ensures r == Done && rotated ==> Accounted() && rotation == NoRotation
      // A cycle goes on without a rotation only when none is asked for, or when it failed before
      // anything was recorded and the marker is there to try again.
      ensures r == Done && !rotated ==>
                && epoch == old(epoch)
                && (epoch > 0 && (aged || old(rotation) != NoRotation || containment != NoContainment) ==>
                      rotation != NoRotation)
      ensures !rotated ==> rotation == old(rotation) || (old(rotation) == NoRotation && rotation == Owed(old(epoch)))
      ensures old(rotation) == NoRotation && containment == NoContainment ==> rotation == NoRotation
      // A rotation that is owed and failed early does not stop the cycle.
      ensures old(rotation) != NoRotation && !rotated && !dead && epoch == old(epoch) ==> r == Done
      ensures Undisturbed() ==> r == Done && (rotated <==>
                old(epoch) > 0 && (aged || old(rotation) != NoRotation || containment != NoContainment))
      ensures Undisturbed() ==> epoch == if rotated then old(epoch) + 1 else old(epoch)
      ensures dead == (r == Crashed)
      ensures !rotated ==> excluded == old(excluded)
    {
      rotated := false;
      var pending := rotation != NoRotation;
      var contained := containment != NoContainment;
      if epoch == 0 {
        return Done, false;
      }
      if !pending && !contained && !aged {
        return Done, false;
      }
      var at := epoch;
      var minted := Rotate();
      if minted == Crashed {
        return Crashed, false;
      }
      if minted == Failed {
        if epoch != at {
          return Failed, false;
        }
        if pending || contained {
          if !pending {
            r := MarkRotation(at);
            return r, false;
          }
          return Done, false;
        }
        return Failed, false;
      }
      rotated := true;
      r := Done;
      if pending {
        r := ClearRotation();
      }
    }

    // The rotation gate of a cycle, and whether every rotation owed is then accounted for: done,
    // durably owed, or moot for lack of a key.
    method RotateAndAccount(aged: bool) returns (r: Report, accounted: bool)
      requires Remembered() && !dead
      modifies this`tick, this`dead, this`epoch, this`granted, this`excluded, this`exempt, this`rotation
      ensures Remembered() && epoch >= old(epoch) && dead == (r == Crashed)
      ensures accounted ==> Accounted()
      ensures old(excluded) <= excluded && (excluded != old(excluded) ==> granted == approved && epoch > old(epoch))
      ensures old(epoch) > 0 ==> exempt == old(exempt)
      ensures Undisturbed() ==>
                var rotates := old(epoch) > 0 && (aged || old(rotation) != NoRotation || containment != NoContainment);
                && r == Done && (containment != NoContainment ==> accounted)
                && epoch == old(epoch) + (if rotates then 1 else 0)
                && (rotates ==> rotation == NoRotation && revoked <= excluded && granted == approved)
    {
      var rotated;
      r, rotated := MaybeRotate(aged);
      if r != Done {
        return r, false;
      }
      accounted := rotated || rotation != NoRotation;
      if !accounted && epoch == 0 {
        exempt := exempt + revoked;
        accounted := true;
      }
    }

    // resumeRevokeContainment: nothing until the rotation is accounted for; then flags and
    // rewraps; and only then the row is cleared, by name or, when unreadable, whole.
    method ResumeContainment(accounted: bool) returns (r: Report)
      requires Remembered() && (accounted ==> Accounted())
      requires !dead
      modifies this`tick, this`dead, this`containment
      ensures Remembered() && (!accounted ==> containment == old(containment))
      ensures Undisturbed() ==> r == Done && (accounted ==> containment == NoContainment)
      ensures dead == (r == Crashed)
      // The row goes whole, and only after flags and rewraps went through and each ack was tried.
      ensures containment != old(containment) ==>
                && containment == NoContainment && accounted && fate(old(tick)) == fate(old(tick) + 1) == Fine
                && tick == old(tick) + 3 + if old(containment).Pending? then |old(containment).since| else 0
    {
      if containment == NoContainment || !accounted {
        return Done;
      }
      var f := Step();
      if f != Fine {
        return if f.Report() == Crashed then Crashed else Done;
      }
      f := Step();
      if f != Fine {
        return if f.Report() == Crashed then Crashed else Done;
      }
      if containment == Unreadable {
        f := Step();
        if f.Lands() { containment := NoContainment; }
        return f.Report();
      }
      var ids := containment.since.Keys;
      var todo := ids;
      while todo != {}
        invariant containment == old(containment) && !dead && todo <= ids
        invariant tick == old(tick) + 2 + |ids| - |todo|
        decreases |todo|
      {
        var d :| d in todo;
        f := Step();
        if f.Report() == Crashed {
          return Crashed;
        }
        todo := todo - {d};
      }
      r := ClearContainment(ids);
    }

    // What the store knows of keys and devices.
    function Known(): Trust
      reads this`epoch, this`approved, this`revoked, this`rotation
    {
      Trust(epoch, approved, revoked, rotation)
    }

    // What the cycle pulled, applied in order.
    method ApplyAll(remote: seq<Remote>) returns (r: Report)
      requires Remembered()
      requires !dead
      modifies this`tick, this`dead, this`epoch, this`rotation, this`excluded, this`exempt, this`revoked, this`approved
      ensures Remembered() && old(revoked) <= revoked <= old(revoked) + Flipped(remote) && epoch >= old(epoch)
      ensures old(rotation) != NoRotation ==> rotation == old(rotation)
      ensures r == Done ==> Applied(old(Known()), remote, Known())
      ensures Undisturbed() ==> r == Done
      ensures dead == (r == Crashed)
      ensures old(epoch) > 0 ==> exempt <= old(exempt)
      ensures excluded <= old(excluded)
    {
      for i := 0 to |remote|
        invariant Remembered() && Applied(old(Known()), remote[..i], Known()) && !dead
        invariant excluded <= old(excluded) && (old(epoch) > 0 ==> exempt <= old(exempt))
      {
        assert remote[..i + 1] == remote[..i] + [remote[i]];
        FlippedSoFar(remote, i);
        ghost var before := Known();
        r := ApplyRemote(remote[i]);
        if r != Done {
          return;
        }
        AppliedOneMore(old(Known()), remote[..i], before, remote[i], Known());
      }
      assert remote[..|remote|] == remote;
      r := Done;
    }

    // Whether this cycle owes or wants a rotation.
    ghost predicate Owes(rotation0: RotationRow, containment0: ContainmentRow, epoch0: nat, revoked0: set<Device>,
                   remote: seq<Remote>)
    {
      rotation0 != NoRotation || containment0 != NoContainment || Arms(epoch0, revoked0, remote)
    }

    method SyncCycle(remote: seq<Remote>, aged: bool) returns (r: Report)
      requires Remembered()
      requires !dead
      modifies this`tick, this`dead, this`epoch, this`granted, this`excluded, this`exempt, this`rotation,
               this`containment, this`revoked, this`approved
      ensures Remembered() && old(revoked) <= revoked <= old(revoked) + Flipped(remote) && epoch >= old(epoch)
      // Undisturbed, everything pulled takes effect ...
      ensures Undisturbed() ==>
                && r == Done && containment == NoContainment
                && revoked == old(revoked) + Flipped(remote) && approved == old(approved) - Flipped(remote)
      // ... and either marker, or a revoke that was pulled, leads to one own rotation that settles
      // every revoke so far; with none of them, and a young key, nothing rotates.
      ensures Undisturbed() ==>
                var known := AfterGrants(old(epoch), remote);
                var rotates := known > 0
                               && (aged || Owes(old(rotation), old(containment), old(epoch), old(revoked), remote));
                && epoch == known + (if rotates then 1 else 0)
                && (rotates ==> rotation == NoRotation && revoked <= excluded && granted == approved)
      ensures Undisturbed() && old(epoch) > 0 && !(Flipped(remote) <= old(revoked)) ==>
                rotation == NoRotation && Flipped(remote) <= excluded && granted !! Flipped(remote)
      ensures dead == (r == Crashed)
      ensures old(epoch) > 0 ==> exempt <= old(exempt)
      ensures !(excluded <= old(excluded)) ==> granted == approved && epoch > old(epoch)
    {
      r := ApplyAll(remote);
      NewFlipsArm(old(epoch), old(revoked), remote);
      if r != Done {
        return;
      }
      var accounted;
      r, accounted := RotateAndAccount(aged);
      if r != Done {
        return;
      }
      r := ResumeContainment(accounted);
    }

    // ---------- other commands ----------

    method KeysRotate() returns (r: Report)
      requires Remembered()
      requires !dead
      modifies this`tick, this`dead, this`epoch, this`granted, this`excluded, this`rotation
      ensures Remembered()
      ensures r == Done ==> old(epoch) > 0 && epoch == old(epoch) + 1 && revoked <= excluded && granted == approved
      ensures old(epoch) == 0 ==> r == Failed && epoch == 0 && rotation == old(rotation)
      ensures rotation == old(rotation) || rotation == NoRotation
      ensures Undisturbed() && old(epoch) > 0 ==> r == Done && rotation == NoRotation
      ensures dead == (r == Crashed)
      ensures excluded != old(excluded) ==> granted == approved && epoch == old(epoch) + 1
    {
      if epoch == 0 {
        return Failed;
      }
      r := Rotate();
      if r != Done {
        return;
      }
      var cleared := ClearRotation();
      r := if cleared == Crashed then Crashed else Done;
    }

    method Run(cmds: seq<Command>)
      requires Remembered()
      modifies this
      ensures Remembered()
    {
      for i := 0 to |cmds|
        invariant Remembered()
      {
        // A process that died is started again.
        dead := false;
        var r: Report;
        match cmds[i]
        case Revoke(d, now) => r := RevokeDevice(d, now);
        case SyncCycle(remote, aged) => r := SyncCycle(remote, aged);
        case KeysRotate => r := KeysRotate();
        case Approve(d) =>
          revoked, approved := revoked - {d}, approved + {d};
        case CorruptRotation =>
          if rotation != NoRotation { rotation := Garbled; }
        case CorruptContainment =>
          if containment != NoContainment { containment, garbled := Unreadable, true; }
      }
    }
  }
}
