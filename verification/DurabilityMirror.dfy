/**
 Mirroring the primary hub's retention head onto a durability replica. Any number of
 exporters race: each reads the head, decides, and compare-and-swaps, and other
 exporters' swaps may land before every one of this exporter's hub operations.
 */
module DurabilityMirror {
  import opened Common
  import opened CompactFloors

  // Parsing refuses garbled bytes and negative floors.
  predicate Parses(r: Raw)
  {
    r.Doc? && forall d :: d in r.m.floors ==> r.m.floors[d] >= 0
  }

  // a has published at least the recovery state of b.
  predicate Dominates(a: Manifest, b: Manifest)
  {
    a.producedAt >= b.producedAt && forall d :: d in b.floors ==> At(a.floors, d) >= b.floors[d]
  }

  datatype Verdict = AlreadyAdvanced | Replace | Incomparable | OtherWorkspace | Unreadable

  function Classify(current: Raw, next: Raw): Verdict
  {
    if !Parses(current) || !Parses(next) then Verdict.Unreadable
    else if current.m.workspace != next.m.workspace then OtherWorkspace
    else if Dominates(current.m, next.m) then AlreadyAdvanced
    else if Dominates(next.m, current.m) then Replace
    else Incomparable
  }

  // ---------- dominance ----------

  // Dominance is a preorder on the floors the parser admits, and equivalent heads have
  // published the same recovery state.
  lemma DominanceIsPreorder(a: Manifest, b: Manifest, c: Manifest)
    requires Parses(Doc(a)) && Parses(Doc(b))
    ensures Dominates(a, a)
    ensures Dominates(a, b) && Dominates(b, c) ==> Dominates(a, c)
    ensures Dominates(a, b) && Dominates(b, a) <==>
            a.producedAt == b.producedAt && forall d :: At(a.floors, d) == At(b.floors, d)
  {
    if Dominates(a, b) && Dominates(b, c) {
      forall d | d in c.floors ensures At(a.floors, d) >= c.floors[d] {
        assert At(b.floors, d) >= c.floors[d];
        if d in b.floors { assert At(a.floors, d) >= b.floors[d]; }
      }
    }
    if Dominates(a, b) && Dominates(b, a) {
      forall d ensures At(a.floors, d) == At(b.floors, d) {
        if d in a.floors { assert At(b.floors, d) >= a.floors[d]; }
        if d in b.floors { assert At(a.floors, d) >= b.floors[d]; }
      }
    }
  }

  lemma DominatesTransitive(a: Manifest, b: Manifest, c: Manifest)
    requires Parses(Doc(a)) && Dominates(a, b) && Dominates(b, c)
    ensures Dominates(a, c)
  {
    forall d | d in c.floors ensures At(a.floors, d) >= c.floors[d] {
      assert At(b.floors, d) >= c.floors[d];
      if d in b.floors { assert At(a.floors, d) >= b.floors[d]; }
    }
  }

  // Without the sign check in the parser, dominance would not compose.
  lemma NegativeFloorsBreakDominance(snap: SnapshotObject) returns (a: Manifest, b: Manifest, c: Manifest)
    ensures Dominates(a, b) && Dominates(b, c) && !Dominates(a, c)
  {
    var stamp := Stamp(0, 1, 0, 0);
    a := Manifest(0, map[7 := -1], stamp, snap, 0, 0, 0, None);
    b := Manifest(0, map[], stamp, snap, 0, 0, 0, None);
    c := Manifest(0, map[7 := 0], stamp, snap, 0, 0, 0, None);
    assert At(a.floors, 7) == -1;
  }

  predicate StrictlyAdvances(to: Raw, from: Raw)
  {
    && Parses(to) && Parses(from) && to.m.workspace == from.m.workspace
    && Dominates(to.m, from.m) && !Dominates(from.m, to.m)
  }

  // No head, or one of no bytes: neither holds anything to compare with.
  predicate Vacant(head: Option<Raw>)
  {
    head == None || head.value.Blank?
  }

  // later can be the head some time after earlier was.
  predicate Follows(later: Option<Raw>, earlier: Option<Raw>)
  {
    || later == earlier
    || (later.Some? && Parses(later.value) && (Vacant(earlier) || StrictlyAdvances(later.value, earlier.value)))
  }

  // The head never regresses, however many swaps lie in between.
  lemma FollowsTransitive(c: Option<Raw>, b: Option<Raw>, a: Option<Raw>)
    requires Follows(c, b) && Follows(b, a)
    ensures Follows(c, a)
  {
    if !Vacant(a) && c != b && b != a {
      DominatesTransitive(c.value.m, b.value.m, a.value.m);
      if Dominates(a.value.m, c.value.m) {
        DominatesTransitive(a.value.m, c.value.m, b.value.m);
      }
    }
  }

  // Mirrored: the head makes up for everything `next` promised.
  predicate Mirrored(head: Option<Raw>, next: Raw)
  {
    && head.Some? && Parses(head.value) && Parses(next)
    && head.value.m.workspace == next.m.workspace && Dominates(head.value.m, next.m)
  }

  // A success stays a success, whatever the other exporters do afterwards.
  lemma MirroredFromThenOn(later: Option<Raw>, earlier: Option<Raw>, next: Raw)
    requires Mirrored(earlier, next) && Follows(later, earlier)
    ensures Mirrored(later, next)
  {
    if later != earlier {
      DominatesTransitive(later.value.m, earlier.value.m, next.m);
    }
  }

  // What the verdicts mean for the floors and the time of two heads of one workspace.
  lemma VerdictsMean(current: Manifest, next: Manifest)
    requires forall d :: d in current.floors ==> current.floors[d] >= 0
    requires forall d :: d in next.floors ==> next.floors[d] >= 0
    requires current.workspace == next.workspace
    ensures Classify(Doc(current), Doc(next)) == AlreadyAdvanced <==>
            current.producedAt >= next.producedAt && forall d :: At(current.floors, d) >= At(next.floors, d)
    ensures Classify(Doc(current), Doc(next)) == Replace <==>
            && next.producedAt >= current.producedAt && (forall d :: At(next.floors, d) >= At(current.floors, d))
            && (next.producedAt > current.producedAt || exists d :: At(next.floors, d) > At(current.floors, d))
  {
    forall a: Manifest, b: Manifest
      ensures Parses(Doc(a)) && Parses(Doc(b)) ==>
                (Dominates(a, b) <==>
                 a.producedAt >= b.producedAt && forall d :: At(a.floors, d) >= At(b.floors, d))
    {
      if Parses(Doc(a)) && Parses(Doc(b)) && Dominates(a, b) {
        forall d ensures At(a.floors, d) >= At(b.floors, d) {
          if d in b.floors { assert At(a.floors, d) >= b.floors[d]; }
        }
      }
      if forall d :: At(a.floors, d) >= At(b.floors, d) {
        assert forall d :: d in b.floors ==> At(a.floors, d) >= At(b.floors, d);
      }
    }
  }

  // A later head never has a lower floor, an earlier time or another workspace.
  lemma HeadNeverRegresses(later: Option<Raw>, earlier: Manifest)
    requires Follows(later, Some(Doc(earlier)))
    ensures later.Some? && later.value.Doc?
    ensures later.value.m.workspace == earlier.workspace && later.value.m.producedAt >= earlier.producedAt
    ensures forall d :: d in earlier.floors ==> At(later.value.m.floors, d) >= earlier.floors[d]
    ensures later == Some(Doc(earlier))
            || later.value.m.producedAt > earlier.producedAt
            || exists d :: d in later.value.m.floors && later.value.m.floors[d] > At(earlier.floors, d)
  {
  }

  // Whatever is recorded as mirrored is made up for by the head.
  lemma MirroredIsMadeUpFor(head: Option<Raw>, next: Manifest)
    requires Mirrored(head, Doc(next))
    ensures head.Some? && head.value.Doc? && head.value.m.workspace == next.workspace
    ensures head.value.m.producedAt >= next.producedAt
    ensures forall d :: At(head.value.m.floors, d) >= At(next.floors, d)
  {
    forall d ensures At(head.value.m.floors, d) >= At(next.floors, d) {
      if d in next.floors { assert At(head.value.m.floors, d) >= next.floors[d]; }
    }
  }

  // ---------- one exporter among many ----------

  // Another exporter's swap: it read `read` at some earlier time and wants `next`.
  datatype Swap = Swap(read: Option<Raw>, next: Raw)

  // The decision every exporter makes before it swaps.
  predicate Permitted(w: Swap)
  {
    Parses(w.next) && (Vacant(w.read) || (w.read.value != w.next && Classify(w.read.value, w.next) == Replace))
  }

  datatype Outcome = Success | Refused(why: Verdict) | HubError | LostRaces

  const MAX_MIRROR_ATTEMPTS := 3

  method ReconcileRetentionAdvance(current: Raw, next: Raw) returns (v: Verdict)
    ensures v == Classify(current, next)
  {
    if !Parses(current) || !Parses(next) {
      return Verdict.Unreadable;
    }
    if current.m.workspace != next.m.workspace {
      return OtherWorkspace;
    }
    var currentFloors := CoversFloors(current.m.floors, next.m.floors);
    if current.m.producedAt >= next.m.producedAt && currentFloors {
      return AlreadyAdvanced;
    }
    var nextFloors := CoversFloors(next.m.floors, current.m.floors);
    if next.m.producedAt >= current.m.producedAt && nextFloors {
      return Replace;
    }
    v := Incomparable;
  }

  method CoversFloors(a: Floors, b: Floors) returns (ok: bool)
    ensures ok <==> forall d :: d in b ==> At(a, d) >= b[d]
  {
    var todo := b.Keys;
    while todo != {}
      invariant todo <= b.Keys
      invariant forall d :: d in b && d !in todo ==> At(a, d) >= b[d]
      decreases |todo|
    {
      var d :| d in todo;
      if At(a, d) < b[d] {
        return false;
      }
      todo := todo - {d};
    }
    ok := true;
  }

  class Replica {
    var head: Option<Raw>
    var snapshots: set<SnapshotObject>
    // The exporter's own record of its last successful export.
    var recorded: Option<SnapshotObject>
    var clock: nat
    const fate: nat -> Fate
    // The swaps of other exporters that reach the hub before our operation at each tick.
    const rivals: nat -> seq<Swap>

    constructor (fate: nat -> Fate, rivals: nat -> seq<Swap>)
      ensures this.fate == fate && this.rivals == rivals
      ensures head == None && snapshots == {} && recorded == None && clock == 0
    {
      this.fate, this.rivals := fate, rivals;
      head, snapshots, recorded, clock := None, {}, None, 0;
    }

    // The head never names a snapshot that is not on the replica.
    predicate HeadBacked()
      reads this
    {
      head.Some? && head.value.Doc? ==> head.value.m.snapshot in snapshots
    }

    // No fault and no rival for the whole run.
    ghost predicate Undisturbed()
    {
      forall t :: fate(t) == Fine && rivals(t) == []
    }

    method Interfere()
      requires HeadBacked()
      modifies this`head, this`snapshots, this`clock
      ensures HeadBacked() && Follows(head, old(head)) && old(snapshots) <= snapshots && clock == old(clock) + 1
      ensures Undisturbed() ==> head == old(head) && snapshots == old(snapshots)
    {
      var swaps := rivals(clock);
      clock := clock + 1;
      for i := 0 to |swaps|
        invariant HeadBacked() && Follows(head, old(head)) && old(snapshots) <= snapshots && clock == old(clock) + 1
        invariant swaps == [] ==> head == old(head) && snapshots == old(snapshots)
      {
        ghost var before := head;
        if Permitted(swaps[i]) {
          // A rival puts its snapshot before it touches the head.
          snapshots := snapshots + {swaps[i].next.m.snapshot};
          if head == swaps[i].read {
            head := Some(swaps[i].next);
          }
        }
        FollowsTransitive(head, before, old(head));
      }
    }

    // PutRetention: it applies only over the bytes that were read. The acknowledgement may be lost.
    method Put(w: Swap) returns (r: Report, conflict: bool)
      requires HeadBacked() && Permitted(w) && w.next.m.snapshot in snapshots
      modifies this`head, this`clock
      ensures HeadBacked() && Follows(head, old(head)) && snapshots == old(snapshots)
      ensures clock == old(clock) + 1 && r == fate(old(clock)).Report() && conflict == (old(head) != w.read)
      ensures r == Done && !conflict ==> head == Some(w.next)
      ensures head != old(head) ==>
                && old(head) == w.read && head == Some(w.next)
                && (!Vacant(old(head)) ==> StrictlyAdvances(w.next, old(head).value))
    {
      var f := fate(clock);
      clock := clock + 1;
      conflict := head != w.read;
      if !conflict && f.Lands() {
        head := Some(w.next);
      }
      r := f.Report();
    }

    // mirrorRetentionManifest. Its caller has parsed the manifest and put its snapshot.
    method Mirror(next: Raw) returns (r: Outcome)
      requires HeadBacked() && Parses(next) && next.m.snapshot in snapshots
      modifies this`head, this`snapshots, this`clock
      ensures HeadBacked() && Follows(head, old(head)) && old(snapshots) <= snapshots
      ensures r == Success ==> Mirrored(head, next)
      // A head that cannot be read is not guessed at.
      ensures fate(old(clock) + 1) != Fine ==> r == HubError
      ensures Undisturbed() ==>
                && snapshots == old(snapshots)
                && (r == Success <==>
                      || Vacant(old(head)) || old(head) == Some(next)
                      || Classify(old(head).value, next) in {AlreadyAdvanced, Replace})
                && head ==
                   if Vacant(old(head)) || Classify(old(head).value, next) == Replace then Some(next) else old(head)
    {
      for attempt := 0 to MAX_MIRROR_ATTEMPTS
        invariant HeadBacked() && Follows(head, old(head)) && old(snapshots) <= snapshots
        invariant Undisturbed() ==> attempt == 0 && head == old(head) && snapshots == old(snapshots)
        invariant attempt == 0 ==> clock == old(clock)
        invariant attempt > 0 ==> fate(old(clock) + 1) == Fine
      {
        ghost var h0 := head;
        Interfere();
        FollowsTransitive(head, h0, old(head));
        if fate(clock) != Fine {
          return HubError;
        }
        var current := head;
        if current == Some(next) {
          return Success;
        }
        // A head of no bytes is overwritten without being compared.
        if !Vacant(current) {
          var verdict := ReconcileRetentionAdvance(current.value, next);
          if verdict == AlreadyAdvanced {
            return Success;
          }
          if verdict != Replace {
            return Outcome.Refused(verdict);
          }
        }
        ghost var h1 := head;
        Interfere();
        FollowsTransitive(head, h1, old(head));
        ghost var h2 := head;
        var put, conflict := Put(Swap(current, next));
        FollowsTransitive(head, h2, old(head));
        if put != Done {
          return HubError;
        }
        if !conflict {
          return Success;
        }
      }
      r := LostRaces;
    }

    method PutSnapshot(o: SnapshotObject) returns (r: Report)
      requires HeadBacked()
      modifies this`clock, this`snapshots
      ensures HeadBacked() && old(snapshots) <= snapshots <= old(snapshots) + {o}
      ensures clock == old(clock) + 1 && r == fate(old(clock)).Report() && (r == Done ==> o in snapshots)
    {
      var f := fate(clock);
      clock := clock + 1;
      if f.Lands() {
        snapshots := snapshots + {o};
      }
      r := f.Report();
    }

    // The export itself: every check on the primary's manifest and snapshot comes first, then
    // the snapshot, then the head, and last the record of success.
    method Export(primary: Primary, reg: Registry, self: Producer) returns (r: ExportOutcome)
      requires HeadBacked()
      modifies this
      ensures HeadBacked() && Follows(head, old(head)) && old(snapshots) <= snapshots
      // The record names a snapshot only when that snapshot and a head at least as advanced are there.
      ensures recorded != old(recorded) ==>
                && primary.retention.Some? && Exportable(primary.retention.value, reg, self)
                && recorded == Some(primary.retention.value.m.snapshot)
                && primary.retention.value.m.snapshot in snapshots && Mirrored(head, primary.retention.value)
      ensures r == Exported ==>
                && primary.retention.Some? && Exportable(primary.retention.value, reg, self)
                && recorded == Some(primary.retention.value.m.snapshot)
                && primary.retention.value.m.snapshot in snapshots && Mirrored(head, primary.retention.value)
      // Nothing reaches the replica's head or the record unless the producer's own key signed it: this
      // device's, if it is the producer, or the one it approved for the producer.
      ensures recorded != old(recorded) || r == Exported ==>
                && primary.retention.value.Doc?
                && var m := primary.retention.value.m;
                   && m.workspace == reg.workspace && m.stamp.producedBy == m.producedBy
                   && (|| (m.producedBy == self.device && self.trust == Local && self.key == Some(m.signedWith))
                       || (m.producedBy in reg.approved && reg.approved[m.producedBy] == m.signedWith))
      ensures r == Declined ==> head == old(head) && snapshots == old(snapshots) && recorded == old(recorded)
      ensures r == Declined <==> primary.retention.Some? && !Offered(primary, reg, self)
      ensures r == NothingToExport <==> primary.retention == None
      ensures Undisturbed() && primary.retention.Some? && Offered(primary, reg, self) ==>
                (r == Exported <==>
                   || Vacant(old(head)) || old(head) == primary.retention
                   || Classify(old(head).value, primary.retention.value) in {AlreadyAdvanced, Replace})
    {
      if primary.retention == None {
        return NothingToExport;
      }
      var raw := primary.retention.value;
      if !Exportable(raw, reg, self) || raw.m.snapshot !in primary.objects {
        return Declined;
      }
      // The fetched bytes must hash to the digest the manifest names.
      if primary.objects[raw.m.snapshot] != raw.m.snapshot {
        return Declined;
      }
      ghost var before := head;
      Interfere();
      var put := PutSnapshot(raw.m.snapshot);
      if put != Done {
        return PutFailed;
      }
      ghost var between := head;
      var mirrored := Mirror(raw);
      FollowsTransitive(head, between, before);
      if mirrored != Success {
        return MirrorFailed(mirrored);
      }
      var f := fate(clock);
      clock := clock + 1;
      if f.Lands() {
        recorded := Some(raw.m.snapshot);
      }
      r := if f == Fine then Exported else RecordFailed;
    }
  }

  datatype Producer = Producer(device: Device, trust: Trust, key: Option<Key>)

  // What the primary hub serves: its head, and the bytes behind each digest.
  datatype Primary = Primary(retention: Option<Raw>, objects: map<SnapshotObject, SnapshotObject>)

  datatype ExportOutcome = NothingToExport | Declined | PutFailed | MirrorFailed(why: Outcome) | RecordFailed | Exported

  // A verified manifest whose snapshot the primary serves intact.
  predicate Offered(primary: Primary, reg: Registry, self: Producer)
    requires primary.retention.Some?
  {
    && Exportable(primary.retention.value, reg, self)
    && primary.retention.value.m.snapshot in primary.objects
    && primary.objects[primary.retention.value.m.snapshot] == primary.retention.value.m.snapshot
  }

  predicate CurrentDeviceIsApprovedProducer(self: Producer, producer: Device)
  {
    self.device == producer && self.trust == Local && self.key.Some?
  }

  predicate Exportable(raw: Raw, reg: Registry, self: Producer)
  {
    && Parses(raw) && raw.m.workspace == reg.workspace
    && (if CurrentDeviceIsApprovedProducer(self, raw.m.producedBy) then raw.m.signedWith == self.key.value
        else raw.m.producedBy in reg.approved && raw.m.signedWith == reg.approved[raw.m.producedBy])
    && raw.m.stamp.producedBy == raw.m.producedBy
  }
}
