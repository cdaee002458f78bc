/**
 Retention floors as one compactor computes them: base floors from its transport
 cursors, reconciliation with the manifest in force, the tombstone-GC floor, and the
 pruning of superseded snapshot objects.
 */
module CompactFloors {
  import opened Common

  type Device = nat
  type Key = nat
  type Floors = map<Device, int>

  datatype Event = Event(dev: Device, at: nat)

  // The identity a snapshot is stamped with: producer, key epoch and id, clock.
  datatype Stamp = Stamp(producedBy: Device, epoch: int, kid: nat, hlc: int)

  // A snapshot document; `covers` is what its producer's store had consumed.
  datatype Document = Document(workspace: nat, stamp: Stamp, floors: Floors, covers: set<Event>)

  // A snapshot object is content-addressed, so the object, its digest and this value name
  // the same thing. Sealed opens only under the workspace key it was sealed with.
  datatype SnapshotObject = Junk(id: nat) | Sealed(envelope: Stamp, wck: Key, doc: Document)

  // A signed retention manifest. The digest of the predecessor is injective, so the
  // predecessor itself stands for it.
  datatype Manifest = Manifest(workspace: nat, floors: Floors, stamp: Stamp, snapshot: SnapshotObject,
                               producedBy: Device, producedAt: int, signedWith: Key, prev: Option<Manifest>)

  // What the snapshot a manifest names makes up for.
  function Coverage(o: SnapshotObject): set<Event>
  {
    if o.Sealed? then o.doc.covers else {}
  }

  // Manifest bytes as served: none at all, bytes that do not parse, or a manifest.
  datatype Raw = Blank | Garbled | Doc(m: Manifest)

  datatype Refusal = Unparseable | NoOwnKey | UnapprovedProducer | BadSignature | FloorRollback

  datatype Reconciled = Agreed(floors: Floors, prev: Option<Manifest>) | Refused(why: Refusal)

  // Who this device is and whose signatures it accepts.
  datatype Registry = Registry(workspace: nat, self: Device, selfKey: Option<Key>, approved: map<Device, Key>)

  // ---------- what floors mean ----------

  // A cursor or floor map read with the default of zero.
  function At(m: map<Device, int>, d: Device): int
  {
    if d in m then m[d] else 0
  }

  // a never lowers or drops a floor of b.
  predicate AtLeast(a: Floors, b: Floors)
  {
    forall d :: d in b ==> d in a && a[d] >= b[d]
  }

  lemma AtLeastTransitive(a: Floors, b: Floors, c: Floors)
    requires AtLeast(a, b) && AtLeast(b, c)
    ensures AtLeast(a, c)
  {
  }

  // The stream of d below floor f has been consumed.
  predicate HasBelow(has: set<Event>, d: Device, f: int)
  {
    forall s: nat :: 1 <= s < f ==> Event(d, s) in has
  }

  // A snapshot may replace the events below the floors it is published with.
  predicate Covers(has: set<Event>, floors: Floors)
  {
    forall d :: d in floors ==> HasBelow(has, d, floors[d])
  }

  // The floor a store may claim for d from its own transport cursors, or 0 for none.
  function OwnFloor(self: Device, cursors: map<Device, int>, pushed: int, d: Device): int
  {
    if d == self then (if pushed > 0 then pushed + 1 else 0)
    else if d in cursors && cursors[d] > 0 then cursors[d] + 1
    else 0
  }

  function BaseFloors(self: Device, cursors: map<Device, int>, pushed: int): Floors
  {
    map d | d in cursors.Keys + {self} && OwnFloor(self, cursors, pushed, d) > 0 :: OwnFloor(self, cursors, pushed, d)
  }

  function Merge(base: Floors, current: Floors): Floors
  {
    map d | d in base.Keys + current.Keys :: if d in base then base[d] else current[d]
  }

  function ProducerKey(reg: Registry, producer: Device): Option<Key>
  {
    if producer == reg.self then reg.selfKey
    else if producer in reg.approved then Some(reg.approved[producer])
    else None
  }

  predicate Verified(reg: Registry, m: Manifest)
  {
    ProducerKey(reg, m.producedBy) == Some(m.signedWith)
  }

  // In a fleet that knows each device's key, a manifest verifies exactly when its producer is this
  // device or an approved one and its own key signed it.
  lemma VerifiedIsSignedByProducer(reg: Registry, m: Manifest, keyOf: Device -> Key)
    requires reg.selfKey == Some(keyOf(reg.self))
    requires forall d :: d in reg.approved ==> reg.approved[d] == keyOf(d)
    ensures Verified(reg, m) <==>
            (m.producedBy == reg.self || m.producedBy in reg.approved) && m.signedWith == keyOf(m.producedBy)
  {
  }

  predicate Lowers(base: Floors, current: Floors)
  {
    exists d :: d in base && d in current && base[d] < current[d]
  }

  // Reconciliation as a decision, for the interleaving model.
  function Reconcile(reg: Registry, base: Floors, current: Option<Manifest>): Option<Floors>
  {
    match current
    case None => Some(base)
    case Some(m) => if Verified(reg, m) && !Lowers(base, m.floors) then Some(Merge(base, m.floors)) else None
  }

  // An agreed floor map never goes below the manifest it will replace.
  lemma ReconcileRaisesFloors(reg: Registry, base: Floors, m: Manifest)
    ensures var r := Reconcile(reg, base, Some(m));
            && (r.Some? ==> AtLeast(r.value, m.floors) && AtLeast(r.value, base))
            && (r.Some? <==> Verified(reg, m) && forall d :: d in base && d in m.floors ==> base[d] >= m.floors[d])
            && (r.Some? ==> forall d :: d in r.value && d !in base ==> d in m.floors && r.value[d] == m.floors[d])
  {
    if Lowers(base, m.floors) {
      var d :| d in base && d in m.floors && base[d] < m.floors[d];
      assert !(base[d] >= m.floors[d]);
    }
  }

  // The floors a store may publish are covered by that store exactly when it has itself
  // consumed what lies below every floor it merely carries forward.
  lemma CoveredUnlessBlind(has: set<Event>, base: Floors, current: Floors)
    requires Covers(has, base)
    ensures Covers(has, Merge(base, current)) <==>
            forall d :: d in current && d !in base ==> HasBelow(has, d, current[d])
  {
    var merged := Merge(base, current);
    if Covers(has, merged) {
      forall d | d in current && d !in base ensures HasBelow(has, d, current[d]) {
        assert d in merged && merged[d] == current[d];
      }
    } else {
      var d :| d in merged && !HasBelow(has, d, merged[d]);
      assert d !in base;
      assert d in current && merged[d] == current[d];
    }
  }

  // How far the transport cursors say this store has read the stream of d.
  function Top(self: Device, cursors: map<Device, int>, pushed: int, d: Device): int
  {
    if d == self && pushed > At(cursors, d) then pushed else At(cursors, d)
  }

  // A store has consumed what lies below a floor exactly when its cursor reaches it, provided
  // the cursor is honest and nothing beyond it was consumed.
  lemma HeldIffReached(has: set<Event>, d: Device, top: int, f: int)
    requires HasBelow(has, d, top + 1) && forall e :: e in has && e.dev == d ==> e.at <= top
    ensures HasBelow(has, d, f) <==> f <= 1 || f <= top + 1
  {
    if f > 1 && f > top + 1 {
      assert Event(d, f - 1) !in has;
    }
  }

  // So what a store publishes is covered exactly when its cursors reach every floor it merely
  // carries forward: something it can look up before it publishes.
  lemma CoveredIffCursorsReach(has: set<Event>, self: Device, cursors: map<Device, int>, pushed: int, base: Floors,
                               current: Floors)
    requires Covers(has, base)
    requires forall d :: HasBelow(has, d, Top(self, cursors, pushed, d) + 1)
    requires forall e :: e in has ==> e.at <= Top(self, cursors, pushed, e.dev)
    ensures Covers(has, Merge(base, current)) <==>
            forall d :: d in current && d !in base ==>
              current[d] <= 1 || current[d] <= Top(self, cursors, pushed, d) + 1
  {
    CoveredUnlessBlind(has, base, current);
    forall d | d in current && d !in base
      ensures HasBelow(has, d, current[d]) <==> current[d] <= 1 || current[d] <= Top(self, cursors, pushed, d) + 1
    {
      HeldIffReached(has, d, Top(self, cursors, pushed, d), current[d]);
    }
  }

  // Base floors are covered by a store whose cursors are honest about what it consumed.
  lemma BaseFloorsCovered(self: Device, cursors: map<Device, int>, pushed: int, has: set<Event>)
    requires forall d :: d in cursors && d != self ==> HasBelow(has, d, cursors[d] + 1)
    requires HasBelow(has, self, pushed + 1)
    ensures Covers(has, BaseFloors(self, cursors, pushed))
    ensures forall d :: d in BaseFloors(self, cursors, pushed) ==> BaseFloors(self, cursors, pushed)[d] > 1
  {
    var base := BaseFloors(self, cursors, pushed);
    forall d | d in base ensures HasBelow(has, d, base[d]) && base[d] > 1 {
      assert base[d] == OwnFloor(self, cursors, pushed, d);
    }
  }

  // And none higher would be: the base floors are the most a store may claim from what it consumed,
  // except that its own stream may have been read further than its push watermark says.
  lemma BaseFloorsAreHighest(self: Device, cursors: map<Device, int>, pushed: int, has: set<Event>, floors: Floors,
                             d: Device)
    requires forall e :: e in has ==> e.at <= Top(self, cursors, pushed, e.dev)
    requires Covers(has, floors) && d in floors && floors[d] > 1
    ensures floors[d] <= At(BaseFloors(self, cursors, pushed), d)
            || (d == self && At(cursors, d) > pushed && floors[d] <= At(cursors, d) + 1)
  {
    assert HasBelow(has, d, floors[d]);
    assert Event(d, floors[d] - 1) in has;
    assert OwnFloor(self, cursors, pushed, d) > 0 ==> d in BaseFloors(self, cursors, pushed);
  }

  // ---------- the loops ----------

  // The floors of the peers whose cursor was looked at.
  ghost predicate PeerFloors(floors: Floors, self: Device, cursors: map<Device, int>, todo: set<Device>)
  {
    && (forall d :: d in floors <==> d in cursors && d !in todo && d != self && cursors[d] > 0)
    && forall d :: d in floors ==> floors[d] == cursors[d] + 1
  }

  lemma PeerFloorsAreBase(floors: Floors, self: Device, cursors: map<Device, int>, pushed: int)
    requires PeerFloors(floors, self, cursors, {})
    ensures BaseFloors(self, cursors, pushed) == if pushed > 0 then floors[self := pushed + 1] else floors
  {
    var base := BaseFloors(self, cursors, pushed);
    var all := if pushed > 0 then floors[self := pushed + 1] else floors;
    assert forall d :: d in base <==> d in all;
    assert forall d :: d in base ==> base[d] == OwnFloor(self, cursors, pushed, d) == all[d];
  }

  method ComputeCompactFloors(self: Device, cursors: map<Device, int>, pushed: int) returns (floors: Floors)
    ensures floors == BaseFloors(self, cursors, pushed)
  {
    floors := map[];
    var todo := cursors.Keys;
    while todo != {}
      invariant todo <= cursors.Keys && PeerFloors(floors, self, cursors, todo)
      decreases |todo|
    {
      var d :| d in todo;
      todo := todo - {d};
      if d == self || cursors[d] <= 0 {
        continue;
      }
      floors := floors[d := cursors[d] + 1];
    }
    PeerFloorsAreBase(floors, self, cursors, pushed);
    if pushed > 0 {
      floors := floors[self := pushed + 1];
    }
  }

  method ReconcileCompactFloors(reg: Registry, base: Floors, currentRaw: Option<Raw>) returns (r: Reconciled)
    ensures currentRaw == None || currentRaw == Some(Blank) ==> r == Agreed(base, None)
    ensures currentRaw == Some(Garbled) ==> r == Refused(Unparseable)
    ensures currentRaw.Some? && currentRaw.value.Doc? ==>
              var m := currentRaw.value.m;
              && (r.Agreed? <==> Reconcile(reg, base, Some(m)).Some?)
              && (r.Agreed? ==> r.floors == Reconcile(reg, base, Some(m)).value && r.prev == Some(m))
              && (r == Refused(FloorRollback) <==> Verified(reg, m) && Lowers(base, m.floors))
              && (r == Refused(BadSignature) <==>
                    ProducerKey(reg, m.producedBy).Some? && ProducerKey(reg, m.producedBy).value != m.signedWith)
  {
    if currentRaw == None || currentRaw.value.Blank? {
      var copy := CopyFloors(base);
      return Agreed(copy, None);
    }
    if currentRaw.value.Garbled? {
      return Refused(Unparseable);
    }
    var m := currentRaw.value.m;
    var pub: Key;
    if m.producedBy == reg.self {
      if reg.selfKey == None {
        return Refused(NoOwnKey);
      }
      pub := reg.selfKey.value;
    } else {
      if m.producedBy !in reg.approved {
        return Refused(UnapprovedProducer);
      }
      pub := reg.approved[m.producedBy];
    }
    if m.signedWith != pub {
      return Refused(BadSignature);
    }
    var floors := CopyFloors(base);
    var lowers := FindLowered(floors, m.floors);
    if lowers {
      return Refused(FloorRollback);
    }
    floors := CarryForward(floors, m.floors);
    r := Agreed(floors, Some(m));
  }

  method FindLowered(floors: Floors, current: Floors) returns (found: bool)
    ensures found <==> Lowers(floors, current)
  {
    var todo := floors.Keys;
    while todo != {}
      invariant todo <= floors.Keys
      invariant forall d :: d in floors && d !in todo && d in current ==> floors[d] >= current[d]
      decreases |todo|
    {
      var d :| d in todo;
      if d in current && floors[d] < current[d] {
        return true;
      }
      todo := todo - {d};
    }
    found := false;
  }

  method CarryForward(base: Floors, current: Floors) returns (floors: Floors)
    ensures floors == Merge(base, current)
  {
    floors := base;
    var todo := current.Keys;
    while todo != {}
      invariant todo <= current.Keys
      invariant forall d :: d in floors <==> d in base || (d in current && d !in todo)
      invariant forall d :: d in floors ==> floors[d] == if d in base then base[d] else current[d]
      decreases |todo|
    {
      var d :| d in todo;
      if d !in floors {
        floors := floors[d := current[d]];
      }
      todo := todo - {d};
    }
  }

  method CopyFloors(base: Floors) returns (floors: Floors)
    ensures floors == base
  {
    floors := map[];
    var todo := base.Keys;
    while todo != {}
      invariant todo <= base.Keys && floors == map d | d in base && d !in todo :: base[d]
      decreases |todo|
    {
      var d :| d in todo;
      floors := floors[d := base[d]];
      todo := todo - {d};
    }
  }

  // ---------- tombstone GC ----------

  datatype Trust = Local | Approved | Pending | Revoked | Lost

  datatype Ack = Unreadable | Ack(device: Device, workspace: nat, hlc: int, signedWith: Key)

  datatype GCPlan = Ready(beforeHLC: int) | Skip(missing: Device)

  // An ack this device accepts from d.
  predicate AckVerified(reg: Registry, acks: map<Device, Ack>, d: Device)
  {
    && d in acks && d != reg.self && d in reg.approved
    && acks[d].Ack? && acks[d].device == d && acks[d].workspace == reg.workspace
    && acks[d].signedWith == reg.approved[d]
  }

  // The floor is the least watermark over this device and every approved peer: no peer
  // that could still resurrect a purged tombstone is behind it, and it is no lower than
  // it must be. Acks of anyone else neither pin nor advance it.
  method PlanTombstoneGC(reg: Registry, local: int, acks: map<Device, Ack>, devices: map<Device, Trust>)
    returns (plan: GCPlan)
    ensures plan.Ready? <==>
            forall d :: d in devices && d != reg.self && devices[d] == Approved ==> AckVerified(reg, acks, d)
    ensures plan.Ready? ==>
              && plan.beforeHLC <= local
              && (forall d :: d in devices && d != reg.self && devices[d] == Approved ==> plan.beforeHLC <= acks[d].hlc)
              && (plan.beforeHLC == local ||
                  exists d :: d in devices && d != reg.self && devices[d] == Approved && plan.beforeHLC == acks[d].hlc)
    ensures plan.Skip? ==> plan.missing in devices && devices[plan.missing] == Approved
                           && !AckVerified(reg, acks, plan.missing)
  {
    var verified: map<Device, int> := map[];
    var todo := acks.Keys;
    while todo != {}
      invariant todo <= acks.Keys
      invariant forall d :: d in verified <==> d in acks && d !in todo && AckVerified(reg, acks, d)
      invariant forall d :: d in verified ==> verified[d] == acks[d].hlc
      decreases |todo|
    {
      var d :| d in todo;
      todo := todo - {d};
      if d == reg.self {
        continue;
      }
      if d !in reg.approved {
        continue;
      }
      if acks[d].Unreadable? {
        continue;
      }
      if acks[d].device != d || acks[d].workspace != reg.workspace {
        continue;
      }
      if acks[d].signedWith != reg.approved[d] {
        continue;
      }
      verified := verified[d := acks[d].hlc];
    }
    var least := local;
    todo := devices.Keys;
    while todo != {}
      invariant todo <= devices.Keys && least <= local
      invariant forall d :: d in devices && d !in todo && d != reg.self && devices[d] == Approved ==>
                  AckVerified(reg, acks, d) && least <= acks[d].hlc
      invariant least == local ||
                exists d :: d in devices && d !in todo && d != reg.self && devices[d] == Approved
                  && least == acks[d].hlc
      decreases |todo|
    {
      var d :| d in todo;
      if d != reg.self && devices[d] == Approved {
        if d !in verified {
          return Skip(d);
        }
        if verified[d] < least {
          least := verified[d];
        }
      }
      todo := todo - {d};
    }
    plan := Ready(least);
  }

  // ---------- pruning snapshot objects ----------

  datatype Entry = Entry(key: Key, modified: int)

  predicate Distinct(objs: seq<Entry>)
  {
    forall i, j :: 0 <= i < j < |objs| ==> objs[i].key != objs[j].key
  }

  // objs is a listing of exactly these objects, in some order.
  predicate Lists(objs: seq<Entry>, times: map<Key, int>)
  {
    && Distinct(objs)
    && (forall i :: 0 <= i < |objs| ==> objs[i].key in times && times[objs[i].key] == objs[i].modified)
    && (forall k :: k in times ==> Entry(k, times[k]) in objs)
  }

  lemma SameListing(a: seq<Entry>, b: seq<Entry>, times: map<Key, int>)
    requires Lists(a, times) && Distinct(b)
    requires forall o :: o in a <==> o in b
    ensures Lists(b, times)
  {
    forall i | 0 <= i < |b| ensures b[i].key in times && times[b[i].key] == b[i].modified {
      assert b[i] in a;
    }
  }

  predicate NewestFirst(objs: seq<Entry>)
  {
    forall i, j :: 0 <= i < j < |objs| ==> objs[i].modified >= objs[j].modified
  }

  method SortNewestFirst(objs: seq<Entry>) returns (sorted: seq<Entry>)
    requires Distinct(objs)
    ensures |sorted| == |objs| && Distinct(sorted) && NewestFirst(sorted)
    ensures forall o :: o in sorted <==> o in objs
  {
    sorted := [];
    for n := 0 to |objs|
      invariant |sorted| == n && Distinct(sorted) && NewestFirst(sorted)
      invariant forall o :: o in sorted <==> o in objs[..n]
    {
      assert objs[..n + 1] == objs[..n] + [objs[n]];
      forall i | 0 <= i < |sorted| ensures sorted[i].key != objs[n].key {
        assert sorted[i] in objs[..n];
      }
      sorted := Insert(sorted, objs[n]);
    }
    assert objs[..|objs|] == objs;
  }

  method Insert(sorted: seq<Entry>, o: Entry) returns (r: seq<Entry>)
    requires Distinct(sorted) && NewestFirst(sorted)
    requires forall i :: 0 <= i < |sorted| ==> sorted[i].key != o.key
    ensures |r| == |sorted| + 1 && Distinct(r) && NewestFirst(r)
    ensures forall x :: x in r <==> x in sorted || x == o
  {
    var i := 0;
    while i < |sorted| && sorted[i].modified >= o.modified
      invariant 0 <= i <= |sorted|
      invariant forall k :: 0 <= k < i ==> sorted[k].modified >= o.modified
    {
      i := i + 1;
    }
    r := sorted[..i] + [o] + sorted[i..];
    assert IsInserted(sorted, o, i, r);
    InsertedIsDistinct(sorted, o, i, r);
    InsertedIsNewestFirst(sorted, o, i, r);
    assert sorted == sorted[..i] + sorted[i..];
  }

  predicate IsInserted(sorted: seq<Entry>, o: Entry, i: nat, r: seq<Entry>)
  {
    && i <= |sorted| && |r| == |sorted| + 1 && r[i] == o
    && (forall k :: 0 <= k < i ==> r[k] == sorted[k])
    && forall k :: i < k < |r| ==> r[k] == sorted[k - 1]
  }

  lemma InsertedIsDistinct(sorted: seq<Entry>, o: Entry, i: nat, r: seq<Entry>)
    requires IsInserted(sorted, o, i, r) && Distinct(sorted)
    requires forall k :: 0 <= k < |sorted| ==> sorted[k].key != o.key
    ensures Distinct(r)
  {
  }

  lemma InsertedIsNewestFirst(sorted: seq<Entry>, o: Entry, i: nat, r: seq<Entry>)
    requires IsInserted(sorted, o, i, r) && NewestFirst(sorted)
    requires forall k :: 0 <= k < i ==> sorted[k].modified >= o.modified
    requires i < |sorted| ==> sorted[i].modified < o.modified
    ensures NewestFirst(r)
  {
    assert forall k :: i <= k < |sorted| ==> sorted[k].modified <= o.modified;
  }

  class SnapshotStore {
    var objects: map<Key, int>
    // Which deletions the hub will refuse.
    const undeletable: set<Key>

    constructor (objects: map<Key, int>, undeletable: set<Key>)
      ensures this.objects == objects && this.undeletable == undeletable
    {
      this.objects, this.undeletable := objects, undeletable;
    }

    method Delete(k: Key) returns (ok: bool)
      modifies this
      ensures ok <==> k !in undeletable
      ensures objects == (if ok then old(objects) - {k} else old(objects))
    {
      ok := k !in undeletable;
      if ok {
        objects := objects - {k};
      }
    }

    method List() returns (objs: seq<Entry>)
      ensures Lists(objs, objects)
    {
      objs := [];
      var todo := objects.Keys;
      while todo != {}
        invariant todo <= objects.Keys && Distinct(objs)
        invariant forall i :: 0 <= i < |objs| ==>
                    objs[i].key in objects && objs[i].key !in todo && objects[objs[i].key] == objs[i].modified
        invariant forall k :: k in objects && k !in todo ==> Entry(k, objects[k]) in objs
        decreases |todo|
      {
        var k :| k in todo;
        objs := objs + [Entry(k, objects[k])];
        todo := todo - {k};
      }
    }

    // Delete every listed object that is not kept.
    method DeleteUnkept(objs: seq<Entry>, keep: set<Key>) returns (pruned: nat)
      requires Lists(objs, objects)
      modifies this
      ensures objects == old(objects) - (old(objects).Keys - keep - undeletable)
      ensures pruned == |old(objects).Keys - keep - undeletable|
    {
      ListedKeys(objs, objects);
      ghost var gone;
      pruned, gone := DeleteListed(objs, keep);
      assert gone == old(objects).Keys - keep - undeletable;
    }

    method DeleteListed(objs: seq<Entry>, keep: set<Key>) returns (pruned: nat, ghost gone: set<Key>)
      requires Distinct(objs)
      modifies this
      ensures forall p :: 0 <= p < |objs| ==>
                (objs[p].key in gone <==> objs[p].key !in keep && objs[p].key !in undeletable)
      ensures forall k :: k in gone ==> exists p :: 0 <= p < |objs| && objs[p].key == k
      ensures objects == old(objects) - gone && pruned == |gone|
    {
      pruned := 0;
      gone := {};
      for i := 0 to |objs|
        invariant forall p :: 0 <= p < i ==>
                    (objs[p].key in gone <==> objs[p].key !in keep && objs[p].key !in undeletable)
        invariant forall p :: i <= p < |objs| ==> objs[p].key !in gone
        invariant forall k :: k in gone ==> exists p :: 0 <= p < i && objs[p].key == k
        invariant objects == old(objects) - gone && pruned == |gone|
      {
        if objs[i].key in keep {
          continue;
        }
        var ok := Delete(objs[i].key);
        if !ok {
          continue;
        }
        gone := gone + {objs[i].key};
        pruned := pruned + 1;
      }
    }

    // pruneSnapshotObjects: keep the referenced object and the newest keepSnapshots-1
    // others. A deletion the hub refuses leaves that object in place.
    method Prune(referenced: Key, keepSnapshots: nat) returns (pruned: nat, keep: set<Key>)
      requires keepSnapshots >= 1
      modifies this
      ensures referenced in keep && keep <= old(objects).Keys + {referenced}
      ensures var others := |old(objects).Keys - {referenced}|;
              |keep - {referenced}| == if keepSnapshots - 1 <= others then keepSnapshots - 1 else others
      ensures objects == old(objects) - (old(objects).Keys - keep - undeletable)
      ensures forall gone, kept :: gone in old(objects) && gone !in keep && kept in keep && kept != referenced ==>
                old(objects)[gone] <= old(objects)[kept]
      ensures pruned == |old(objects).Keys - objects.Keys|
    {
      var objs := ListNewestFirst();
      keep := ChooseKept(objs, objects, referenced, keepSnapshots);
      pruned := DeleteUnkept(objs, keep);
      RemovedKeys(old(objects), old(objects).Keys - keep - undeletable);
    }

    method ListNewestFirst() returns (objs: seq<Entry>)
      ensures Lists(objs, objects) && NewestFirst(objs)
    {
      var listed := List();
      objs := SortNewestFirst(listed);
      SameListing(listed, objs, objects);
    }
  }

  lemma RemovedKeys(times: map<Key, int>, gone: set<Key>)
    requires gone <= times.Keys
    ensures times.Keys - (times - gone).Keys == gone
  {
  }

  lemma ListedKeys(objs: seq<Entry>, times: map<Key, int>)
    requires Lists(objs, times)
    ensures forall k :: k in times <==> exists p :: 0 <= p < |objs| && objs[p].key == k
  {
    forall k | k in times ensures exists p :: 0 <= p < |objs| && objs[p].key == k {
      var p := IndexOf(objs, times, k);
    }
  }

  // The marking loop over the objects, newest first.
  method ChooseKept(objs: seq<Entry>, ghost times: map<Key, int>, referenced: Key, keepSnapshots: nat)
    returns (keep: set<Key>)
    requires keepSnapshots >= 1 && Lists(objs, times) && NewestFirst(objs)
    ensures referenced in keep && keep <= times.Keys + {referenced}
    ensures var others := |times.Keys - {referenced}|;
            |keep - {referenced}| == if keepSnapshots - 1 <= others then keepSnapshots - 1 else others
    ensures forall gone, kept :: gone in times && gone !in keep && kept in keep && kept != referenced ==>
              times[gone] <= times[kept]
  {
    ghost var others, cut;
    keep, others, cut := MarkNewest(objs, referenced, keepSnapshots);
    KeptAreNewest(objs, times, keep, others, referenced, cut);
    CardinalityBound(others, times.Keys - {referenced});
    assert keep - {referenced} == others;
  }

  method MarkNewest(objs: seq<Entry>, referenced: Key, keepSnapshots: nat)
    returns (keep: set<Key>, ghost others: set<Key>, ghost cut: nat)
    requires keepSnapshots >= 1 && Distinct(objs)
    ensures keep == {referenced} + others && referenced !in others
    ensures cut <= |objs| && |others| <= keepSnapshots - 1 && (cut == |objs| || |others| == keepSnapshots - 1)
    ensures forall p :: 0 <= p < cut ==> objs[p].key in keep
    ensures forall p :: cut <= p < |objs| ==> objs[p].key !in others
    ensures forall k :: k in others ==> exists p :: 0 <= p < |objs| && objs[p].key == k
  {
    keep := {referenced};
    var extra := keepSnapshots - 1;
    others, cut := {}, 0;
    for i := 0 to |objs|
      invariant 0 <= cut <= i && (extra > 0 ==> cut == i) && 0 <= extra
      invariant keep == {referenced} + others && referenced !in others
      invariant |others| + extra == keepSnapshots - 1
      invariant forall p :: 0 <= p < cut ==> objs[p].key in keep
      invariant forall p :: cut <= p < |objs| ==> objs[p].key !in others
      invariant forall k :: k in others ==> exists p :: 0 <= p < i && objs[p].key == k
    {
      var o := objs[i];
      if o.key == referenced {
        if extra > 0 { cut := i + 1; }
        continue;
      }
      if extra > 0 {
        keep := keep + {o.key};
        others := others + {o.key};
        extra := extra - 1;
        cut := i + 1;
      }
    }
  }

  lemma KeptAreNewest(objs: seq<Entry>, times: map<Key, int>, keep: set<Key>, others: set<Key>, referenced: Key,
                      cut: nat)
    requires Lists(objs, times) && NewestFirst(objs) && cut <= |objs|
    requires keep == {referenced} + others && referenced !in others
    requires forall k :: k in others ==> exists p :: 0 <= p < |objs| && objs[p].key == k
    requires forall p :: 0 <= p < cut ==> objs[p].key in keep
    requires forall p :: cut <= p < |objs| ==> objs[p].key !in others
    ensures others <= times.Keys
    ensures forall gone, kept :: gone in times && gone !in keep && kept in others ==> times[gone] <= times[kept]
    ensures cut == |objs| ==> others == times.Keys - {referenced}
  {
    forall gone, kept | gone in times && gone !in keep && kept in others ensures times[gone] <= times[kept] {
      var g := IndexOf(objs, times, gone);
      var h := IndexOf(objs, times, kept);
    }
    if cut == |objs| {
      forall k | k in times && k != referenced ensures k in others {
        var g := IndexOf(objs, times, k);
      }
    }
  }

  lemma IndexOf(objs: seq<Entry>, times: map<Key, int>, k: Key) returns (i: nat)
    requires Lists(objs, times) && k in times
    ensures i < |objs| && objs[i] == Entry(k, times[k])
  {
    assert Entry(k, times[k]) in objs;
    i :| 0 <= i < |objs| && objs[i] == Entry(k, times[k]);
  }

  lemma CardinalityBound<T>(a: set<T>, b: set<T>)
    requires a <= b
    ensures |a| <= |b|
  {
    assert b == a + (b - a);
  }
}
