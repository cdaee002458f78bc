/**
 Recovery of a store whose cursors fell behind the hub's retention floors: verify the
 manifest and its snapshot, import, and resume pulling. The theorem is that nothing is
 missed; the method is fail-closed, and an import cut short leaves an honest store.
 */
module SnapshotRecovery {
  import opened Common
  import opened CompactFloors
  import DurabilityMirror
  import Retention

  datatype KeyId = KeyId(epoch: int, kid: nat)

  type Keyring = map<KeyId, Key>

  datatype Answer<T> = Unavailable | Got(value: T)

  // What the hub serves during one recovery: the manifest, the floors it enforces when the
  // tail is pulled, the grants that tail carries, the object's bytes, and the blobs.
  datatype HubView = HubView(retention: Answer<Raw>, enforced: Answer<Floors>, grants: Keyring,
                             fetched: Answer<SnapshotObject>, blobs: bool)

  datatype Reason =
    | NoManifest | ManifestUnreadable | UntrustedProducer | BadManifestSignature | ForeignSnapshot
    | TailFailed | FloorMoved | ObjectUnavailable | HashMismatch | BadEnvelope | EnvelopeMismatch | KeyringFailed
    | Undecryptable | WrongWorkspace | DocumentIdentity | FloorMismatch

  datatype Outcome = Imported | AwaitingGrant | Rejected(why: Reason) | ImportIncomplete | BlobPullFailed {
    // Whether the checks let the import begin.
    predicate Accepted()
    {
      Imported? || ImportIncomplete? || BlobPullFailed?
    }
  }

  // ---------- floor comparison ----------

  predicate FloorsEqual(a: Floors, b: Floors)
  {
    |a| == |b| && forall d :: d in a ==> At(b, d) == a[d]
  }

  lemma SameKeys<T>(a: set<T>, b: set<T>)
    requires a <= b && |a| == |b|
    ensures a == b
  {
    assert b == a + (b - a);
  }

  lemma FreshDevice(s: set<Device>) returns (d: Device)
    ensures d !in s
  {
    d := 0;
    ghost var below := {};
    while d in s
      invariant below <= s && (forall e: Device :: e in below <==> e < d)
      decreases s - below
    {
      below := below + {d};
      d := d + 1;
    }
  }

  // A document's floors are compared exactly, whatever they are compared with, precisely when
  // none of them is zero. The document comes first; the sealed bytes decide, not the manifest.
  lemma FloorsEqualIsEqualityIffNoZero(doc: Floors)
    ensures (forall served :: FloorsEqual(doc, served) <==> doc == served) <==> (forall d :: d in doc ==> doc[d] != 0)
  {
    if forall d :: d in doc ==> doc[d] != 0 {
      forall served ensures FloorsEqual(doc, served) <==> doc == served {
        if FloorsEqual(doc, served) {
          assert forall d :: d in doc ==> At(served, d) == doc[d];
          assert doc.Keys <= served.Keys && |doc.Keys| == |served.Keys|;
          SameKeys(doc.Keys, served.Keys);
        }
      }
    } else {
      var z :| z in doc && doc[z] == 0;
      var unused := FreshDevice(doc.Keys);
      var served := (doc - {z})[unused := 5];
      assert (doc - {z}).Keys == doc.Keys - {z};
      assert served.Keys == doc.Keys - {z} + {unused};
      assert |served.Keys| == |doc.Keys|;
      assert FloorsEqual(doc, served) && unused in served;
    }
  }

  method CompareFloors(a: Floors, b: Floors) returns (same: bool)
    ensures same <==> FloorsEqual(a, b)
  {
    if |a| != |b| {
      return false;
    }
    var todo := a.Keys;
    while todo != {}
      invariant todo <= a.Keys && forall d :: d in a && d !in todo ==> At(b, d) == a[d]
      decreases |todo|
    {
      var d :| d in todo;
      if At(b, d) != a[d] {
        return false;
      }
      todo := todo - {d};
    }
    same := true;
  }

  // ---------- floors and cursors used for the tail ----------

  // The served floors, raised to whatever this store verified before.
  method EffectiveFloors(served: Floors, cached: Floors) returns (effective: Floors)
    requires forall d :: d in served ==> served[d] >= 0
    ensures forall d :: At(effective, d) ==
              if d in cached && cached[d] > At(served, d) then cached[d] else At(served, d)
  {
    effective := CopyFloors(served);
    var todo := cached.Keys;
    while todo != {}
      invariant todo <= cached.Keys
      invariant forall d :: At(effective, d) ==
                  if d in cached && d !in todo && cached[d] > At(served, d) then cached[d] else At(served, d)
      decreases |todo|
    {
      var d :| d in todo;
      if cached[d] > At(effective, d) {
        effective := effective[d := cached[d]];
      }
      todo := todo - {d};
    }
  }

  // The provisional tail cursor: pointwise the greater of the cursor and the floor less one.
  method TailCursor(cursors: map<Device, int>, effective: Floors) returns (tail: map<Device, int>)
    ensures forall d :: At(tail, d) ==
              if d in effective && effective[d] - 1 > At(cursors, d) then effective[d] - 1 else At(cursors, d)
  {
    tail := CopyFloors(cursors);
    var todo := effective.Keys;
    while todo != {}
      invariant todo <= effective.Keys
      invariant forall d :: At(tail, d) ==
                  if d in effective && d !in todo && effective[d] - 1 > At(cursors, d) then effective[d] - 1
                  else At(cursors, d)
      decreases |todo|
    {
      var d :| d in todo;
      if effective[d] - 1 > At(tail, d) {
        tail := tail[d := effective[d] - 1];
      }
      todo := todo - {d};
    }
  }

  // The retention gate of Pull: it demands a snapshot when a cursor leaves a gap below a floor.
  predicate DemandsSnapshot(floors: Floors, cursors: map<Device, int>)
  {
    exists d :: d in floors && floors[d] > 0 && At(cursors, d) + 1 < floors[d]
  }

  // The gate the tail pull meets, said without the tail cursor.
  predicate FloorsMoved(enforced: Floors, served: Floors, cached: Floors, cursors: map<Device, int>)
  {
    exists d :: d in enforced && enforced[d] > 0 && At(cursors, d) + 1 < enforced[d] && At(served, d) < enforced[d]
                && At(cached, d) < enforced[d]
  }

  // The tail pull is refused only when the hub raised a floor after serving its manifest.
  lemma TailPassesUnlessFloorsMoved(enforced: Floors, served: Floors, cached: Floors, cursors: map<Device, int>,
                                    effective: Floors, tail: map<Device, int>)
    requires forall d :: d in served ==> served[d] >= 0
    requires forall d :: At(effective, d) ==
               if d in cached && cached[d] > At(served, d) then cached[d] else At(served, d)
    requires forall d :: At(tail, d) ==
               if d in effective && effective[d] - 1 > At(cursors, d) then effective[d] - 1 else At(cursors, d)
    ensures DemandsSnapshot(enforced, tail) <==> FloorsMoved(enforced, served, cached, cursors)
    ensures (forall d :: d in enforced ==> At(served, d) >= enforced[d]) ==> !DemandsSnapshot(enforced, tail)
  {
    if d :| d in enforced && enforced[d] > 0 && At(tail, d) + 1 < enforced[d] {
      assert At(effective, d) <= At(tail, d) + 1 || d !in effective;
      assert At(effective, d) < enforced[d];
      assert FloorsMoved(enforced, served, cached, cursors);
    }
    if d :| d in enforced && enforced[d] > 0 && At(cursors, d) + 1 < enforced[d] && At(served, d) < enforced[d]
            && At(cached, d) < enforced[d] {
      assert At(effective, d) < enforced[d];
      assert At(tail, d) + 1 < enforced[d];
    }
  }

  // ---------- keys ----------

  predicate HeldAt(keys: Keyring, epoch: int, k: Key)
  {
    exists id :: id in keys && id.epoch == epoch && keys[id] == k
  }

  // Unsealing authenticates everything but the envelope's key-id hint.
  predicate Opens(o: SnapshotObject, k: Key, kidOf: Key -> nat)
  {
    && o.Sealed? && o.wck == k
    && o.doc.stamp == o.envelope.(kid := kidOf(k))
  }

  // The exact-kid key first, then every key held at the epoch: the hint orders the
  // candidates and never excludes one.
  method WckCandidates(keys: Keyring, epoch: int, kid: nat) returns (candidates: seq<Key>)
    ensures forall k :: k in candidates <==> HeldAt(keys, epoch, k)
    ensures KeyId(epoch, kid) in keys ==> candidates != [] && candidates[0] == keys[KeyId(epoch, kid)]
  {
    candidates := [];
    if KeyId(epoch, kid) in keys {
      candidates := [keys[KeyId(epoch, kid)]];
    }
    var todo := keys.Keys;
    while todo != {}
      invariant todo <= keys.Keys
      invariant forall k :: k in candidates ==> HeldAt(keys, epoch, k)
      invariant forall id :: id in keys && id !in todo && id.epoch == epoch ==> keys[id] in candidates
      invariant KeyId(epoch, kid) in keys ==> candidates != [] && candidates[0] == keys[KeyId(epoch, kid)]
      decreases |todo|
    {
      var id :| id in todo;
      if id.epoch == epoch {
        candidates := candidates + [keys[id]];
      }
      todo := todo - {id};
    }
  }

  // ---------- what makes a recovery acceptable, in no particular order ----------

  // Who the recovering device is and whom it trusts.
  datatype Local = Local(workspace: nat, approved: map<Device, Key>, kidOf: Key -> nat)

  predicate TrustedManifest(local: Local, view: HubView)
  {
    && view.retention.Got? && DurabilityMirror.Parses(view.retention.value)
    && var m := view.retention.value.m;
       && m.producedBy in local.approved && local.approved[m.producedBy] == m.signedWith
       && m.stamp.producedBy == m.producedBy
  }

  // Everything up to the choice of a key.
  predicate GenuineObject(local: Local, view: HubView, cached: Floors, cursors: map<Device, int>)
  {
    && TrustedManifest(local, view)
    && view.enforced.Got? && !FloorsMoved(view.enforced.value, view.retention.value.m.floors, cached, cursors)
    && view.fetched == Got(view.retention.value.m.snapshot)
    && view.fetched.value.Sealed? && view.fetched.value.envelope == view.retention.value.m.stamp
  }

  // What the fetched object must be for this manifest, with these keys.
  ghost predicate Importable(local: Local, m: Manifest, o: SnapshotObject, keys: Keyring)
  {
    && o.Sealed? && o.envelope == m.stamp
    && (exists k :: HeldAt(keys, o.envelope.epoch, k) && Opens(o, k, local.kidOf))
    && o.doc.workspace == local.workspace && o.doc.stamp == o.envelope
    && FloorsEqual(o.doc.floors, m.floors)
  }

  ghost predicate Acceptable(local: Local, view: HubView, cached: Floors, cursors: map<Device, int>, keys: Keyring)
  {
    GenuineObject(local, view, cached, cursors)
    && Importable(local, view.retention.value.m, view.fetched.value, keys)
  }

  // So only what the producer's own key signed, about the producer's own snapshot, sealed under a key
  // held at its epoch, is ever imported.
  lemma AcceptableIsGenuine(local: Local, view: HubView, cached: Floors, cursors: map<Device, int>, keys: Keyring)
    requires Acceptable(local, view, cached, cursors, keys)
    ensures view.retention.Got? && view.retention.value.Doc?
    ensures var m := view.retention.value.m;
            && m.producedBy in local.approved && m.signedWith == local.approved[m.producedBy]
            && view.fetched == Got(m.snapshot) && m.snapshot.Sealed? && m.snapshot.envelope == m.stamp
            && m.snapshot.doc.stamp == m.stamp && m.stamp.producedBy == m.producedBy
            && m.snapshot.doc.workspace == local.workspace && m.stamp.kid == local.kidOf(m.snapshot.wck)
            && exists id :: id in keys && id.epoch == m.stamp.epoch && keys[id] == m.snapshot.wck
    ensures forall d :: d in view.retention.value.m.floors ==> view.retention.value.m.floors[d] >= 0
  {
  }

  // ---------- the store ----------

  lemma ImportOneMore(cursors: map<Device, int>, floors: Floors, todo: set<Device>, d: Device)
    requires todo <= floors.Keys && d in todo
    ensures Retention.ImportedCursors(cursors, floors - (todo - {d})) ==
            var before := Retention.ImportedCursors(cursors, floors - todo);
            if floors[d] > 0 then Retention.Advanced(before, d, floors[d] - 1) else before
  {
    assert (floors - (todo - {d})).Keys == (floors - todo).Keys + {d};
  }

  lemma ImportedIsRaised(cursors: map<Device, int>, floors: Floors, todo: set<Device>)
    ensures Raised(cursors, Retention.ImportedCursors(cursors, floors - todo), floors)
  {
  }

  // Each cursor is as before or was raised to just below its floor.
  predicate Raised(before: map<Device, int>, after: map<Device, int>, floors: Floors)
  {
    && (forall d :: d in before ==> d in after && after[d] >= before[d])
    && forall d :: d in after ==> (d in before && after[d] == before[d]) || (d in floors && after[d] == floors[d] - 1)
  }

  // These floors are at or above all of the snapshot that was served.
  ghost predicate ImportedBelow(view: HubView, floors: Floors)
  {
    && view.fetched.Got? && view.fetched.value.Sealed?
    && forall d :: d in view.fetched.value.doc.floors ==> At(floors, d) >= view.fetched.value.doc.floors[d]
  }

  ghost predicate Rises(before: Floors, after: Floors)
  {
    forall d :: At(after, d) >= At(before, d)
  }

  lemma RisesTransitive(a: Floors, b: Floors, c: Floors)
    requires Rises(a, b) && Rises(b, c)
    ensures Rises(a, c)
  {
    forall d ensures At(c, d) >= At(a, d) {
      assert At(c, d) >= At(b, d) >= At(a, d);
    }
  }

  lemma StillImportedBelow(views: seq<HubView>, before: Floors, after: Floors)
    requires Rises(before, after)
    ensures forall view :: view in views && ImportedBelow(view, before) ==> ImportedBelow(view, after)
  {
  }

  // Pointwise the greater of the two.
  ghost predicate RaisedTo(before: Floors, floors: Floors, after: Floors)
  {
    forall d :: && At(after, d) >= At(before, d) && (d in floors ==> At(after, d) >= floors[d])
                && (At(after, d) == At(before, d) || (d in floors && At(after, d) == floors[d]))
  }

  class Store {
    const local: Local
    var cursors: map<Device, int>
    var has: set<Event>
    var cached: Floors
    var keys: Keyring

    constructor (local: Local, cursors: map<Device, int>, has: set<Event>, cached: Floors, keys: Keyring)
      ensures this.local == local && this.cursors == cursors && this.has == has && this.cached == cached
              && this.keys == keys
    {
      this.local, this.cursors, this.has, this.cached, this.keys := local, cursors, has, cached, keys;
    }

    // What the cursors claim to have consumed, the store has.
    predicate Honest()
      reads this
    {
      forall d :: d in cursors ==> HasBelow(has, d, cursors[d] + 1)
    }

    // One write per raised cursor, of which `budget` succeed.
    method AdvanceCursors(floors: Floors, budget: nat) returns (ok: bool, left: nat)
      modifies this`cursors
      ensures ok ==> cursors == Retention.ImportedCursors(old(cursors), floors)
      ensures Raised(old(cursors), cursors, floors)
      ensures budget >= |floors| ==> ok && left >= budget - |floors|
    {
      left := budget;
      var todo := floors.Keys;
      while todo != {}
        invariant todo <= floors.Keys && left + |floors| >= |todo| + budget
        invariant cursors == Retention.ImportedCursors(old(cursors), floors - todo)
        decreases |todo|
      {
        var d :| d in todo;
        ImportOneMore(old(cursors), floors, todo, d);
        if floors[d] > 0 {
          if left == 0 {
            ImportedIsRaised(old(cursors), floors, todo);
            return false, 0;
          }
          left := left - 1;
          cursors := Retention.Advanced(cursors, d, floors[d] - 1);
        }
        todo := todo - {d};
      }
      ImportedIsRaised(old(cursors), floors, {});
      assert floors - {} == floors;
      ok := true;
    }

    // ImportSnapshot: one merge transaction, then the cursors, then the floor cache; `budget`
    // of these writes succeed before the first failure.
    method ImportSnapshot(doc: Document, budget: nat) returns (ok: bool)
      modifies this`cursors, this`has, this`cached
      ensures ok ==> has == old(has) + doc.covers
      ensures ok ==> cursors == Retention.ImportedCursors(old(cursors), doc.floors)
      // The verified floors are cached, and the cache never goes back.
      ensures !ok ==> cached == old(cached)
      ensures ok ==> RaisedTo(old(cached), doc.floors, cached)
      ensures ok ==>
                forall d :: At(cached, d) ==
                  if d in doc.floors && doc.floors[d] > At(old(cached), d) then doc.floors[d] else At(old(cached), d)
      ensures Raised(old(cursors), cursors, doc.floors)
      ensures has == old(has) + doc.covers || (has == old(has) && cursors == old(cursors))
      ensures old(Honest()) && Covers(doc.covers, doc.floors) ==> Honest()
      ensures budget > |doc.floors| + 1 ==> ok
    {
      if budget == 0 {
        return false;
      }
      has := has + doc.covers;
      var advanced, left := AdvanceCursors(doc.floors, budget - 1);
      if old(Honest()) && Covers(doc.covers, doc.floors) {
        PartialImportIsHonest(doc, old(cursors), old(has));
      }
      if !advanced || left == 0 {
        return false;
      }
      CacheRetentionFloor(doc.floors);
      ok := true;
    }

    // Merges verified floors into the cache.
    method CacheRetentionFloor(floors: Floors)
      modifies this`cached
      ensures RaisedTo(old(cached), floors, cached)
      ensures forall d :: At(cached, d) ==
                if d in floors && floors[d] > At(old(cached), d) then floors[d] else At(old(cached), d)
    {
      var todo := floors.Keys;
      while todo != {}
        invariant todo <= floors.Keys
        invariant forall d :: At(cached, d) ==
                    if d in floors && d !in todo && floors[d] > At(old(cached), d) then floors[d]
                    else At(old(cached), d)
        decreases |todo|
      {
        var d :| d in todo;
        if floors[d] > At(cached, d) {
          cached := cached[d := floors[d]];
        }
        todo := todo - {d};
      }
    }

    // However far it got, every cursor is as before or where the snapshot allows it.
    lemma PartialImportIsHonest(doc: Document, cursors0: map<Device, int>, has0: set<Event>)
      requires has == has0 + doc.covers && Raised(cursors0, cursors, doc.floors)
      requires Covers(doc.covers, doc.floors)
      requires forall d :: d in cursors0 ==> HasBelow(has0, d, cursors0[d] + 1)
      ensures Honest()
    {
      forall d | d in cursors ensures HasBelow(has, d, cursors[d] + 1) {
        if d in cursors0 && cursors[d] == cursors0[d] {
          assert HasBelow(has0, d, cursors0[d] + 1);
        } else {
          assert HasBelow(doc.covers, d, doc.floors[d]);
        }
      }
    }

    method RecoverFromSnapshot(view: HubView, primes: bool, budget: nat) returns (r: Outcome)
      modifies this
      // The tail pull keeps the grants it carries; nothing else changes unless the import began.
      ensures keys == old(keys) || keys == old(keys) + view.grants
      ensures !r.Accepted() ==> cursors == old(cursors) && has == old(has) && cached == old(cached)
      // Fail closed, and exactly so.
      ensures primes ==> (r.Accepted() <==> Acceptable(local, view, old(cached), old(cursors), old(keys) + view.grants))
      ensures r.Accepted() ==> Acceptable(local, view, old(cached), old(cursors), old(keys) + view.grants)
      ensures r == AwaitingGrant <==>
              && primes && GenuineObject(local, view, old(cached), old(cursors))
              && !exists k :: HeldAt(old(keys) + view.grants, view.fetched.value.envelope.epoch, k)
      // A completed import.
      ensures r in {Imported, BlobPullFailed} ==>
              && has == old(has) + view.fetched.value.doc.covers
              && cursors == Retention.ImportedCursors(old(cursors), view.fetched.value.doc.floors)
              && RaisedTo(old(cached), view.fetched.value.doc.floors, cached)
      ensures r !in {Imported, BlobPullFailed} ==> cached == old(cached)
      ensures r == Imported ==> view.blobs
      ensures r.Accepted() && view.blobs && budget > |view.fetched.value.doc.floors| + 1 ==> r == Imported
      // However far the import got, cursors only moved forward and stay honest.
      ensures r.Accepted() ==> Raised(old(cursors), cursors, view.fetched.value.doc.floors)
      ensures forall d :: d in old(cursors) ==> d in cursors && cursors[d] >= old(cursors)[d]
      ensures old(has) <= has
      ensures old(Honest()) ==>
                (r.Accepted() ==> Covers(view.fetched.value.doc.covers, view.fetched.value.doc.floors)) ==> Honest()
    {
      var why := ManifestRefusal(view);
      if why.Some? {
        return Rejected(why.value);
      }
      var m := view.retention.value.m;
      if view.enforced.Unavailable? {
        return Rejected(TailFailed);
      }
      var refused := TailRefused(view.enforced.value, m.floors);
      if refused {
        return Rejected(FloorMoved);
      }
      keys := keys + view.grants;
      if view.fetched.Unavailable? {
        return Rejected(ObjectUnavailable);
      }
      var o := view.fetched.value;
      if o != m.snapshot {
        return Rejected(HashMismatch);
      }
      r := OpenAndImport(m, o, view.blobs, primes, budget);
    }

    // Why the manifest is not one to recover from, if so.
    method ManifestRefusal(view: HubView) returns (why: Option<Reason>)
      ensures why == None <==> TrustedManifest(local, view)
      ensures why.Some? <==> why in {Some(NoManifest), Some(ManifestUnreadable), Some(UntrustedProducer),
                                     Some(BadManifestSignature), Some(ForeignSnapshot)}
    {
      if view.retention.Unavailable? {
        return Some(NoManifest);
      }
      if !DurabilityMirror.Parses(view.retention.value) {
        return Some(ManifestUnreadable);
      }
      var m := view.retention.value.m;
      if m.producedBy !in local.approved {
        return Some(UntrustedProducer);
      }
      if local.approved[m.producedBy] != m.signedWith {
        return Some(BadManifestSignature);
      }
      if m.stamp.producedBy != m.producedBy {
        return Some(ForeignSnapshot);
      }
      why := None;
    }

    // One recovery, as the floor cache sees it.
    method RecoverOnce(view: HubView, primes: bool, budget: nat) returns (r: Outcome)
      modifies this
      ensures Rises(old(cached), cached)
      ensures r in {Imported, BlobPullFailed} ==> ImportedBelow(view, cached)
    {
      r := RecoverFromSnapshot(view, primes, budget);
    }

    // Any number of recoveries, whatever the hub serves and wherever they are cut: the cache only
    // rises, so the floors a later recovery works with are at least every floor ever imported.
    method RecoverRepeatedly(views: seq<HubView>, primes: seq<bool>, budgets: seq<nat>, served: Floors)
      returns (outcomes: seq<Outcome>, effective: Floors)
      requires |views| == |primes| == |budgets| && forall d :: d in served ==> served[d] >= 0
      modifies this
      ensures |outcomes| == |views| && Rises(old(cached), cached) && Rises(served, effective)
      ensures Rises(cached, effective)
      ensures forall i :: 0 <= i < |views| && outcomes[i] in {Imported, BlobPullFailed} ==>
                ImportedBelow(views[i], effective)
    {
      outcomes := [];
      for i := 0 to |views|
        invariant |outcomes| == i && Rises(old(cached), cached)
        invariant forall k :: 0 <= k < i && outcomes[k] in {Imported, BlobPullFailed} ==>
                    ImportedBelow(views[k], cached)
      {
        ghost var before := cached;
        var r := RecoverOnce(views[i], primes[i], budgets[i]);
        outcomes := outcomes + [r];
        RisesTransitive(old(cached), before, cached);
        StillImportedBelow(views, before, cached);
      }
      effective := EffectiveFloors(served, cached);
      StillImportedBelow(views, cached, effective);
    }

    // Whether the provisional tail pull runs into the retention gate.
    method TailRefused(enforced: Floors, served: Floors) returns (refused: bool)
      requires forall d :: d in served ==> served[d] >= 0
      ensures refused <==> FloorsMoved(enforced, served, cached, cursors)
    {
      var effective := EffectiveFloors(served, cached);
      var tail := TailCursor(cursors, effective);
      TailPassesUnlessFloorsMoved(enforced, served, cached, cursors, effective, tail);
      refused := DemandsSnapshot(enforced, tail);
    }

    // From the fetched, hash-checked object on.
    method OpenAndImport(m: Manifest, o: SnapshotObject, blobs: bool, primes: bool, budget: nat) returns (r: Outcome)
      modifies this`cursors, this`has, this`cached
      ensures !r.Accepted() ==> cursors == old(cursors) && has == old(has) && cached == old(cached)
      ensures r.Accepted() ==> primes
      ensures primes ==> (r.Accepted() <==> Importable(local, m, o, keys))
      ensures r == AwaitingGrant <==>
              primes && o.Sealed? && o.envelope == m.stamp && !exists k :: HeldAt(keys, o.envelope.epoch, k)
      ensures r in {Imported, BlobPullFailed} ==>
              && has == old(has) + o.doc.covers
              && cursors == Retention.ImportedCursors(old(cursors), o.doc.floors)
              && RaisedTo(old(cached), o.doc.floors, cached)
      ensures r !in {Imported, BlobPullFailed} ==> cached == old(cached)
      ensures r == Imported ==> blobs
      ensures r.Accepted() && blobs && budget > |o.doc.floors| + 1 ==> r == Imported
      ensures r.Accepted() ==> Raised(old(cursors), cursors, o.doc.floors)
      ensures old(has) <= has
      ensures old(Honest()) && (r.Accepted() ==> Covers(o.doc.covers, o.doc.floors)) ==> Honest()
    {
      if !o.Sealed? {
        return Rejected(BadEnvelope);
      }
      if o.envelope != m.stamp {
        return Rejected(EnvelopeMismatch);
      }
      if !primes {
        return Rejected(KeyringFailed);
      }
      var candidates := WckCandidates(keys, o.envelope.epoch, o.envelope.kid);
      if candidates == [] {
        assert forall k :: HeldAt(keys, o.envelope.epoch, k) ==> k in candidates;
        return AwaitingGrant;
      }
      assert HeldAt(keys, o.envelope.epoch, candidates[0]);
      var unsealed := false;
      for i := 0 to |candidates|
        invariant !unsealed && forall j :: 0 <= j < i ==> !Opens(o, candidates[j], local.kidOf)
      {
        if Opens(o, candidates[i], local.kidOf) {
          unsealed := true;
          break;
        }
      }
      if !unsealed {
        return Rejected(Undecryptable);
      }
      if o.doc.workspace != local.workspace {
        return Rejected(WrongWorkspace);
      }
      if o.doc.stamp != o.envelope {
        return Rejected(DocumentIdentity);
      }
      var same := CompareFloors(o.doc.floors, m.floors);
      if !same {
        return Rejected(FloorMismatch);
      }
      var ok := ImportSnapshot(o.doc, budget);
      if !ok {
        return ImportIncomplete;
      }
      r := if blobs then Imported else BlobPullFailed;
    }
  }

  // ---------- no gap ----------

  // Held after importing m and then pulling everything the hub still serves.
  predicate Recovered(s: Retention.Sys, x: Retention.Actor, m: Manifest, e: Event)
  {
    || e in x.has + Coverage(m.snapshot)
    || (e !in s.gone && At(Retention.ImportedCursors(x.cursors, m.floors), e.dev) < e.at)
  }

  // With a covered manifest in force, the pull after the import is not refused, and a store
  // with any honest cursors ends up missing exactly the deleted events that neither it nor
  // the snapshot holds: none outside the streams reclaimed from revoked devices.
  lemma RecoveryLeavesNoGap(s: Retention.Sys, x: Retention.Actor, m: Manifest, e: Event)
    requires s.retention == Some(m) && Retention.ManifestCovered(m) && Retention.GoneBelowFloors(s)
    requires Retention.Honest(x) && Retention.Pushed(s, e)
    ensures !DemandsSnapshot(m.floors, Retention.ImportedCursors(x.cursors, m.floors))
    ensures Recovered(s, x, m, e) <==> e in x.has || e in Coverage(m.snapshot) || e !in s.gone
    ensures e.dev !in s.cleaned ==> Recovered(s, x, m, e)
  {
    var cursors := Retention.ImportedCursors(x.cursors, m.floors);
    if e !in s.gone && e.at <= At(cursors, e.dev) {
      Retention.ImportStaysHonest(x, m);
      assert HasBelow(x.has + Coverage(m.snapshot), e.dev, cursors[e.dev] + 1);
    }
    if e in s.gone && e.dev !in s.cleaned {
      assert HasBelow(Coverage(m.snapshot), e.dev, m.floors[e.dev]);
    }
  }

  // The same as steps of the hub's own machine. After every run whose publishes were sighted,
  // a device that may import does so and pulls, and then holds every pushed event, as after a
  // full replay, except from reclaimed streams.
  lemma RecoveryTheorem(s: Retention.Sys, steps: seq<Retention.Step>, t: Retention.Sys, a: Retention.ActorId)
    returns (pulls: seq<Retention.Step>, u: Retention.Sys)
    requires Retention.Init(s) && Retention.Run(s, steps, t) && Retention.SightedRun(s, steps)
    requires Retention.Enabled(t, Retention.Import(a))
    ensures Retention.Run(t, [Retention.Import(a)] + pulls, u) && Retention.OnlyPulls(pulls, a)
    ensures u == t.(actors := u.actors) && a in u.actors
    ensures forall e :: Retention.Pushed(t, e) && e.dev !in t.cleaned ==> e in u.actors[a].has
    ensures forall e :: Retention.Pushed(t, e) && Retention.NeverRevoked(s, steps, e.dev) ==> e in u.actors[a].has
  {
    forall d | Retention.NeverRevoked(s, steps, d) ensures d !in t.cleaned {
      Retention.NeverRevokedIsNeverReclaimed(s, steps, t, d);
    }
    Retention.InitIsSafe(s);
    Retention.RunStaysSafe(s, steps, t);
    Retention.SightedRunStaysCovered(s, steps, t);
    pulls, u := Retention.ImportThenPullCatchesUp(t, a);
  }

  // ---------- what honest compactors publish ----------

  // What a hub serves that has this manifest in force and lost nothing.
  function Served(m: Manifest, grants: Keyring): HubView
  {
    HubView(Got(Doc(m)), Got(m.floors), grants, Got(m.snapshot), true)
  }

  // After any run, whatever a compactor published with its own key, sealing under a key it names
  // rightly, is accepted by every device of the workspace that approved it and holds that key.
  lemma PublishedIsAcceptable(s: Retention.Sys, steps: seq<Retention.Step>, t: Retention.Sys, l: Retention.Step,
                              local: Local, cached: Floors, cursors: map<Device, int>, keys: Keyring)
    requires Retention.FloorsAboveOne(s) && Retention.Run(s, steps, t) && Retention.Enabled(t, l) && l.Publish?
    requires local.kidOf(l.wck) == l.stamp.kid && KeyId(l.stamp.epoch, l.stamp.kid) in keys
    requires keys[KeyId(l.stamp.epoch, l.stamp.kid)] == l.wck
    requires var reg := t.actors[l.a].reg;
             reg.workspace == local.workspace && reg.self in local.approved
             && reg.selfKey == Some(local.approved[reg.self])
    ensures var m := Retention.Next(t, l).actors[l.a].pc.m; Acceptable(local, Served(m, map[]), cached, cursors, keys)
  {
    Retention.RunKeepsFloorsAboveOne(s, steps, t);
    Retention.StepKeepsFloorsAboveOne(t, l);
    var u := Retention.Next(t, l);
    assert Retention.ActorAboveOne(u.actors[l.a]);
    var m := u.actors[l.a].pc.m;
    assert HeldAt(keys, m.snapshot.envelope.epoch, l.wck) && Opens(m.snapshot, l.wck, local.kidOf);
  }

  // ---------- documents that disagree with their manifest ----------

  // A document that passes the comparison with these floors but is not them: one device is
  // dropped for another at floor zero.
  lemma OtherDocument(served: Floors) returns (doc: Floors, lost: Device)
    requires served != map[]
    ensures FloorsEqual(doc, served) && lost in served && lost !in doc
  {
    assert served.Keys != {};
    lost :| lost in served;
    var unused := FreshDevice(served.Keys);
    doc := (served - {lost})[unused := 0];
    assert (served - {lost}).Keys == served.Keys - {lost};
    assert doc.Keys == served.Keys - {lost} + {unused};
    assert |doc.Keys| == |served.Keys|;
  }

  // In the order the comparison is called, document first, every manifest with any floor admits
  // another document, and only the empty one does not.
  lemma AnotherDocumentPassesIffNonEmpty(served: Floors)
    ensures (exists doc :: doc != served && FloorsEqual(doc, served)) <==> served != map[]
  {
    if served != map[] {
      var doc, lost := OtherDocument(served);
      assert doc != served && FloorsEqual(doc, served);
    }
    forall doc | served == map[] && FloorsEqual(doc, served) ensures doc == served {
      assert |doc.Keys| == 0;
    }
  }

  // Honest floors do not help: for whatever is in force after any run, there is a document that
  // passes and whose import leaves a new device still below a floor, so the next pull demands a
  // snapshot again.
  lemma FloorsInForceAdmitAnotherDocument(s: Retention.Sys, steps: seq<Retention.Step>, t: Retention.Sys)
    returns (doc: Floors)
    requires Retention.Init(s) && Retention.Run(s, steps, t) && t.retention.Some? && t.retention.value.floors != map[]
    ensures doc != t.retention.value.floors && FloorsEqual(doc, t.retention.value.floors)
    ensures DemandsSnapshot(t.retention.value.floors, Retention.ImportedCursors(map[], doc))
  {
    Retention.RunKeepsFloorsAboveOne(s, steps, t);
    var lost;
    doc, lost := OtherDocument(t.retention.value.floors);
    assert At(Retention.ImportedCursors(map[], doc), lost) == 0;
  }

  // A recovery whose manifest lists these floors and whose sealed document lists others.
  function Mismatched(served: Floors, doc: Floors): HubView
  {
    var stamp := Stamp(1, 1, 0, 5);
    var o := Sealed(stamp, 7, Document(0, stamp, doc, {}));
    HubView(Got(Doc(Manifest(0, served, stamp, o, 1, 5, 10, None))), Got(served), map[KeyId(1, 0) := 7], Got(o), true)
  }

  // And recovery accepts it: the check against the signed manifest passes and the other
  // document is imported.
  method AcceptsAnotherDocument(served: Floors, doc: Floors) returns (store: Store, r: Outcome)
    requires (forall d :: d in served ==> served[d] >= 0) && FloorsEqual(doc, served) && doc != served
    ensures fresh(store) && r == Imported && store.cursors == Retention.ImportedCursors(map[], doc)
  {
    store := new Store(Local.Local(0, map[1 := 10], (k: Key) => 0), map[], {}, map[], map[]);
    var view := Mismatched(served, doc);
    MismatchedIsAcceptable(store.local, served, doc);
    r := store.RecoverFromSnapshot(view, true, |doc| + 2);
  }

  lemma MismatchedIsAcceptable(local: Local, served: Floors, doc: Floors)
    requires (forall d :: d in served ==> served[d] >= 0) && FloorsEqual(doc, served)
    requires local.workspace == 0 && local.approved == map[1 := 10] && local.kidOf(7) == 0
    ensures Acceptable(local, Mismatched(served, doc), map[], map[], map[] + Mismatched(served, doc).grants)
  {
    var view := Mismatched(served, doc);
    var keys: Keyring := map[] + view.grants;
    assert KeyId(1, 0) in keys && keys[KeyId(1, 0)] == 7;
    assert HeldAt(keys, 1, 7) && Opens(view.fetched.value, 7, local.kidOf);
  }
}
