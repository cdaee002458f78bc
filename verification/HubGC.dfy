/**
 The hub-side sweep of unreferenced blobs: a completeness gate, a prune of superseded draft
 rows, one listing, and per blob a second look before it is deleted. Other devices re-put
 and remove blobs before any of the sweep's hub operations.
 */
module HubGC {
  import opened Common
  import EncryptedPull

  type Key = nat

  // The modification time a backend reports when it has none.
  const ZERO_TIME := -62_135_596_800_000_000_000

  datatype Info = Info(key: Key, modified: int)

  datatype PeerOp = Reput(key: Key, modified: int) | Remove(key: Key)

  // ---------- the completeness gate ----------

  datatype Pulled = Applied | SnapshotRequired | PullFailed

  datatype Conflict =
    | SamePath | PendingDelete | RenameTarget | EventVerification | UntrustworthyTime | HashChain | EventOmission

  // The kinds of open conflict that mean a pulled event was not applied.
  const QUARANTINE_KINDS: seq<Conflict> := [UntrustworthyTime, HashChain, EventVerification, EventOmission]

  // Everything the gate looks at. `second` is the pull after a snapshot recovery; the counters
  // of the pull and the store tables are those of the last pull.
  datatype View = View(first: Pulled, imported: Option<bool>, second: Pulled, blobs: bool,
                       stats: EncryptedPull.Stats, openSkipped: Option<nat>, grantWaits: Option<nat>,
                       cursorHeld: bool, quarantined: nat, open: set<Conflict>)

  // This store sees the whole event log.
  predicate Complete(v: View, allowOmission: bool)
  {
    && (v.first == Applied || (v.first == SnapshotRequired && v.imported == Some(true) && v.second == Applied))
    && v.blobs
    && v.stats == EncryptedPull.Stats(0, 0, 0)
    && v.openSkipped == Some(0) && v.grantWaits == Some(0)
    && !v.cursorHeld && v.quarantined == 0
    && forall c :: c in v.open && c in QUARANTINE_KINDS ==> allowOmission && c == EventOmission
  }

  method RefuseIfIncompleteView(v: View, allowOmission: bool) returns (ok: bool)
    ensures ok <==> Complete(v, allowOmission)
  {
    var pull := v.first;
    if pull == SnapshotRequired {
      if v.imported != Some(true) {
        return false;
      }
      pull := v.second;
    }
    if pull != Applied {
      return false;
    }
    if !v.blobs {
      return false;
    }
    if v.stats.truncated > 0 || v.stats.skipped > 0 || v.stats.undecryptable > 0 {
      return false;
    }
    if v.openSkipped == None || v.openSkipped.value > 0 {
      return false;
    }
    if v.grantWaits == None || v.grantWaits.value > 0 {
      return false;
    }
    if v.cursorHeld {
      return false;
    }
    if v.quarantined > 0 {
      return false;
    }
    for i := 0 to |QUARANTINE_KINDS|
      invariant forall j :: 0 <= j < i && QUARANTINE_KINDS[j] in v.open ==>
                  allowOmission && QUARANTINE_KINDS[j] == EventOmission
    {
      if allowOmission && QUARANTINE_KINDS[i] == EventOmission {
        continue;
      }
      if QUARANTINE_KINDS[i] in v.open {
        return false;
      }
    }
    ok := true;
  }

  // So past the gate, the last pull handed on every event the hub served, in order and in plain:
  // nothing held back, skipped or unreadable.
  lemma {:induction false} PassingGateSawTheBatch(v: View, allowOmission: bool, raw: seq<EncryptedPull.Event>,
                                                  held: set<EncryptedPull.Held>, g: EncryptedPull.Grace)
    requires Complete(v, allowOmission) && v.stats == EncryptedPull.Counts(raw, held, g)
    ensures EncryptedPull.Delivered(raw, held, g) == EncryptedPull.AllOpened(raw)
  {
    EncryptedPull.ClearIffAllReadable(raw, held, g);
  }

  // Each signal alone refuses, for the sweep and for compaction.
  lemma EverySignalRefuses(v: View, allowOmission: bool)
    ensures v.stats.truncated > 0 || v.stats.skipped > 0 || v.stats.undecryptable > 0 ==> !Complete(v, allowOmission)
    ensures v.openSkipped != Some(0) || v.grantWaits != Some(0) ==> !Complete(v, allowOmission)
    ensures v.cursorHeld || v.quarantined > 0 || !v.blobs ==> !Complete(v, allowOmission)
    ensures UntrustworthyTime in v.open || HashChain in v.open || EventVerification in v.open ==>
              !Complete(v, allowOmission)
    ensures v.first == PullFailed ==> !Complete(v, allowOmission)
    ensures v.first == SnapshotRequired && (v.imported != Some(true) || v.second != Applied) ==>
              !Complete(v, allowOmission)
  {
    assert QUARANTINE_KINDS[0] == UntrustworthyTime && QUARANTINE_KINDS[1] == HashChain;
    assert QUARANTINE_KINDS[2] == EventVerification;
  }

  // The sweep, unlike a compaction, never acts on an open omission alarm.
  lemma OmissionBlocksOnlyTheSweep(v: View)
    requires EventOmission in v.open
    ensures !Complete(v, false)
    ensures Complete(v, true) <==> Complete(v.(open := v.open - {EventOmission}), false)
  {
    assert QUARANTINE_KINDS[3] == EventOmission && EventOmission in QUARANTINE_KINDS;
  }

  // ---------- what stays referenced ----------

  // A project's draft rows, newest first; and the refs of the env bindings.
  datatype Rows = Rows(env: set<Key>, drafts: map<nat, seq<Key>>)

  function Keep(keep: int): nat
  {
    if keep < 1 then 1 else keep
  }

  function Newest(keep: int, rows: seq<Key>): seq<Key>
  {
    if Keep(keep) < |rows| then rows[..Keep(keep)] else rows
  }

  function Pruned(rows: Rows, keep: int): Rows
  {
    rows.(drafts := map p | p in rows.drafts :: Newest(keep, rows.drafts[p]))
  }

  function Retained(rows: Rows, keep: int): set<Key>
  {
    rows.env + set p, i | p in rows.drafts && 0 <= i < |Newest(keep, rows.drafts[p])| :: Newest(keep, rows.drafts[p])[i]
  }

  // What the env bindings name, and each project's newest drafts, as many as asked for but at least one.
  lemma RetainedIffNewest(rows: Rows, keep: int, k: Key)
    ensures k in Retained(rows, keep) <==>
            || k in rows.env
            || exists p, i: nat :: && p in rows.drafts && i < |rows.drafts[p]| && (i == 0 || i < keep)
                                   && rows.drafts[p][i] == k
  {
    forall p, i: nat | p in rows.drafts && i < |rows.drafts[p]| && (i == 0 || i < keep) && rows.drafts[p][i] == k
      ensures k in Retained(rows, keep)
    {
      assert Newest(keep, rows.drafts[p])[i] == k;
    }
  }

  // The preview and the real run mark from the same set: pruning drops nothing that is kept,
  // and after it every row left is kept.
  lemma PruningKeepsRetained(rows: Rows, keep: int)
    ensures Retained(Pruned(rows, keep), keep) == Retained(rows, keep)
    ensures forall p :: p in Pruned(rows, keep).drafts ==>
              forall r :: r in Pruned(rows, keep).drafts[p] ==> r in Retained(rows, keep)
    ensures forall p :: p in rows.drafts && rows.drafts[p] != [] ==> rows.drafts[p][0] in Retained(rows, keep)
  {
    var pruned := Pruned(rows, keep);
    assert forall p :: p in rows.drafts ==> Newest(keep, pruned.drafts[p]) == Newest(keep, rows.drafts[p]);
    forall p, i | p in rows.drafts && 0 <= i < |Newest(keep, rows.drafts[p])|
      ensures Newest(keep, rows.drafts[p])[i] in Retained(rows, keep)
    {
    }
    forall p | p in rows.drafts && rows.drafts[p] != [] ensures rows.drafts[p][0] in Retained(rows, keep) {
      assert Newest(keep, rows.drafts[p])[0] == rows.drafts[p][0];
    }
  }

  // ---------- the sweep ----------

  // Old enough to delete; a blob of unknown age never is.
  predicate Aged(modified: int, now: int, grace: int)
  {
    grace > 0 ==> modified != ZERO_TIME && now - modified >= grace
  }

  predicate CanGo(blobs: map<Key, int>, referenced: set<Key>, now: int, grace: int, k: Key)
  {
    k in blobs && k !in referenced && Aged(blobs[k], now, grace)
  }

  function Sweepable(blobs: map<Key, int>, referenced: set<Key>, now: int, grace: int): set<Key>
  {
    set k | k in blobs && CanGo(blobs, referenced, now, grace, k)
  }

  // Exactly the unreferenced blobs whose age is known and at least the grace, or any age without one.
  lemma SweepableIffOld(blobs: map<Key, int>, referenced: set<Key>, now: int, grace: int, k: Key)
    ensures k in Sweepable(blobs, referenced, now, grace) <==>
            && k in blobs && k !in referenced
            && (grace <= 0 || (blobs[k] != -62_135_596_800_000_000_000 && blobs[k] + grace <= now))
  {
  }

  // No clock makes a blob of unknown age sweepable.
  lemma UnknownAgeIsKept(blobs: map<Key, int>, referenced: set<Key>, now: int, grace: int, k: Key)
    requires grace > 0 && k in blobs && blobs[k] == -62_135_596_800_000_000_000
    ensures k !in Sweepable(blobs, referenced, now, grace)
  {
  }

  // What may go stays so while it is untouched and unreferenced, and a re-put brings it back.
  lemma SweepableUntilTouched(blobs: map<Key, int>, referenced: set<Key>, now: int, later: int, grace: int, k: Key,
                           at: int)
    requires k in Sweepable(blobs, referenced, now, grace) && now <= later
    ensures k in Sweepable(blobs, referenced, later, grace)
    ensures grace > 0 && later - grace < at ==> k !in Sweepable(blobs[k := at], referenced, later, grace)
  {
  }

  // What a sweep reports: counts, and the blobs it deleted or would have.
  datatype Tally = Tally(removed: nat, retained: nat, gone: nat, deleted: set<Key>) {
    // It accounts for n listed blobs.
    predicate Covers(n: nat)
    {
      removed + retained + gone == n && removed == |deleted|
    }
  }

  const NOTHING := Tally(0, 0, 0, {})

  function Counted(t: Tally, v: Verdict, k: Key): Tally
  {
    match v
    case Gone => t.(gone := t.gone + 1)
    case Deleted => t.(removed := t.removed + 1, deleted := t.deleted + {k})
    case _ => t.(retained := t.retained + 1)
  }

  lemma CountedCovers(t: Tally, n: nat, v: Verdict, k: Key)
    requires t.Covers(n) && k !in t.deleted
    ensures Counted(t, v, k).Covers(n + 1)
  {
  }

  // objs lists only these blobs, each at most once.
  predicate Accurate(objs: seq<Info>, blobs: map<Key, int>)
  {
    && (forall i, j :: 0 <= i < j < |objs| ==> objs[i].key != objs[j].key)
    && (forall i :: 0 <= i < |objs| ==> objs[i].key in blobs && blobs[objs[i].key] == objs[i].modified)
  }

  function KeysOf(objs: seq<Info>): set<Key>
  {
    set x | x in objs :: x.key
  }

  lemma KeysOfOneMore(objs: seq<Info>, blobs: map<Key, int>, i: nat)
    requires i < |objs| && Accurate(objs, blobs)
    ensures KeysOf(objs[..i + 1]) == KeysOf(objs[..i]) + {objs[i].key} && objs[i].key !in KeysOf(objs[..i])
    ensures objs[i].key in blobs && blobs[objs[i].key] == objs[i].modified
  {
    assert objs[..i + 1] == objs[..i] + [objs[i]];
  }

  // objs lists exactly these blobs, in some order.
  predicate Lists(objs: seq<Info>, blobs: map<Key, int>)
  {
    Accurate(objs, blobs) && forall k :: k in blobs ==> Info(k, blobs[k]) in objs
  }

  datatype Verdict = Referenced | Young | Refreshed | Gone | StatFailed | DeleteFailed | Deleted

  // What was read again, asked for and counted as deleted, after the blobs in `done`.
  predicate Swept(listed: map<Key, int>, done: set<Key>, referenced: set<Key>, now: int, grace: int, dryRun: bool,
                  reread: map<Key, int>, asked: set<Key>, deleted: set<Key>)
  {
    && (forall k :: k in reread ==>
          k in done && CanGo(listed, referenced, now, grace, k) && Aged(reread[k], now, grace))
    && asked + deleted <= reread.Keys
    && if dryRun then asked == {} else deleted <= asked
  }

  lemma SweptOneMore(listed: map<Key, int>, done: set<Key>, referenced: set<Key>, now: int, grace: int, dryRun: bool,
                     reread: map<Key, int>, asked: set<Key>, t: Tally, info: Info, v: Verdict,
                     after: map<Key, int>, more: set<Key>)
    requires Swept(listed, done, referenced, now, grace, dryRun, reread, asked, t.deleted)
    requires info.key in listed && listed[info.key] == info.modified
    requires after == reread || (info.key in after && after == reread[info.key := after[info.key]])
    requires after != reread ==> CanGo(listed, referenced, now, grace, info.key) && Aged(after[info.key], now, grace)
    requires asked <= more <= asked + {info.key} && (v == Deleted || info.key in more ==> info.key in after)
    requires if dryRun then more == asked else v == Deleted ==> info.key in more
    ensures Swept(listed, done + {info.key}, referenced, now, grace, dryRun, after, more,
                  Counted(t, v, info.key).deleted)
  {
  }

  // And with nobody in between, all that can go is gone.
  predicate SweptAll(listed: map<Key, int>, done: set<Key>, referenced: set<Key>, now: int, grace: int, dryRun: bool,
                     blobs: map<Key, int>, t: Tally)
  {
    && t.gone == 0 && blobs == (if dryRun then listed else listed - t.deleted)
    && forall k :: k in done && CanGo(listed, referenced, now, grace, k) ==> k in t.deleted
  }

  lemma SweptAllOneMore(listed: map<Key, int>, done: set<Key>, referenced: set<Key>, now: int, grace: int, dryRun: bool,
                        blobs: map<Key, int>, t: Tally, k: Key, v: Verdict, after: map<Key, int>)
    requires SweptAll(listed, done, referenced, now, grace, dryRun, blobs, t)
    requires v != Gone && (v == Deleted <==> CanGo(listed, referenced, now, grace, k))
    requires after == if v == Deleted && !dryRun then blobs - {k} else blobs
    ensures SweptAll(listed, done + {k}, referenced, now, grace, dryRun, after, Counted(t, v, k))
  {
    assert listed - (t.deleted + {k}) == listed - t.deleted - {k};
  }

  class Hub {
    const fate: nat -> Fate
    const peers: nat -> seq<PeerOp>
    var blobs: map<Key, int>
    var tick: nat
    // The blobs that passed both looks, each with the modification time of the second, and those
    // this sweep then asked the hub to delete, whether or not it was acknowledged.
    ghost var reread: map<Key, int>
    ghost var asked: set<Key>

    constructor (fate: nat -> Fate, peers: nat -> seq<PeerOp>, blobs: map<Key, int>)
      ensures this.fate == fate && this.peers == peers && this.blobs == blobs && Unused()
    {
      this.fate, this.peers, this.blobs, tick, asked, reread := fate, peers, blobs, 0, {}, map[];
    }

    ghost predicate Undisturbed()
    {
      forall t :: fate(t) == Fine && peers(t) == []
    }

    // No sweep has used this hub yet.
    ghost predicate Unused()
      reads this`asked, this`reread
    {
      asked == {} && reread == map[]
    }

    // No peer interferes, whatever fails.
    ghost predicate Alone()
    {
      forall t :: peers(t) == []
    }

    // The start of a hub operation: whatever the peers did, and this operation's fate.
    method Reach() returns (f: Fate)
      modifies this`blobs, this`tick
      ensures f == fate(old(tick)) && tick == old(tick) + 1
      ensures Alone() ==> blobs == old(blobs)
    {
      var ops := peers(tick);
      f := fate(tick);
      tick := tick + 1;
      for i := 0 to |ops|
        invariant tick == old(tick) + 1 && (ops == [] ==> blobs == old(blobs))
      {
        match ops[i]
        case Reput(k, modified) => blobs := blobs[k := modified];
        case Remove(k) => blobs := blobs - {k};
      }
    }

    method ListBlobs() returns (r: Option<seq<Info>>)
      modifies this`blobs, this`tick
      ensures r.Some? ==> Lists(r.value, blobs)
      ensures r.Some? <==> fate(old(tick)) == Fine
      ensures Alone() ==> blobs == old(blobs)
      ensures Undisturbed() ==> r.Some?
    {
      var f := Reach();
      if f != Fine {
        return None;
      }
      var objs: seq<Info> := [];
      var todo := blobs.Keys;
      while todo != {}
        invariant todo <= blobs.Keys
        invariant forall i, j :: 0 <= i < j < |objs| ==> objs[i].key != objs[j].key
        invariant forall i :: 0 <= i < |objs| ==>
                    objs[i].key in blobs && blobs[objs[i].key] == objs[i].modified && objs[i].key !in todo
        invariant forall k :: k in blobs && k !in todo ==> Info(k, blobs[k]) in objs
        decreases |todo|
      {
        var k :| k in todo;
        objs := objs + [Info(k, blobs[k])];
        todo := todo - {k};
      }
      r := Some(objs);
    }

    // One listed blob.
    method SweepOne(info: Info, referenced: set<Key>, now: int, grace: int, dryRun: bool) returns (v: Verdict)
      modifies this`blobs, this`tick, this`asked, this`reread
      ensures reread == old(reread) || (info.key in reread && reread == old(reread)[info.key := reread[info.key]])
      ensures reread != old(reread) ==>
                info.key !in referenced && Aged(info.modified, now, grace) && Aged(reread[info.key], now, grace)
      ensures old(asked) <= asked <= old(asked) + {info.key} && (dryRun ==> asked == old(asked))
      ensures v == Deleted || asked != old(asked) ==>
                info.key in reread && info.key !in referenced && Aged(info.modified, now, grace)
      ensures v == Deleted && !dryRun ==> info.key in asked
      // A look that fails keeps the blob, and only a confirmed deletion counts.
      ensures grace > 0 && v !in {Referenced, Young} && fate(old(tick)) != Fine ==>
                v == StatFailed && asked == old(asked) && reread == old(reread)
      ensures v == Deleted && !dryRun ==> info.key !in blobs && tick > 0 && fate(tick - 1) == Fine
      // With nobody else about, only what was asked for can be gone, and a time that was read is the blob's.
      ensures Alone() ==> forall k :: k in old(blobs) && (k !in blobs || blobs[k] != old(blobs)[k]) ==>
                            k == info.key && k in asked
      ensures Alone() && reread != old(reread) && grace > 0 ==>
                info.key in old(blobs) && reread[info.key] == old(blobs)[info.key]
      ensures Undisturbed() && info.key in old(blobs) && old(blobs)[info.key] == info.modified ==>
                && (v == Deleted <==> info.key !in referenced && Aged(info.modified, now, grace)) && v != Gone
                && blobs == if v == Deleted && !dryRun then old(blobs) - {info.key} else old(blobs)
    {
      var key := info.key;
      if key in referenced {
        return Referenced;
      }
      if grace > 0 && (info.modified == ZERO_TIME || now - info.modified < grace) {
        return Young;
      }
      var restat := info.modified;
      if grace > 0 {
        var f := Reach();
        if f != Fine {
          return StatFailed;
        }
        if key !in blobs {
          return Gone;
        }
        restat := blobs[key];
        if restat == ZERO_TIME || now - restat < grace {
          return Refreshed;
        }
      }
      reread := reread[key := restat];
      if dryRun {
        return Deleted;
      }
      var f := Reach();
      asked := asked + {key};
      if f.Lands() {
        blobs := blobs - {key};
      }
      v := if f == Fine then Deleted else DeleteFailed;
    }

    // The loop over the listing. A dry run counts what it would have deleted.
    method SweepListed(objs: seq<Info>, referenced: set<Key>, now: int, grace: int, dryRun: bool) returns (t: Tally)
      requires Unused() && Accurate(objs, blobs)
      modifies this`blobs, this`tick, this`asked, this`reread
      ensures t.Covers(|objs|)
      // Whatever the peers do, only blobs that were unreferenced and aged at both looks are asked for.
      ensures Swept(old(blobs), KeysOf(objs), referenced, now, grace, dryRun, reread, asked, t.deleted)
      ensures Alone() ==> old(blobs).Keys - blobs.Keys <= asked
      ensures Undisturbed() ==>
                SweptAll(old(blobs), KeysOf(objs), referenced, now, grace, dryRun, blobs, t)
    {
      ghost var listed := blobs;
      t := NOTHING;
      for i := 0 to |objs|
        invariant t.Covers(i)
        invariant Swept(listed, KeysOf(objs[..i]), referenced, now, grace, dryRun, reread, asked, t.deleted)
        invariant Alone() ==> listed.Keys - blobs.Keys <= asked
        invariant Undisturbed() ==> SweptAll(listed, KeysOf(objs[..i]), referenced, now, grace, dryRun, blobs, t)
      {
        var info := objs[i];
        ghost var done := KeysOf(objs[..i]);
        KeysOfOneMore(objs, listed, i);
        ghost var before, wanted, held := reread, asked, blobs;
        var v := SweepOne(info, referenced, now, grace, dryRun);
        CountedCovers(t, i, v, info.key);
        SweptOneMore(listed, done, referenced, now, grace, dryRun, before, wanted, t, info, v, reread, asked);
        if Undisturbed() {
          SweptAllOneMore(listed, done, referenced, now, grace, dryRun, held, t, info.key, v, blobs);
        }
        t := Counted(t, v, info.key);
      }
      assert objs[..|objs|] == objs;
    }

    method SweepAll(objs: seq<Info>, referenced: set<Key>, now: int, grace: int, dryRun: bool) returns (t: Tally)
      requires Unused() && Lists(objs, blobs)
      modifies this`blobs, this`tick, this`asked, this`reread
      ensures t.removed + t.retained + t.gone == |old(blobs)| && t.removed == |t.deleted|
      // Whatever is asked for or counted was listed and read again with a known time at least the
      // grace ago, both times, and nothing references it.
      ensures asked + t.deleted <= reread.Keys && (if dryRun then asked == {} else t.deleted <= asked)
      ensures forall k :: k in reread ==> k in old(blobs) && k !in referenced
      ensures grace > 0 ==> forall k :: k in reread ==>
                && old(blobs)[k] != ZERO_TIME && old(blobs)[k] + grace <= now
                && reread[k] != ZERO_TIME && reread[k] + grace <= now
      ensures Alone() ==> old(blobs).Keys - blobs.Keys <= asked
      ensures Undisturbed() ==>
                && t.deleted == Sweepable(old(blobs), referenced, now, grace) && t.gone == 0
                && blobs == if dryRun then old(blobs) else old(blobs) - t.deleted
    {
      ListedSize(objs, blobs);
      t := SweepListed(objs, referenced, now, grace, dryRun);
      if Undisturbed() {
        forall k | CanGo(old(blobs), referenced, now, grace, k) ensures k in t.deleted {
          assert Info(k, old(blobs)[k]) in objs;
        }
      }
    }
  }

  class Store {
    var rows: Rows

    constructor (rows: Rows)
      ensures this.rows == rows
    {
      this.rows := rows;
    }

    // hubGC. The lock outcome is the sweep lock's; a dry run neither takes it nor prunes.
    method Sweep(hub: Hub, view: View, locks: bool, prunes: bool, keep: int, grace: int, now: int, dryRun: bool)
      returns (ok: bool, t: Tally)
      requires hub.Unused()
      modifies this`rows, hub`blobs, hub`tick, hub`asked, hub`reread
      // Refused or failed early: nothing asked for, and nothing at all touched on an incomplete view.
      ensures ok ==> Complete(view, false)
      ensures !Complete(view, false) ==> rows == old(rows) && hub.blobs == old(hub.blobs)
      ensures !ok ==> hub.asked == {} && t == NOTHING
      ensures rows == old(rows) || (!dryRun && rows == Pruned(old(rows), keep))
      ensures ok ==> rows == (if dryRun then old(rows) else Pruned(old(rows), keep)) && (dryRun || (locks && prunes))
      ensures !dryRun && !(locks && prunes) ==> rows == old(rows) && hub.blobs == old(hub.blobs)
      // No row kept by the store, before or after, loses its blob to this sweep.
      ensures hub.asked + t.deleted <= hub.reread.Keys
      ensures forall k :: k in hub.reread ==> k !in Retained(old(rows), keep)
      ensures grace > 0 ==> forall k :: k in hub.reread ==> hub.reread[k] != ZERO_TIME && hub.reread[k] + grace <= now
      ensures if dryRun then hub.asked == {} else t.deleted <= hub.asked
      ensures hub.Alone() ==> old(hub.blobs).Keys - hub.blobs.Keys <= hub.asked
      // Undisturbed, a dry run names exactly what a real run deletes.
      ensures hub.Undisturbed() && locks && prunes ==> (ok <==> Complete(view, false))
      ensures hub.Undisturbed() && ok ==>
                && t.deleted == Sweepable(old(hub.blobs), Retained(old(rows), keep), now, grace)
                && t.gone == 0 && t.removed + t.retained == |old(hub.blobs)| && t.removed == |t.deleted|
                && hub.blobs == if dryRun then old(hub.blobs) else old(hub.blobs) - t.deleted
    {
      ok, t := false, NOTHING;
      var complete := RefuseIfIncompleteView(view, false);
      if !complete {
        return;
      }
      if !dryRun {
        if !locks {
          return;
        }
        if !prunes {
          return;
        }
        rows := Pruned(rows, keep);
      }
      PruningKeepsRetained(old(rows), keep);
      var objs := hub.ListBlobs();
      if objs == None {
        return;
      }
      var referenced := Retained(rows, keep);
      assert referenced == Retained(old(rows), keep);
      t := hub.SweepAll(objs.value, referenced, now, grace, dryRun);
      ok := true;
    }
  }

  lemma SomethingIsListed(objs: seq<Info>, blobs: map<Key, int>)
    requires blobs != map[]
    ensures Lists(objs, blobs) ==> objs != []
  {
    assert blobs.Keys != {};
    var k :| k in blobs.Keys;
    assert Lists(objs, blobs) ==> Info(k, blobs[k]) in objs;
  }

  lemma {:induction false} ListedSize(objs: seq<Info>, blobs: map<Key, int>)
    requires Lists(objs, blobs)
    ensures |objs| == |blobs|
    decreases |objs|
  {
    if objs == [] {
      if blobs != map[] {
        SomethingIsListed(objs, blobs);
      }
    } else {
      var n := |objs| - 1;
      var fewer := blobs - {objs[n].key};
      forall k | k in fewer ensures Info(k, fewer[k]) in objs[..n] {
        assert Info(k, blobs[k]) in objs;
      }
      ListedSize(objs[..n], fewer);
      assert fewer.Keys == blobs.Keys - {objs[n].key};
      assert |blobs.Keys| == |fewer.Keys| + 1;
    }
  }
}
