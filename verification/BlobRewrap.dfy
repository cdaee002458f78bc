/**
 Re-encryption of blobs after a device is revoked: put the new blob, push the superseding
 events, then delete the old blob, at once or from a queue on a later sync. Any step may
 fail, land unacknowledged or end in a crash; what must hold at every exit is that the
 blob named by the latest hub event of each active project is still on the hub.
 */
module BlobRewrap {
  import opened Common

  type Ref = nat

  // What a blob pointer belongs to: a project's env profile or its draft.
  datatype Slot = Env(project: nat) | Draft(project: nat)

  datatype Event = Event(slot: Slot, ref: Ref, hlc: nat)

  datatype Pointer = Pointer(ref: Ref, hlc: nat)

  // A local row naming a blob. A draft keeps superseded rows until they are pruned.
  datatype Row = Row(slot: Slot, ref: Ref)

  type Pointers = map<Slot, Pointer>

  // ---------- last writer wins on the hub ----------

  function Apply(latest: Pointers, e: Event): Pointers
  {
    if e.slot in latest && latest[e.slot].hlc >= e.hlc then latest else latest[e.slot := Pointer(e.ref, e.hlc)]
  }

  function AfterPush(latest: Pointers, events: seq<Event>): Pointers
  {
    if events == [] then latest else Apply(AfterPush(latest, events[..|events| - 1]), events[|events| - 1])
  }

  // Every active project's pointer resolves.
  predicate Live(latest: Pointers, blobs: set<Ref>, active: set<nat>)
  {
    forall slot :: slot in latest && slot.project in active ==> latest[slot].ref in blobs
  }

  // A slot's pointer after a push is what it was or one of the events, and no event beats it.
  lemma {:induction false} PointerAfterPush(latest: Pointers, events: seq<Event>, slot: Slot)
    ensures slot in latest ==>
              slot in AfterPush(latest, events) && AfterPush(latest, events)[slot].hlc >= latest[slot].hlc
    ensures slot in AfterPush(latest, events) ==>
              var p := AfterPush(latest, events)[slot];
              (slot in latest && p == latest[slot]) || Event(slot, p.ref, p.hlc) in events
    ensures slot in AfterPush(latest, events) && slot in latest && AfterPush(latest, events)[slot] != latest[slot] ==>
              AfterPush(latest, events)[slot].hlc > latest[slot].hlc
    ensures forall e :: e in events && e.slot == slot ==>
              slot in AfterPush(latest, events) && AfterPush(latest, events)[slot].hlc >= e.hlc
  {
    if events != [] {
      PointerAfterPush(latest, events[..|events| - 1], slot);
    }
  }

  lemma PushKeepsLive(latest: Pointers, events: seq<Event>, blobs: set<Ref>, active: set<nat>)
    requires Live(latest, blobs, active) && forall e :: e in events ==> e.ref in blobs
    ensures Live(AfterPush(latest, events), blobs, active)
  {
    forall slot | slot in AfterPush(latest, events) && slot.project in active
      ensures AfterPush(latest, events)[slot].ref in blobs
    {
      PointerAfterPush(latest, events, slot);
    }
  }

  // Once the superseding events are on the hub the old blob may go exactly when every active
  // slot whose latest hub event names it was superseded. A pointer whose local replacement
  // was never pushed, or one this store has not seen, is the failing case.
  lemma DeleteSafeIffSuperseded(latest: Pointers, events: seq<Event>, blobs: set<Ref>, active: set<nat>, gone: Ref,
                                fresher: Ref)
    requires Live(latest, blobs, active) && fresher in blobs && fresher != gone
    requires forall e :: e in events ==> e.ref == fresher
    ensures Live(AfterPush(latest, events), blobs - {gone}, active) <==>
            forall slot :: slot in latest && slot.project in active && latest[slot].ref == gone ==>
              exists e :: e in events && e.slot == slot && e.hlc > latest[slot].hlc
  {
    var after := AfterPush(latest, events);
    PushKeepsLive(latest, events, blobs, active);
    forall slot | slot in latest && slot.project in active && latest[slot].ref == gone
      ensures slot in after
      ensures after[slot].ref != gone <==> exists e :: e in events && e.slot == slot && e.hlc > latest[slot].hlc
    {
      PointerAfterPush(latest, events, slot);
      if after[slot].ref != gone {
        assert Event(slot, after[slot].ref, after[slot].hlc) in events;
      }
    }
    forall slot | slot in after && slot.project in active && after[slot].ref == gone
      ensures slot in latest && latest[slot].ref == gone
    {
      PointerAfterPush(latest, events, slot);
    }
    if Live(after, blobs - {gone}, active) {
      forall slot | slot in latest && slot.project in active && latest[slot].ref == gone
        ensures exists e :: e in events && e.slot == slot && e.hlc > latest[slot].hlc
      {
        PointerAfterPush(latest, events, slot);
        assert after[slot].ref in blobs - {gone};
      }
    }
  }

  // ---------- the queue of blobs to delete later ----------

  predicate Overtaken(latest: Pointers, pending: seq<Event>, slot: Slot, hlc: nat)
  {
    || (slot in latest && latest[slot].hlc > hlc)
    || exists e :: e in pending && e.slot == slot && e.hlc > hlc
  }

  // A claim on ref by an active slot is still backed by a local row or about to be overtaken.
  predicate Settled(latest: Pointers, pending: seq<Event>, rows: seq<Row>, slot: Slot, ref: Ref, hlc: nat)
  {
    Row(slot, ref) in rows || Overtaken(latest, pending, slot, hlc)
  }

  // No pushed or pending claim on ref by an active slot is left unsettled, or is newer than
  // the local clock.
  predicate RefSettled(latest: Pointers, pending: seq<Event>, rows: seq<Row>, active: set<nat>, hlc: nat, ref: Ref)
  {
    && (forall slot :: slot in latest && slot.project in active && latest[slot].ref == ref ==>
          latest[slot].hlc <= hlc && Settled(latest, pending, rows, slot, ref, latest[slot].hlc))
    && forall e :: e in pending && e.slot.project in active && e.ref == ref ==>
         e.hlc <= hlc && Settled(latest, pending, rows, e.slot, ref, e.hlc)
  }

  predicate Referenced(rows: seq<Row>, ref: Ref)
  {
    exists i :: 0 <= i < |rows| && rows[i].ref == ref
  }

  // Any part of the pending events may reach the hub without unsettling a ref.
  lemma PushKeepsSettled(latest: Pointers, events: seq<Event>, pending: seq<Event>, rows: seq<Row>, active: set<nat>,
                         hlc: nat, ref: Ref)
    requires RefSettled(latest, pending, rows, active, hlc, ref)
    requires forall e :: e in events ==> e in pending
    ensures RefSettled(AfterPush(latest, events), pending, rows, active, hlc, ref)
  {
    var after := AfterPush(latest, events);
    forall slot | slot in after && slot.project in active && after[slot].ref == ref
      ensures Settled(after, pending, rows, slot, ref, after[slot].hlc)
    {
      PointerAfterPush(latest, events, slot);
      if slot in latest && after[slot] == latest[slot] {
        assert Settled(latest, pending, rows, slot, ref, latest[slot].hlc);
      } else {
        var e := Event(slot, ref, after[slot].hlc);
        assert e in events && e in pending;
        assert Settled(latest, pending, rows, slot, ref, e.hlc);
      }
    }
    forall e | e in pending && e.slot.project in active && e.ref == ref
      ensures Settled(after, pending, rows, e.slot, ref, e.hlc)
    {
      PointerAfterPush(latest, events, e.slot);
      assert Settled(latest, pending, rows, e.slot, ref, e.hlc);
    }
  }

  // With everything pushed, a settled ref that no row names is named by no active slot.
  lemma PushedOutIsUnnamed(latest: Pointers, pending: seq<Event>, rows: seq<Row>, active: set<nat>, hlc: nat,
                           ref: Ref, slot: Slot)
    requires RefSettled(AfterPush(latest, pending), pending, rows, active, hlc, ref) && !Referenced(rows, ref)
    requires slot in AfterPush(latest, pending) && slot.project in active
    ensures AfterPush(latest, pending)[slot].ref != ref
  {
    PointerAfterPush(latest, pending, slot);
    assert AfterPush(latest, pending)[slot].ref == ref ==>
             Settled(AfterPush(latest, pending), pending, rows, slot, ref, AfterPush(latest, pending)[slot].hlc);
  }

  // Afterwards nothing pending is needed to settle it.
  lemma PushedOutIsSettled(latest: Pointers, pending: seq<Event>, rows: seq<Row>, active: set<nat>, hlc: nat, ref: Ref)
    requires RefSettled(AfterPush(latest, pending), pending, rows, active, hlc, ref)
    ensures RefSettled(AfterPush(latest, pending), [], rows, active, hlc, ref)
  {
    var after := AfterPush(latest, pending);
    forall slot | slot in after && slot.project in active && after[slot].ref == ref
      ensures Settled(after, [], rows, slot, ref, after[slot].hlc)
    {
      PointerAfterPush(latest, pending, slot);
      assert Settled(after, pending, rows, slot, ref, after[slot].hlc);
    }
  }

  // A new local event for one slot, whatever it does to that slot's rows, unsettles nothing.
  lemma EmitKeepsSettled(latest: Pointers, pending: seq<Event>, rows: seq<Row>, active: set<nat>, hlc: nat, ref: Ref,
                         e: Event, rows': seq<Row>)
    requires RefSettled(latest, pending, rows, active, hlc, ref) && e.hlc == hlc + 1 && e.ref != ref
    requires forall x: Row :: x.slot != e.slot ==> (x in rows' <==> x in rows)
    ensures RefSettled(latest, pending + [e], rows', active, hlc + 1, ref)
  {
    var more := pending + [e];
    assert e in more;
    forall slot | slot in latest && slot.project in active && latest[slot].ref == ref
      ensures Settled(latest, more, rows', slot, ref, latest[slot].hlc)
    {
      assert Settled(latest, pending, rows, slot, ref, latest[slot].hlc);
    }
    forall c | c in more && c.slot.project in active && c.ref == ref
      ensures Settled(latest, more, rows', c.slot, ref, c.hlc)
    {
      assert c in pending;
      assert Settled(latest, pending, rows, c.slot, ref, c.hlc);
    }
  }

  // Every claim on ref that a row still backed is overtaken by one of these events.
  predicate Supersedes(events: seq<Event>, rows: seq<Row>, active: set<nat>, hlc: nat, ref: Ref)
  {
    forall x: Row :: x in rows && x.ref == ref && x.slot.project in active ==>
      exists e :: e in events && e.slot == x.slot && e.hlc > hlc
  }

  // So its rows may be repointed, and other refs do not notice.
  lemma RepointKeepsSettled(latest: Pointers, pending: seq<Event>, events: seq<Event>, rows: seq<Row>, rows': seq<Row>,
                            active: set<nat>, hlc: nat, ref: Ref, r: Ref, hlc': nat)
    requires RefSettled(latest, pending + events, rows, active, hlc', r)
    requires r == ref ==> Supersedes(events, rows, active, hlc, ref)
    requires r == ref ==>
               forall slot :: slot in latest && slot.project in active && latest[slot].ref == ref ==>
                 latest[slot].hlc <= hlc
    requires r == ref ==> (forall e :: e in pending ==> e.hlc <= hlc) && (forall e :: e in events ==> e.ref != ref)
    requires forall x: Row :: x in rows && x.ref != ref ==> x in rows'
    ensures RefSettled(latest, pending + events, rows', active, hlc', r)
  {
    var all := pending + events;
    forall slot | slot in latest && slot.project in active && latest[slot].ref == r
      ensures Settled(latest, all, rows', slot, r, latest[slot].hlc)
    {
      assert Settled(latest, all, rows, slot, r, latest[slot].hlc);
      if r == ref && Row(slot, ref) in rows {
        var e :| e in events && e.slot == slot && e.hlc > hlc;
        assert e in all;
      }
    }
    forall c | c in all && c.slot.project in active && c.ref == r
      ensures Settled(latest, all, rows', c.slot, r, c.hlc)
    {
      assert Settled(latest, all, rows, c.slot, r, c.hlc);
      if r == ref && Row(c.slot, ref) in rows {
        var e :| e in events && e.slot == c.slot && e.hlc > hlc;
        assert e in all;
      }
    }
  }

  // ---------- local rows ----------

  function Repointed(rows: seq<Row>, from: Ref, to: Ref): (r: seq<Row>)
    ensures |r| == |rows|
    ensures forall x: Row :: x in r <==> (x in rows && x.ref != from) || (x.ref == to && Row(x.slot, from) in rows)
  {
    if rows == [] then []
    else [if rows[0].ref == from then Row(rows[0].slot, to) else rows[0]] + Repointed(rows[1..], from, to)
  }

  // The superseding event's own row: an env profile is replaced, a draft gains a row.
  function Recorded(rows: seq<Row>, slot: Slot, to: Ref): (r: seq<Row>)
    ensures Row(slot, to) in r || (slot.Env? && forall x: Row :: x in rows ==> x.slot != slot)
    ensures forall x: Row :: x.slot != slot ==> (x in r <==> x in rows)
    ensures forall x: Row :: x in r && x.slot == slot ==> x.ref == to || (slot.Draft? && x in rows)
    ensures slot.Draft? ==> forall x: Row :: x in rows ==> x in r
  {
    if slot.Draft? then rows + [Row(slot, to)]
    else if rows == [] then []
    else [if rows[0].slot == slot then Row(slot, to) else rows[0]] + Recorded(rows[1..], slot, to)
  }

  // The slots whose rows a rewrap of ref supersedes: active env profiles, all drafts.
  predicate Superseding(env: bool, active: set<nat>, slot: Slot)
  {
    if env then slot.Env? && slot.project in active else slot.Draft?
  }

  class Workspace {
    const active: set<nat>
    const fate: nat -> Fate
    const landed: nat -> nat
    var latest: Pointers
    var blobs: set<Ref>
    var rows: seq<Row>
    var pending: seq<Event>
    var queue: set<Ref>
    var hlc: nat
    var tick: nat
    // The process died at its last step, and takes no other.
    ghost var dead: bool

    constructor (active: set<nat>, fate: nat -> Fate, landed: nat -> nat)
      ensures this.active == active && this.fate == fate && this.landed == landed
      ensures Safe() && latest == map[] && rows == [] && pending == [] && queue == {} && blobs == {}
      ensures hlc == 0 && !dead
    {
      this.active, this.fate, this.landed := active, fate, landed;
      latest, blobs, rows, pending, queue, hlc, tick, dead := map[], {}, [], [], {}, 0, 0, false;
    }

    ghost predicate Safe()
      reads this
    {
      && Live(latest, blobs, active)
      && (forall e :: e in pending ==> e.hlc <= hlc)
      && forall r :: r in queue ==> RefSettled(latest, pending, rows, active, hlc, r)
    }

    // This store has seen every active claim on ref: each is backed by a row that the rewrap
    // will supersede, and is no newer than the local clock.
    ghost predicate Seen(env: bool, ref: Ref)
      reads this
    {
      && (forall slot :: slot in latest && slot.project in active && latest[slot].ref == ref ==>
            latest[slot].hlc <= hlc && Row(slot, ref) in rows)
      && (forall e :: e in pending && e.slot.project in active && e.ref == ref ==>
            e.hlc <= hlc && Settled(latest, pending, rows, e.slot, ref, e.hlc))
      && forall x: Row :: x in rows && x.ref == ref && x.slot.project in active ==> Superseding(env, active, x.slot)
    }

    ghost predicate Undisturbed()
    {
      forall t :: fate(t) == Fine
    }

    method Step() returns (f: Fate)
      requires !dead
      modifies this`tick, this`dead
      ensures f == fate(old(tick)) && tick == old(tick) + 1 && dead == (f.Report() == Crashed)
    {
      f := fate(tick);
      tick := tick + 1;
      dead := f.Report() == Crashed;
    }

    // ---------- hub operations ----------

    method PutBlob(r: Ref) returns (rep: Report)
      requires !dead
      modifies this`tick, this`dead, this`blobs
      ensures old(blobs) <= blobs <= old(blobs) + {r} && (rep == Done ==> r in blobs)
      ensures Undisturbed() ==> rep == Done
      ensures dead == (rep == Crashed)
    {
      var f := Step();
      if f.Lands() { blobs := blobs + {r}; }
      rep := f.Report();
    }

    // A push that is not acknowledged may have delivered any prefix.
    method Push(events: seq<Event>) returns (rep: Report, ghost sent: seq<Event>)
      requires !dead
      modifies this`tick, this`dead, this`latest
      ensures sent <= events && (rep == Done ==> sent == events) && latest == AfterPush(old(latest), sent)
      ensures Undisturbed() ==> rep == Done
      ensures dead == (rep == Crashed)
    {
      var some := landed(tick) % (|events| + 1);
      var f := Step();
      if f == Fine { some := |events|; }
      sent := events[..some];
      latest := AfterPush(latest, events[..some]);
      rep := f.Report();
    }

    method DeleteBlob(r: Ref) returns (rep: Report)
      requires !dead
      modifies this`tick, this`dead, this`blobs
      ensures blobs == old(blobs) || blobs == old(blobs) - {r}
      ensures rep == Done ==> blobs == old(blobs) - {r}
      ensures Undisturbed() ==> rep == Done
      ensures dead == (rep == Crashed)
    {
      var f := Step();
      if f.Lands() { blobs := blobs - {r}; }
      rep := f.Report();
    }

    // ---------- rewrapping one blob ----------

    // rewrapHubCleanup: its failures are logged, never fatal.
    method RewrapHubCleanup(gone: Ref, fresher: Ref, events: seq<Event>) returns (rep: Report)
      requires gone != fresher && forall e :: e in events ==> e in pending && e.ref == fresher
      requires !dead
      modifies this`tick, this`dead, this`blobs, this`latest
      ensures old(Safe()) && !Referenced(rows, gone) && RefSettled(old(latest), events, rows, active, hlc, gone) ==>
                Safe()
      ensures Undisturbed() && !Referenced(rows, gone) ==>
                blobs == old(blobs) + {fresher} - {gone} && latest == AfterPush(old(latest), events)
      ensures rep != Failed && dead == (rep == Crashed) && (Undisturbed() ==> rep == Done)
    {
      var put := PutBlob(fresher);
      if put != Done {
        return if put == Crashed then Crashed else Done;
      }
      ghost var safe := old(Safe());
      if |events| > 0 {
        var pushed; ghost var sent;
        pushed, sent := Push(events);
        if safe {
          PushKeepsLive(old(latest), sent, blobs, active);
          forall r | r in queue ensures RefSettled(latest, pending, rows, active, hlc, r) {
            PushKeepsSettled(old(latest), sent, pending, rows, active, hlc, r);
          }
        }
        if pushed != Done {
          return if pushed == Crashed then Crashed else Done;
        }
      }
      if Referenced(rows, gone) {
        return Done;
      }
      if safe && RefSettled(old(latest), events, rows, active, hlc, gone) {
        PushKeepsSettled(old(latest), events, events, rows, active, hlc, gone);
        forall slot | slot in latest && slot.project in active ensures latest[slot].ref != gone {
          PushedOutIsUnnamed(old(latest), events, rows, active, hlc, gone, slot);
        }
      }
      var deleted := DeleteBlob(gone);
      rep := if deleted == Crashed then Crashed else Done;
    }

    // The slots with a row naming ref that this rewrap supersedes, one per row.
    method RowsNaming(env: bool, ref: Ref) returns (named: seq<Slot>)
      ensures forall slot :: slot in named <==> Superseding(env, active, slot) && Row(slot, ref) in rows
    {
      named := [];
      for i := 0 to |rows|
        invariant forall slot :: slot in named <==> Superseding(env, active, slot) && Row(slot, ref) in rows[..i]
      {
        assert rows[..i + 1] == rows[..i] + [rows[i]];
        if rows[i].ref == ref && Superseding(env, active, rows[i].slot) {
          named := named + [rows[i].slot];
        }
      }
      assert rows[..|rows|] == rows;
    }

    // One superseding event and its row, in a single transaction.
    method EmitSuperseding(slot: Slot, to: Ref) returns (rep: Report, e: Event)
      requires !dead
      modifies this`tick, this`dead, this`rows, this`pending, this`hlc
      ensures e == Event(slot, to, old(hlc) + 1)
      ensures (pending == old(pending) + [e] && rows == Recorded(old(rows), slot, to) && hlc == old(hlc) + 1)
              || (rep != Done && pending == old(pending) && rows == old(rows) && hlc == old(hlc))
      ensures old(Safe()) && to !in queue ==> Safe()
      ensures forall r :: r != to && old(RefSettled(latest, pending, rows, active, hlc, r)) ==>
                RefSettled(latest, pending, rows, active, hlc, r)
      ensures Undisturbed() ==> rep == Done
      ensures dead == (rep == Crashed)
    {
      var f := Step();
      e := Event(slot, to, hlc + 1);
      if f.Lands() {
        forall r | r != to && RefSettled(latest, pending, rows, active, hlc, r)
          ensures RefSettled(latest, pending + [e], Recorded(rows, slot, to), active, hlc + 1, r)
        {
          EmitKeepsSettled(latest, pending, rows, active, hlc, r, e, Recorded(rows, slot, to));
        }
        hlc := hlc + 1;
        rows := Recorded(rows, slot, to);
        pending := pending + [e];
      }
      rep := f.Report();
    }

    // One superseding event per row, in order.
    method SupersedeAll(named: seq<Slot>, ref: Ref, fresher: Ref) returns (rep: Report, events: seq<Event>)
      requires ref != fresher && forall slot :: slot in named ==> Row(slot, ref) in rows
      requires !dead
      modifies this`tick, this`dead, this`rows, this`pending, this`hlc
      ensures old(Safe()) && fresher !in queue ==> Safe()
      ensures forall r :: r != fresher && old(RefSettled(latest, pending, rows, active, hlc, r)) ==>
                RefSettled(latest, pending, rows, active, hlc, r)
      ensures rep == Done ==> pending == old(pending) + events && |events| == |named|
      ensures rep == Done ==> forall i :: 0 <= i < |events| ==>
                events[i].slot == named[i] && events[i].ref == fresher && old(hlc) < events[i].hlc <= hlc
      ensures rep == Done ==> forall slot :: slot in named ==> Row(slot, fresher) in rows
      ensures forall e :: e in pending ==> e in old(pending) || (e.slot in named && e.ref == fresher)
      ensures forall x: Row :: x in rows && x.ref == ref ==> x in old(rows)
      ensures Undisturbed() ==> rep == Done
      ensures dead == (rep == Crashed)
    {
      events := [];
      for i := 0 to |named|
        invariant !dead && (old(Safe()) && fresher !in queue ==> Safe())
        invariant forall r :: r != fresher && old(RefSettled(latest, pending, rows, active, hlc, r)) ==>
                    RefSettled(latest, pending, rows, active, hlc, r)
        invariant pending == old(pending) + events && |events| == i && hlc >= old(hlc)
        invariant forall j :: 0 <= j < i ==>
                    events[j].slot == named[j] && events[j].ref == fresher && old(hlc) < events[j].hlc <= hlc
        invariant forall slot :: slot in named ==>
                    Row(slot, fresher) in rows || (slot !in named[..i] && Row(slot, ref) in rows)
        invariant forall x: Row :: x in rows && x.ref == ref ==> x in old(rows)
      {
        assert named[..i + 1] == named[..i] + [named[i]];
        var emitted, e := EmitSuperseding(named[i], fresher);
        if emitted != Done {
          return emitted, events;
        }
        events := events + [e];
      }
      assert named[..|named|] == named;
      rep := Done;
    }

    // The local half of a rewrap: superseding events with their rows, then every other row
    // naming the old blob is repointed.
    method SupersedeAndRepoint(env: bool, ref: Ref, fresher: Ref) returns (rep: Report, events: seq<Event>)
      requires ref != fresher
      requires !dead
      modifies this`tick, this`dead, this`rows, this`pending, this`hlc
      ensures old(Safe()) && old(Seen(env, ref)) && fresher !in queue ==>
                && Safe()
                && (rep == Done ==>
                      && RefSettled(latest, pending, rows, active, hlc, ref)
                      && RefSettled(latest, events, rows, active, hlc, ref))
      ensures rep == Done ==> pending == old(pending) + events && !Referenced(rows, ref)
      // Nothing is announced for an env profile of an inactive project, wherever this stops.
      ensures forall e :: e in pending && e !in old(pending) ==>
                e.ref == fresher && if env then e.slot.Env? && e.slot.project in active else e.slot.Draft?
      ensures rep == Done ==> forall e :: e in events ==>
                e.ref == fresher && e.hlc > old(hlc) && Superseding(env, active, e.slot)
                && Row(e.slot, ref) in old(rows)
      ensures rep == Done ==> forall slot :: Superseding(env, active, slot) && Row(slot, ref) in old(rows) ==>
                Row(slot, fresher) in rows && exists e :: e in events && e.slot == slot
      ensures Undisturbed() ==> rep == Done
      ensures dead == (rep == Crashed)
    {
      ghost var safe := old(Safe()) && old(Seen(env, ref)) && fresher !in queue;
      var named := RowsNaming(env, ref);
      rep, events := SupersedeAll(named, ref, fresher);
      if rep != Done {
        return;
      }
      assert forall i :: 0 <= i < |events| ==> events[i] in events;
      if safe {
        NamedAreSuperseded(env, ref, old(rows), named, events, old(hlc));
        assert old(RefSettled(latest, pending, rows, active, hlc, ref));
        forall r | r in queue + {ref}
          ensures RefSettled(latest, pending, Repointed(rows, ref, fresher), active, hlc, r)
        {
          RepointKeepsSettled(latest, old(pending), events, rows, Repointed(rows, ref, fresher), active, old(hlc),
                              ref, r, hlc);
        }
      }
      // UpdateBlobRef, one transaction.
      var f := Step();
      if f.Lands() {
        rows := Repointed(rows, ref, fresher);
      }
      rep := f.Report();
    }

    // The old ciphertext: the local copy, or the hub's when there is a hub.
    method ReadBlob(ref: Ref, cached: bool, online: bool) returns (rep: Report, got: bool)
      requires !dead
      modifies this`tick, this`dead
      ensures got ==> rep == Done && (cached || (online && ref in blobs))
      ensures rep != Failed && (cached ==> got && tick == old(tick))
      ensures Undisturbed() ==> rep == Done && (got <==> cached || (online && ref in blobs))
      ensures dead == (rep == Crashed)
    {
      if cached || !online {
        return Done, cached;
      }
      var f := Step();
      rep := if f.Report() == Crashed then Crashed else Done;
      got := f.Report() == Done && ref in blobs;
    }

    // rewrapEnvBlob and rewrapDraftBlob: a blob that cannot be read or decrypted is skipped.
    method RewrapBlob(env: bool, ref: Ref, fresher: Ref, cached: bool, decrypts: bool, online: bool)
      returns (rep: Report, rewrapped: bool)
      requires ref != fresher
      requires !dead
      modifies this`tick, this`dead, this`rows, this`pending, this`hlc, this`blobs, this`latest, this`queue
      ensures old(Safe()) && old(Seen(env, ref)) && fresher !in old(queue) ==> Safe()
      // A skipped blob leaves everything as it was.
      ensures rewrapped ==> rep == Done && decrypts && (cached || (online && ref in old(blobs)))
      // Nothing is superseded unless the new blob was first written locally.
      ensures cached && decrypts && fate(old(tick)) != Fine ==>
                && rep == fate(old(tick)).Report()
                && rows == old(rows) && pending == old(pending)
                && blobs == old(blobs) && latest == old(latest) && queue == old(queue)
      ensures rep == Done && !rewrapped ==>
                && rows == old(rows) && pending == old(pending) && hlc == old(hlc)
                && blobs == old(blobs) && latest == old(latest) && queue == old(queue)
      ensures Undisturbed() ==> rep == Done && (rewrapped <==> decrypts && (cached || (online && ref in old(blobs))))
      // An env rewrap announces only profiles of active projects, a draft rewrap only drafts.
      ensures forall e :: e in pending && e !in old(pending) ==>
                e.ref == fresher && if env then e.slot.Env? && e.slot.project in active else e.slot.Draft?
      // Undisturbed, the old blob is gone or queued and every superseded slot names the new one.
      ensures Undisturbed() && rewrapped ==> !Referenced(rows, ref)
      ensures Undisturbed() && rewrapped ==>
                if online then blobs == old(blobs) + {fresher} - {ref} && queue == old(queue)
                else blobs == old(blobs) && queue == old(queue) + {ref} && latest == old(latest)
      ensures Undisturbed() && rewrapped ==>
                forall slot :: Superseding(env, active, slot) && Row(slot, ref) in old(rows) ==>
                && Row(slot, fresher) in rows
                && exists e :: e in pending && e.slot == slot && e.ref == fresher && e.hlc > old(hlc)
      // The pointers of other slots stay as they were.
      ensures Undisturbed() && rewrapped && online ==>
                forall slot ::
                  slot in old(latest) && !(Superseding(env, active, slot) && Row(slot, ref) in old(rows)) ==>
                  slot in latest && latest[slot] == old(latest)[slot]
      // And then every pointer still resolves exactly when this store's rows, before the call, backed
      // every active pointer on the hub that named the old blob.
      ensures Undisturbed() && rewrapped && online && Live(old(latest), old(blobs), active)
              && (forall slot :: slot in old(latest) && slot.project in active ==>
                   old(latest)[slot].hlc <= old(hlc)) ==>
                (Live(latest, blobs, active) <==> BackedByRows(old(latest), old(rows), env, ref))
      ensures dead == (rep == Crashed)
    {
      var got;
      rep, got := ReadBlob(ref, cached, online);
      if rep != Done || !got || !decrypts {
        return rep, false;
      }
      // writeEnvBlob, a local file.
      var written := Step();
      if written.Report() != Done {
        return written.Report(), false;
      }
      var events;
      rep, events := SupersedeAndRepoint(env, ref, fresher);
      if rep != Done {
        return rep, false;
      }
      if online {
        rep := RewrapHubCleanup(ref, fresher, events);
        RewrapDangles(old(latest), old(blobs), old(rows), env, ref, fresher, events, old(hlc));
        forall slot | slot in old(latest) && !(Superseding(env, active, slot) && Row(slot, ref) in old(rows))
          ensures slot in AfterPush(old(latest), events) && AfterPush(old(latest), events)[slot] == old(latest)[slot]
        {
          PointerAfterPush(old(latest), events, slot);
        }
      } else {
        var q := Step();
        if q.Lands() {
          queue := queue + {ref};
        }
        // A failure to queue is logged only.
        rep := if q.Report() == Crashed then Crashed else Done;
      }
      rewrapped := rep == Done;
    }

    // Every active pointer on the hub that names ref is one this rewrap supersedes.
    predicate BackedByRows(latest0: Pointers, rows0: seq<Row>, env: bool, ref: Ref)
    {
      forall slot :: slot in latest0 && slot.project in active && latest0[slot].ref == ref ==>
        Superseding(env, active, slot) && Row(slot, ref) in rows0
    }

    lemma RewrapDangles(latest0: Pointers, blobs0: set<Ref>, rows0: seq<Row>, env: bool, ref: Ref, fresher: Ref,
                        events: seq<Event>, hlc0: nat)
      requires ref != fresher
      requires forall e :: e in events ==>
                 e.ref == fresher && e.hlc > hlc0 && Superseding(env, active, e.slot) && Row(e.slot, ref) in rows0
      requires forall slot :: Superseding(env, active, slot) && Row(slot, ref) in rows0 ==>
                 exists e :: e in events && e.slot == slot
      ensures Live(latest0, blobs0, active)
              && (forall slot :: slot in latest0 && slot.project in active ==> latest0[slot].hlc <= hlc0) ==>
                (Live(AfterPush(latest0, events), blobs0 + {fresher} - {ref}, active) <==>
                 BackedByRows(latest0, rows0, env, ref))
    {
      if Live(latest0, blobs0, active)
         && (forall slot :: slot in latest0 && slot.project in active ==> latest0[slot].hlc <= hlc0) {
        DeleteSafeIffSuperseded(latest0, events, blobs0 + {fresher}, active, ref, fresher);
        forall slot | slot in latest0 && slot.project in active
          ensures (exists e :: e in events && e.slot == slot && e.hlc > latest0[slot].hlc) <==>
                  Superseding(env, active, slot) && Row(slot, ref) in rows0
        {
        }
      }
    }

    lemma NamedAreSuperseded(env: bool, ref: Ref, rows0: seq<Row>, named: seq<Slot>, events: seq<Event>, hlc0: nat)
      requires forall slot :: slot in named <==> Superseding(env, active, slot) && Row(slot, ref) in rows0
      requires |events| == |named| && forall i :: 0 <= i < |events| ==>
                 events[i].slot == named[i] && events[i].hlc > hlc0
      requires forall x: Row :: x in rows && x.ref == ref ==> x in rows0
      requires forall x: Row :: x in rows0 && x.ref == ref && x.slot.project in active ==>
                 Superseding(env, active, x.slot)
      ensures Supersedes(events, rows0, active, hlc0, ref) && Supersedes(events, rows, active, hlc0, ref)
    {
      forall x: Row | x in rows0 && x.ref == ref && x.slot.project in active
        ensures exists e :: e in events && e.slot == x.slot && e.hlc > hlc0
      {
        assert x == Row(x.slot, ref) && x.slot in named;
        var i :| 0 <= i < |named| && named[i] == x.slot;
        assert events[i] in events;
      }
    }

    // ---------- the sync cycle ----------

    // The push half of a sync: referenced blobs first, then the events, then the watermark.
    method PushPending() returns (rep: Report)
      requires !dead
      modifies this`tick, this`dead, this`blobs, this`latest, this`pending
      ensures old(Safe()) ==> Safe()
      ensures rep == Done ==> pending == [] && latest == AfterPush(old(latest), old(pending))
      ensures old(blobs) <= blobs
      ensures Undisturbed() ==> rep == Done && blobs == old(blobs) + (set e | e in old(pending) :: e.ref)
      ensures dead == (rep == Crashed)
    {
      for i := 0 to |pending|
        invariant !dead && pending == old(pending) && latest == old(latest)
        invariant old(blobs) <= blobs && forall j :: 0 <= j < i ==> pending[j].ref in blobs
        invariant Undisturbed() ==> blobs == old(blobs) + (set e | e in pending[..i] :: e.ref)
      {
        assert pending[..i + 1] == pending[..i] + [pending[i]];
        rep := PutBlob(pending[i].ref);
        if rep != Done {
          return;
        }
      }
      assert pending[..|pending|] == pending;
      ghost var sent;
      rep, sent := Push(pending);
      if old(Safe()) {
        PushKeepsLive(old(latest), sent, blobs, active);
        forall r | r in queue ensures RefSettled(latest, pending, rows, active, hlc, r) {
          PushKeepsSettled(old(latest), sent, pending, rows, active, hlc, r);
        }
      }
      if rep != Done {
        return;
      }
      var f := Step();
      if f.Lands() {
        if old(Safe()) {
          forall r | r in queue ensures RefSettled(latest, [], rows, active, hlc, r) {
            PushedOutIsSettled(old(latest), pending, rows, active, hlc, r);
          }
        }
        pending := [];
      }
      rep := f.Report();
    }

    // One queued blob: dropped from the queue when a row names it again, else deleted first.
    method DrainOne(ref: Ref) returns (crashed: bool)
      requires pending == [] && ref in queue
      requires !dead
      modifies this`tick, this`dead, this`blobs, this`queue
      ensures old(Safe()) ==> Safe()
      ensures queue == old(queue) || queue == old(queue) - {ref}
      ensures blobs == old(blobs) || (!Referenced(rows, ref) && blobs == old(blobs) - {ref})
      ensures Undisturbed() ==> !crashed && ref !in queue && (!Referenced(rows, ref) ==> ref !in blobs)
      ensures dead == crashed
      // It leaves the queue only once it is gone, or named again.
      ensures ref !in queue && !Referenced(rows, ref) ==> ref !in blobs
    {
      if !Referenced(rows, ref) {
        if old(Safe()) {
          forall slot | slot in latest && slot.project in active ensures latest[slot].ref != ref {
            PushedOutIsUnnamed(latest, [], rows, active, hlc, ref, slot);
          }
        }
        var deleted := DeleteBlob(ref);
        if deleted != Done {
          return deleted == Crashed;
        }
      }
      var f := Step();
      if f.Lands() { queue := queue - {ref}; }
      crashed := f.Report() == Crashed;
    }

    // Deletes queued blobs that no row names any more; it must follow a full push.
    method DrainPendingHubDeletes() returns (rep: Report)
      requires pending == []
      requires !dead
      modifies this`tick, this`dead, this`blobs, this`queue
      ensures old(Safe()) ==> Safe()
      ensures queue <= old(queue) && blobs <= old(blobs)
      ensures forall r :: r in old(blobs) && r !in blobs ==> r in old(queue) && !Referenced(rows, r)
      // What was not deleted stays queued.
      ensures forall r :: r in old(queue) && r !in queue && !Referenced(rows, r) ==> r !in blobs
      ensures Undisturbed() ==>
                rep == Done && queue == {} && forall r :: r in old(queue) && !Referenced(rows, r) ==> r !in blobs
      ensures dead == (rep == Crashed)
    {
      var todo := queue;
      while todo != {}
        invariant !dead && todo <= old(queue) && todo <= queue <= old(queue) && blobs <= old(blobs)
        invariant forall r :: r in old(queue) && r !in queue && !Referenced(rows, r) ==> r !in blobs
        invariant old(Safe()) ==> Safe()
        invariant forall r :: r in old(blobs) && r !in blobs ==> r in old(queue) && !Referenced(rows, r)
        invariant Undisturbed() ==>
                    queue == todo && forall r :: r in old(queue) && r !in todo && !Referenced(rows, r) ==> r !in blobs
        decreases |todo|
      {
        var ref :| ref in todo;
        todo := todo - {ref};
        var crashed := DrainOne(ref);
        if crashed {
          return Crashed;
        }
      }
      rep := Done;
    }

    method Sync() returns (rep: Report)
      requires !dead
      modifies this`tick, this`dead, this`blobs, this`latest, this`pending, this`queue
      ensures old(Safe()) ==> Safe()
      ensures Undisturbed() ==>
                rep == Done && pending == [] && queue == {} && latest == AfterPush(old(latest), old(pending))
      ensures forall r :: r in old(queue) && r !in queue && !Referenced(rows, r) ==> r !in blobs
      ensures dead == (rep == Crashed)
    {
      rep := PushPending();
      if rep != Done {
        return;
      }
      rep := DrainPendingHubDeletes();
    }

    // ---------- what else happens in between ----------

    // A new capture of this store's own, under a fresh blob.
    method Capture(slot: Slot, ref: Ref)
      modifies this`rows, this`pending, this`hlc
      ensures old(Safe()) && ref !in queue ==> Safe()
      ensures Row(slot, ref) in rows && pending == old(pending) + [Event(slot, ref, hlc)] && hlc == old(hlc) + 1
      ensures forall x: Row :: x.slot != slot ==> (x in rows <==> x in old(rows))
      ensures forall x: Row :: x in rows && x.slot == slot ==> x.ref == ref || (slot.Draft? && x in old(rows))
    {
      var e := Event(slot, ref, hlc + 1);
      var recorded := Recorded(rows, slot, ref);
      if Row(slot, ref) !in recorded { recorded := recorded + [Row(slot, ref)]; }
      forall r | r != ref && RefSettled(latest, pending, rows, active, hlc, r)
        ensures RefSettled(latest, pending + [e], recorded, active, hlc + 1, r)
      {
        EmitKeepsSettled(latest, pending, rows, active, hlc, r, e, recorded);
      }
      rows, pending, hlc := recorded, pending + [e], hlc + 1;
    }

    // A peer's event, published in the same order: blob before event.
    method PeerPush(e: Event)
      requires e.ref !in queue
      modifies this`blobs, this`latest
      ensures old(Safe()) ==> Safe()
      ensures latest == Apply(old(latest), e)
    {
      blobs := blobs + {e.ref};
      forall r | r in queue && RefSettled(latest, pending, rows, active, hlc, r)
        ensures RefSettled(Apply(latest, e), pending, rows, active, hlc, r)
      {
        PeerKeepsSettled(latest, pending, rows, active, hlc, r, e);
      }
      latest := Apply(latest, e);
    }
  }

  // Two projects share a blob, pushed to the hub.
  method SharedBlob() returns (w: Workspace)
    ensures fresh(w) && !w.dead && w.active == {0, 1} && w.Undisturbed() && w.Safe() && w.pending == [] && w.queue == {}
    ensures w.latest == map[Env(0) := Pointer(5, 1), Env(1) := Pointer(5, 2)] && w.hlc == 2
    ensures Row(Env(1), 5) in w.rows
  {
    w := CapturedTwice();
    PushesBoth();
    var rep := w.Sync();
  }

  method CapturedTwice() returns (w: Workspace)
    ensures fresh(w) && !w.dead && w.active == {0, 1} && w.Undisturbed() && w.Safe() && w.queue == {}
    ensures w.latest == map[] && w.pending == [Event(Env(0), 5, 1), Event(Env(1), 5, 2)] && w.hlc == 2
    ensures Row(Env(1), 5) in w.rows
  {
    w := new Workspace({0, 1}, _ => Fine, _ => 0);
    w.Capture(Env(0), 5);
    w.Capture(Env(1), 5);
  }

  lemma PushesBoth()
    ensures AfterPush(map[], [Event(Env(0), 5, 1), Event(Env(1), 5, 2)]) ==
            map[Env(0) := Pointer(5, 1), Env(1) := Pointer(5, 2)]
  {
    var first, second := Event(Env(0), 5, 1), Event(Env(1), 5, 2);
    assert [first, second][..1] == [first] && [first][..0] == [];
    assert AfterPush(map[], [first]) == map[Env(0) := Pointer(5, 1)];
  }

  // One of them is captured again but not pushed. Rewrapping the blob then deletes what that
  // project's pointer on the hub still names.
  method UnpushedReplacementDangles() returns (w: Workspace)
    ensures fresh(w) && w.active == {0, 1} && !Live(w.latest, w.blobs, w.active)
    ensures Env(0) in w.latest && w.latest[Env(0)].ref == 5 && 5 !in w.blobs
  {
    w := SharedBlob();
    w.Capture(Env(0), 7);
    assert Row(Env(0), 5) !in w.rows && Row(Env(1), 5) in w.rows;
    var rep, rewrapped := w.RewrapBlob(true, 5, 6, true, true, true);
  }

  lemma PeerKeepsSettled(latest: Pointers, pending: seq<Event>, rows: seq<Row>, active: set<nat>, hlc: nat, ref: Ref,
                         e: Event)
    requires RefSettled(latest, pending, rows, active, hlc, ref) && e.ref != ref
    ensures RefSettled(Apply(latest, e), pending, rows, active, hlc, ref)
  {
    var after := Apply(latest, e);
    forall slot | slot in after && slot.project in active && after[slot].ref == ref
      ensures after[slot].hlc <= hlc && Settled(after, pending, rows, slot, ref, after[slot].hlc)
    {
      assert Settled(latest, pending, rows, slot, ref, latest[slot].hlc);
    }
    forall c | c in pending && c.slot.project in active && c.ref == ref
      ensures Settled(after, pending, rows, c.slot, ref, c.hlc)
    {
      assert Settled(latest, pending, rows, c.slot, ref, c.hlc);
    }
  }

  // ---------- which draft is current after a revoke ----------

  // The draft rows one project keeps, superseded ones included.
  datatype DraftRow = DraftRow(ref: Ref, hlc: nat)

  function Newest(rows: seq<DraftRow>): (r: DraftRow)
    requires rows != []
    ensures r in rows && forall x :: x in rows ==> x.hlc <= r.hlc
  {
    var last := rows[|rows| - 1];
    if |rows| == 1 then last
    else
      var before := Newest(rows[..|rows| - 1]);
      if last.hlc >= before.hlc then last else before
  }

  predicate Names(rows: seq<DraftRow>, ref: Ref)
  {
    exists i :: 0 <= i < |rows| && rows[i].ref == ref
  }

  // Rewrapping one blob repoints its rows and records a superseding event for each of them.
  function RewrapDraft(rows: seq<DraftRow>, ref: Ref, fresher: Ref -> Ref, hlc: nat): seq<DraftRow>
  {
    seq(|rows|, i requires 0 <= i < |rows| => if rows[i].ref == ref then rows[i].(ref := fresher(ref)) else rows[i])
    + seq(Count(rows, ref), j requires j >= 0 => DraftRow(fresher(ref), hlc + 1 + j))
  }

  function Count(rows: seq<DraftRow>, ref: Ref): (n: nat)
    ensures n > 0 <==> Names(rows, ref)
  {
    if rows == [] then 0 else Count(rows[..|rows| - 1], ref) + if rows[|rows| - 1].ref == ref then 1 else 0
  }

  // The whole pass over this project's rows, blob by blob.
  function RewrapDrafts(rows: seq<DraftRow>, order: seq<Ref>, fresher: Ref -> Ref, hlc: nat): seq<DraftRow>
    decreases |order|
  {
    if order == [] then rows
    else RewrapDrafts(RewrapDraft(rows, order[0], fresher, hlc), order[1..], fresher, hlc + Count(rows, order[0]))
  }

  // The last blob in the pass that this project has a row for.
  function LastNamed(rows: seq<DraftRow>, order: seq<Ref>): Option<Ref>
  {
    if order == [] then None
    else
      var later := LastNamed(rows, order[1..]);
      if later.Some? then later else if Names(rows, order[0]) then Some(order[0]) else None
  }

  lemma RewrapDraftRows(rows: seq<DraftRow>, ref: Ref, fresher: Ref -> Ref, hlc: nat)
    ensures var after := RewrapDraft(rows, ref, fresher, hlc);
            && |after| == |rows| + Count(rows, ref)
            && (forall i :: 0 <= i < |rows| ==>
                  after[i] == if rows[i].ref == ref then DraftRow(fresher(ref), rows[i].hlc) else rows[i])
            && forall i :: |rows| <= i < |after| ==> after[i] == DraftRow(fresher(ref), hlc + 1 + i - |rows|)
  {
  }

  lemma UntouchedStayNamed(rows: seq<DraftRow>, after: seq<DraftRow>, ref: Ref, to: Ref, r: Ref)
    requires |after| >= |rows| && r != ref && r != to
    requires forall i :: 0 <= i < |rows| ==> after[i].ref == if rows[i].ref == ref then to else rows[i].ref
    requires forall i :: |rows| <= i < |after| ==> after[i].ref == to
    ensures Names(after, r) <==> Names(rows, r)
  {
    if Names(rows, r) {
      var i :| 0 <= i < |rows| && rows[i].ref == r;
      assert after[i].ref == r;
    }
    if Names(after, r) {
      var i :| 0 <= i < |after| && after[i].ref == r;
      assert i < |rows| && rows[i].ref == r;
    }
  }

  // The rewrapped blob, if the project has it, becomes current; other blobs stay as they are.
  lemma RewrapDraftStep(rows: seq<DraftRow>, ref: Ref, fresher: Ref -> Ref, hlc: nat)
    requires fresher(ref) != ref && forall x :: x in rows ==> x.hlc <= hlc
    ensures var after := RewrapDraft(rows, ref, fresher, hlc);
            && (!Names(rows, ref) ==> after == rows)
            && (Names(rows, ref) ==> after != [] && Newest(after).ref == fresher(ref))
            && (forall x :: x in after ==> x.hlc <= hlc + Count(rows, ref))
            && forall r :: r != ref && r != fresher(ref) ==> (Names(after, r) <==> Names(rows, r))
  {
    var after := RewrapDraft(rows, ref, fresher, hlc);
    RewrapDraftRows(rows, ref, fresher, hlc);
    assert forall i :: 0 <= i < |rows| ==> rows[i] in rows;
    if Names(rows, ref) {
      NewestIsAppended(rows, after, hlc, fresher(ref));
    } else {
      assert forall i :: 0 <= i < |rows| ==> rows[i].ref != ref;
      assert after == rows;
    }
    forall r | r != ref && r != fresher(ref) ensures Names(after, r) <==> Names(rows, r) {
      UntouchedStayNamed(rows, after, ref, fresher(ref), r);
    }
  }

  lemma NewestIsAppended(rows: seq<DraftRow>, after: seq<DraftRow>, hlc: nat, to: Ref)
    requires |after| > |rows|
    requires forall i :: 0 <= i < |rows| ==> after[i].hlc <= hlc
    requires forall i :: |rows| <= i < |after| ==> after[i].ref == to && after[i].hlc > hlc
    ensures Newest(after).ref == to
  {
    assert after[|rows|] in after && Newest(after).hlc >= after[|rows|].hlc > hlc;
    var i :| 0 <= i < |after| && after[i] == Newest(after);
    assert i >= |rows|;
  }

  lemma {:induction false} LastNamedAgrees(rows: seq<DraftRow>, after: seq<DraftRow>, order: seq<Ref>)
    requires forall r :: r in order ==> (Names(after, r) <==> Names(rows, r))
    ensures LastNamed(after, order) == LastNamed(rows, order)
  {
    if order != [] {
      LastNamedAgrees(rows, after, order[1..]);
      assert order[0] in order;
    }
  }

  predicate OncePerRef(order: seq<Ref>, fresher: Ref -> Ref)
  {
    && (forall i, j :: 0 <= i < j < |order| ==> order[i] != order[j])
    && forall r :: r in order ==> fresher(r) !in order
  }

  // The current draft of `final` is the last of the project's blobs in the pass, rewrapped.
  predicate EndsOnLast(rows: seq<DraftRow>, order: seq<Ref>, fresher: Ref -> Ref, final: seq<DraftRow>)
  {
    final != [] && match LastNamed(rows, order)
                   case None => final == rows
                   case Some(last) => Newest(final).ref == fresher(last)
  }

  lemma OneThenRest(rows: seq<DraftRow>, order: seq<Ref>, fresher: Ref -> Ref, hlc: nat, final: seq<DraftRow>)
    requires order != [] && OncePerRef(order, fresher) && forall x :: x in rows ==> x.hlc <= hlc
    requires EndsOnLast(RewrapDraft(rows, order[0], fresher, hlc), order[1..], fresher, final)
    ensures EndsOnLast(rows, order, fresher, final)
  {
    var after := RewrapDraft(rows, order[0], fresher, hlc);
    TailOncePerRef(order, fresher);
    RewrapDraftStep(rows, order[0], fresher, hlc);
    LastNamedAgrees(rows, after, order[1..]);
  }

  // After the pass a project's current draft is the blob of its that came last in the pass.
  lemma {:induction false} LastRewrappedBecomesCurrent(rows: seq<DraftRow>, order: seq<Ref>, fresher: Ref -> Ref,
                                                       hlc: nat)
    requires rows != [] && OncePerRef(order, fresher) && forall x :: x in rows ==> x.hlc <= hlc
    ensures EndsOnLast(rows, order, fresher, RewrapDrafts(rows, order, fresher, hlc))
    decreases |order|
  {
    if order != [] {
      var after := RewrapDraft(rows, order[0], fresher, hlc);
      TailOncePerRef(order, fresher);
      RewrapDraftStep(rows, order[0], fresher, hlc);
      RewrapDraftRows(rows, order[0], fresher, hlc);
      LastRewrappedBecomesCurrent(after, order[1..], fresher, hlc + Count(rows, order[0]));
      OneThenRest(rows, order, fresher, hlc, RewrapDrafts(rows, order, fresher, hlc));
    }
  }

  lemma TailOncePerRef(order: seq<Ref>, fresher: Ref -> Ref)
    requires order != [] && OncePerRef(order, fresher)
    ensures OncePerRef(order[1..], fresher) && fresher(order[0]) != order[0]
    ensures forall r :: r in order[1..] ==> r != order[0] && r != fresher(order[0])
  {
    assert order == [order[0]] + order[1..];
    assert order[0] in order;
    forall r | r in order[1..] ensures r != order[0] && fresher(r) !in order[1..] {
      var j :| 0 <= j < |order[1..]| && order[1..][j] == r;
      assert order[j + 1] == r;
      assert r in order;
    }
  }

  // So the pass keeps a project's current draft exactly when the blob that happens to come
  // last holds the same content as the one that was current: superseded rows are re-announced
  // with fresh clocks, and an older draft rewrapped last replaces the newer one everywhere.
  lemma RewrapKeepsCurrentDraftIff<C>(rows: seq<DraftRow>, order: seq<Ref>, fresher: Ref -> Ref, hlc: nat,
                                      content: Ref -> C)
    requires rows != [] && OncePerRef(order, fresher) && forall x :: x in rows ==> x.hlc <= hlc && x.ref in order
    requires forall r :: content(fresher(r)) == content(r)
    ensures RewrapDrafts(rows, order, fresher, hlc) != [] && LastNamed(rows, order).Some?
    ensures content(Newest(RewrapDrafts(rows, order, fresher, hlc)).ref) == content(Newest(rows).ref) <==>
            content(LastNamed(rows, order).value) == content(Newest(rows).ref)
  {
    LastRewrappedBecomesCurrent(rows, order, fresher, hlc);
    assert rows[0] in rows;
    NamedHasLast(rows, order, rows[0].ref);
  }

  lemma {:induction false} NamedHasLast(rows: seq<DraftRow>, order: seq<Ref>, ref: Ref)
    requires Names(rows, ref) && ref in order
    ensures LastNamed(rows, order).Some?
  {
    if order[0] != ref {
      NamedHasLast(rows, order[1..], ref);
    }
  }

  lemma LastOfTwo(rows: seq<DraftRow>, a: Ref, b: Ref)
    requires Names(rows, b)
    ensures LastNamed(rows, [a, b]) == Some(b)
  {
    assert [a, b][1..] == [b] && [b][1..] == [];
    assert LastNamed(rows, []) == None;
    assert LastNamed(rows, [b]) == Some(b);
  }

  // With the newer blob first in the pass, the older draft becomes current.
  lemma OlderDraftComesBack(older: Ref, newer: Ref, fresher: Ref -> Ref)
    requires older != newer && fresher(older) !in {older, newer} && fresher(newer) !in {older, newer}
    ensures var rows := [DraftRow(older, 1), DraftRow(newer, 2)];
            && Newest(rows).ref == newer
            && RewrapDrafts(rows, [newer, older], fresher, 2) != []
            && Newest(RewrapDrafts(rows, [newer, older], fresher, 2)).ref == fresher(older)
  {
    var rows := [DraftRow(older, 1), DraftRow(newer, 2)];
    assert rows[0].ref == older;
    LastOfTwo(rows, newer, older);
    LastRewrappedBecomesCurrent(rows, [newer, older], fresher, 2);
  }
}
