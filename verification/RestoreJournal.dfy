/**
 The journaled swap of restore targets: promotion moves every existing target
 aside, moves the staged replacements in, and records progress in a durable
 journal; recovery rolls the swap back, or forward once every target is done.

 Every file-system step consults a fault schedule, so a theorem about all
 schedules is a theorem about a cut at every rename and journal write.
 */
module RestoreJournal {
  import opened Common

  // What lives at a path: nothing, or a file or tree identified by its content.
  datatype Content = Absent | Item(id: int)

  datatype AsideSuffix = Bak(pid: int, nanos: int) | Foreign

  datatype Target = Target(name: string, staged: bool, existed: bool, done: bool, rolledBack: bool)

  datatype Journal = Journal(version: int, pid: int, suffix: AsideSuffix, targets: seq<Target>)

  datatype JournalFile = Missing | Corrupt | Saved(j: Journal)

  // Per target: the live path, its aside, its staged replacement; and the journal.
  datatype Disk = Disk(home: seq<Content>, aside: seq<Content>, stage: seq<Content>, journal: JournalFile)

  datatype Seen = Exists | NotExist | Unreadable

  datatype Recovery = Finished(rolledBack: bool) | Errored | Died

  datatype Promotion = Completed | PromotionFailed | PromotionDied

  // Where the recovery at the end of a promotion starts: its step, and the durable journal then.
  datatype Turn = Turn(at: nat, left: JournalFile)

  const JOURNAL_VERSION := 1

  // ---------- the journal ----------

  predicate ValidJournal(j: Journal, names: seq<string>)
  {
    && j.version == JOURNAL_VERSION
    && j.pid > 0
    && |j.targets| == |names|
    && j.suffix.Bak?
    && j.suffix.pid == j.pid
    && forall i :: 0 <= i < |names| ==>
         j.targets[i].name == names[i] && (j.targets[i].staged || j.targets[i].done)
  }

  // What recovery is willing to act on: no journal at all, or a well-formed one.
  predicate Trusted(f: JournalFile, names: seq<string>)
  {
    f == Missing || (f.Saved? && ValidJournal(f.j, names))
  }

  // Any one flaw is enough to refuse a journal.
  lemma FlawedJournalIsRefused(j: Journal, names: seq<string>)
    ensures j.version != 1 || j.pid <= 0 || |j.targets| != |names| ==> !ValidJournal(j, names)
    ensures j.suffix.Foreign? || (j.suffix.Bak? && j.suffix.pid != j.pid) ==> !ValidJournal(j, names)
    ensures (exists i :: 0 <= i < |names| && i < |j.targets|
                         && (j.targets[i].name != names[i] || !(j.targets[i].staged || j.targets[i].done))) ==>
              !ValidJournal(j, names)
  {
  }

  predicate AllDone(j: Journal)
  {
    forall i :: 0 <= i < |j.targets| ==> j.targets[i].done
  }

  // b is a plus possibly more rollback marks.
  predicate Progress(a: Journal, b: Journal)
  {
    && |a.targets| == |b.targets|
    && a.version == b.version && a.pid == b.pid && a.suffix == b.suffix
    && forall i :: 0 <= i < |a.targets| ==>
         && b.targets[i] == a.targets[i].(rolledBack := b.targets[i].rolledBack)
         && (a.targets[i].rolledBack ==> b.targets[i].rolledBack)
  }

  function PendingFrom(j: Journal, k: nat): nat
    requires k <= |j.targets|
    decreases |j.targets| - k
  {
    if k == |j.targets| then 0
    else (if j.targets[k].rolledBack then 0 else 1) + PendingFrom(j, k + 1)
  }

  // Targets whose reversal is not yet recorded.
  function Pending(j: Journal): nat { PendingFrom(j, 0) }

  // ---------- the disk against the pre-restore and incoming generations ----------

  predicate Shaped(d: Disk, n: nat)
  {
    |d.home| == n && |d.aside| == n && |d.stage| == n
  }

  predicate Matches(j: Journal, pre: seq<Content>, inc: seq<Content>)
    requires |pre| == |inc|
  {
    && |j.targets| == |pre|
    && forall i :: 0 <= i < |pre| ==>
         && (j.targets[i].staged <==> inc[i] != Absent)
         && (j.targets[i].existed <==> pre[i] != Absent)
         && (j.targets[i].staged || j.targets[i].done)
  }

  // Promotion runs in order: after a target that is not done, no staged one is.
  predicate InOrder(j: Journal)
  {
    forall i, k :: 0 <= i < k < |j.targets| && !j.targets[i].done ==> !(j.targets[k].staged && j.targets[k].done)
  }

  // This one target can still be returned to its pre-restore content.
  predicate TargetReversible(t: Target, home: Content, aside: Content, was: Content)
  {
    if t.staged && t.existed then
      (aside == was && !t.rolledBack) || (aside == Absent && home == was)
    else if t.staged then
      aside == Absent && (t.rolledBack ==> home == was)
    else
      aside == Absent && home == was
  }

  predicate Reversible(d: Disk, j: Journal, pre: seq<Content>)
    requires |d.home| == |d.aside| == |pre| == |j.targets|
  {
    forall i :: 0 <= i < |pre| ==> TargetReversible(j.targets[i], d.home[i], d.aside[i], pre[i])
  }

  predicate Committed(d: Disk, j: Journal, pre: seq<Content>, inc: seq<Content>)
    requires |d.home| == |d.aside| == |pre| == |inc| == |j.targets|
  {
    forall i :: 0 <= i < |pre| ==>
      && d.home[i] == (if inc[i] != Absent then inc[i] else pre[i])
      && ((j.targets[i].staged && j.targets[i].existed) || d.aside[i] == Absent)
  }

  // A journal on disk tells the truth about the disk.
  predicate Truthful(d: Disk, j: Journal, pre: seq<Content>, inc: seq<Content>)
  {
    && Shaped(d, |pre|) && |inc| == |pre|
    && Matches(j, pre, inc) && InOrder(j)
    && if AllDone(j) then Committed(d, j, pre, inc) else Reversible(d, j, pre)
  }

  predicate NoAsides(d: Disk)
  {
    forall i :: 0 <= i < |d.aside| ==> d.aside[i] == Absent
  }

  predicate AllOld(d: Disk, pre: seq<Content>)
  {
    d.home == pre && NoAsides(d) && d.journal == Missing
  }

  // Every staged target is new; a target absent from the archive is untouched.
  predicate AllNew(d: Disk, pre: seq<Content>, inc: seq<Content>)
  {
    && |d.home| == |pre| == |inc| && NoAsides(d) && d.journal == Missing
    && forall i :: 0 <= i < |pre| ==> d.home[i] == (if inc[i] != Absent then inc[i] else pre[i])
  }

  // What holds between any two steps of a restore or of its recoveries.
  predicate Sound(d: Disk, names: seq<string>, pre: seq<Content>, inc: seq<Content>)
  {
    && |pre| == |inc| == |names| && Shaped(d, |names|)
    && match d.journal
       case Missing => AllOld(d, pre) || AllNew(d, pre, inc)
       case Corrupt => false
       case Saved(j) => ValidJournal(j, names) && Truthful(d, j, pre, inc)
  }

  // The invariants recovery checks before it touches anything.
  predicate TargetIntact(t: Target, allDone: bool, home: Content, aside: Content)
  {
    || t.rolledBack
    || if allDone then (t.staged ==> home != Absent)
       else t.existed && t.staged ==> if t.done then aside != Absent else (aside == Absent ==> home != Absent)
  }

  predicate Intact(d: Disk, j: Journal)
    requires Shaped(d, |j.targets|)
  {
    forall i :: 0 <= i < |j.targets| ==> TargetIntact(j.targets[i], AllDone(j), d.home[i], d.aside[i])
  }

  // The one wedge: a promoted target whose aside is already back in place but
  // whose reversal was never recorded.
  predicate Limbo(d: Disk, j: Journal, i: nat)
    requires Shaped(d, |j.targets|) && i < |j.targets|
  {
    var t := j.targets[i];
    !AllDone(j) && t.staged && t.existed && t.done && !t.rolledBack && d.aside[i] == Absent
  }

  // ---------- facts about every reachable disk ----------

  // No loss before commit: old content is at home or at its aside.
  lemma OldContentSurvives(d: Disk, names: seq<string>, pre: seq<Content>, inc: seq<Content>, i: nat)
    requires Sound(d, names, pre, inc) && i < |pre|
    requires d.journal.Saved? && !AllDone(d.journal.j)
    ensures pre[i] != Absent ==> d.home[i] == pre[i] || d.aside[i] == pre[i]
    ensures Limbo(d, d.journal.j, i) ==> d.home[i] == pre[i]
  {
    assert TargetReversible(d.journal.j.targets[i], d.home[i], d.aside[i], pre[i]);
  }

  // From a reachable disk, recovery's own checks fail exactly in the wedge.
  lemma IntactUnlessLimbo(d: Disk, names: seq<string>, pre: seq<Content>, inc: seq<Content>)
    requires Sound(d, names, pre, inc) && d.journal.Saved?
    ensures Intact(d, d.journal.j) <==> !exists i: nat :: i < |names| && Limbo(d, d.journal.j, i)
  {
    var j := d.journal.j;
    if exists i: nat :: i < |names| && Limbo(d, j, i) {
      var i: nat :| i < |names| && Limbo(d, j, i);
      assert !TargetIntact(j.targets[i], AllDone(j), d.home[i], d.aside[i]);
    } else {
      forall i: nat | i < |j.targets|
        ensures TargetIntact(j.targets[i], AllDone(j), d.home[i], d.aside[i])
      {
        assert !Limbo(d, j, i);
        if !AllDone(j) {
          assert TargetReversible(j.targets[i], d.home[i], d.aside[i], pre[i]);
        }
      }
    }
  }

  // Only a target that is replaced, and not the last to be, can be wedged.
  predicate CanWedge(pre: seq<Content>, inc: seq<Content>, i: nat)
    requires |pre| == |inc|
  {
    i < |pre| && pre[i] != Absent && inc[i] != Absent && exists k :: i < k < |inc| && inc[k] != Absent
  }

  // On every reachable disk, and then only once target i was promoted and a later one was not.
  lemma LimboCanWedge(d: Disk, names: seq<string>, pre: seq<Content>, inc: seq<Content>, i: nat)
    requires Sound(d, names, pre, inc) && d.journal.Saved? && i < |names| && Limbo(d, d.journal.j, i)
    ensures CanWedge(pre, inc, i)
    ensures exists k :: i < k < |inc| && inc[k] != Absent && !d.journal.j.targets[k].done
  {
    var j := d.journal.j;
    var k :| 0 <= k < |j.targets| && !j.targets[k].done;
    assert j.targets[k].staged && inc[k] != Absent;
    assert i < k;
  }

  // The rollback measure never grows, and strictly falls when anything is recorded.
  lemma {:induction false} ProgressShrinks(a: Journal, b: Journal, k: nat)
    requires Progress(a, b) && k <= |a.targets|
    ensures PendingFrom(b, k) <= PendingFrom(a, k)
    ensures PendingFrom(b, k) == PendingFrom(a, k) ==> a.targets[k..] == b.targets[k..]
    decreases |a.targets| - k
  {
    if k < |a.targets| {
      ProgressShrinks(a, b, k + 1);
      assert a.targets[k..] == [a.targets[k]] + a.targets[k + 1..];
      assert b.targets[k..] == [b.targets[k]] + b.targets[k + 1..];
    }
  }

  lemma RollbackMeasure(a: Journal, b: Journal)
    requires Progress(a, b)
    ensures Pending(b) <= Pending(a)
    ensures a != b ==> Pending(b) < Pending(a)
    ensures AllDone(a) <==> AllDone(b)
  {
    ProgressShrinks(a, b, 0);
    assert a.targets[0..] == a.targets && b.targets[0..] == b.targets;
    if AllDone(b) {
      forall i | 0 <= i < |a.targets| ensures a.targets[i].done { assert b.targets[i].done; }
    }
  }

  lemma ProgressTransitive(a: Journal, b: Journal, c: Journal)
    requires Progress(a, b) && Progress(b, c)
    ensures Progress(a, c)
  {
    forall i | 0 <= i < |a.targets|
      ensures c.targets[i] == a.targets[i].(rolledBack := c.targets[i].rolledBack)
      ensures a.targets[i].rolledBack ==> c.targets[i].rolledBack
    {
      assert b.targets[i] == a.targets[i].(rolledBack := b.targets[i].rolledBack);
      assert c.targets[i] == b.targets[i].(rolledBack := c.targets[i].rolledBack);
    }
  }

  // Losing the newest marks keeps a journal truthful.
  lemma ReversibleForOlder(d: Disk, older: Journal, newer: Journal, pre: seq<Content>)
    requires Shaped(d, |pre|) && |pre| == |newer.targets|
    requires Progress(older, newer) && Reversible(d, newer, pre)
    ensures Reversible(d, older, pre)
  {
    forall i | 0 <= i < |pre|
      ensures TargetReversible(older.targets[i], d.home[i], d.aside[i], pre[i])
    {
      assert TargetReversible(newer.targets[i], d.home[i], d.aside[i], pre[i]);
      assert newer.targets[i] == older.targets[i].(rolledBack := newer.targets[i].rolledBack);
    }
  }

  lemma ProgressKeepsShape(a: Journal, b: Journal, names: seq<string>, pre: seq<Content>, inc: seq<Content>)
    requires Progress(a, b) && ValidJournal(a, names) && |pre| == |inc| == |names|
    ensures ValidJournal(b, names)
    ensures Matches(a, pre, inc) <==> Matches(b, pre, inc)
    ensures InOrder(a) <==> InOrder(b)
  {
    forall i | 0 <= i < |names|
      ensures b.targets[i] == a.targets[i].(rolledBack := b.targets[i].rolledBack)
    {
    }
  }

  // Rewriting target i (on disk and in the journal) keeps all others reversible.
  lemma ReversibleAfterStep(before: Disk, after: Disk, j: Journal, i: nat, t: Target, pre: seq<Content>)
    requires Shaped(before, |pre|) && |pre| == |j.targets| && i < |pre|
             && j.targets[i].(rolledBack := t.rolledBack) == t
    requires |after.home| == |after.aside| == |pre|
    requires after.home == before.home[i := after.home[i]] && after.aside == before.aside[i := after.aside[i]]
    requires forall k :: 0 <= k < |pre| && k != i ==>
               TargetReversible(j.targets[k], before.home[k], before.aside[k], pre[k])
    requires TargetReversible(t, after.home[i], after.aside[i], pre[i])
    ensures Reversible(after, j.(targets := j.targets[i := t]), pre)
  {
  }

  predicate ExistedIsOld(j: Journal, pre: seq<Content>)
    requires |pre| == |j.targets|
  {
    forall i :: 0 <= i < |pre| ==> (j.targets[i].existed <==> pre[i] != Absent)
  }

  // Once every reversal is recorded, the disk is exactly the pre-restore one.
  lemma AllReversedIsOld(d: Disk, j: Journal, pre: seq<Content>, inc: seq<Content>)
    requires Shaped(d, |pre|) && |pre| == |inc| && Matches(j, pre, inc) && Reversible(d, j, pre)
    requires forall i :: 0 <= i < |pre| ==> j.targets[i].rolledBack
    ensures d.home == pre && NoAsides(d)
  {
    forall i | 0 <= i < |pre| ensures d.home[i] == pre[i] && d.aside[i] == Absent {
      assert TargetReversible(j.targets[i], d.home[i], d.aside[i], pre[i]);
    }
  }

  // Every target but this one has its pre-restore content.
  predicate OldBut(d: Disk, slip: int, pre: seq<Content>)
  {
    |d.home| == |d.aside| == |pre|
    && forall i :: 0 <= i < |pre| && i != slip ==> d.home[i] == pre[i] && d.aside[i] == Absent
  }

  // From target i on, every target but this one is marked.
  predicate RecordedBut(j: Journal, i: nat, slip: int)
  {
    forall k :: i <= k < |j.targets| && k != slip ==> j.targets[k].rolledBack
  }

  lemma RecordedOneMore(a: Journal, b: Journal, i: nat)
    requires Progress(a, b) && i < |a.targets|
    ensures forall slip: int :: RecordedBut(a, i + 1, slip) && (b.targets[i].rolledBack || slip == i) ==>
                                  RecordedBut(b, i, slip)
    ensures RecordedBut(a, i + 1, -1) ==> RecordedBut(b, i, i)
  {
  }

  lemma ReversedIsOldBut(d: Disk, j: Journal, slip: int, pre: seq<Content>)
    requires Shaped(d, |pre|) && |j.targets| == |pre| && Reversible(d, j, pre) && ExistedIsOld(j, pre)
    requires RecordedBut(j, 0, slip)
    ensures OldBut(d, slip, pre)
  {
    forall i | 0 <= i < |pre| && i != slip ensures d.home[i] == pre[i] && d.aside[i] == Absent {
      assert TargetReversible(j.targets[i], d.home[i], d.aside[i], pre[i]);
    }
  }

  function Marked(j: Journal, i: nat): Journal
    requires i < |j.targets|
  {
    j.(targets := j.targets[i := j.targets[i].(rolledBack := true)])
  }

  lemma MarkIsProgress(j0: Journal, jd: Journal, j: Journal, marked: Journal, i: nat)
    requires Progress(j0, jd) && Progress(jd, j) && i < |j.targets|
    requires marked == Marked(j, i)
    ensures Progress(jd, marked) && Progress(j0, marked)
  {
    assert Progress(j, marked);
    ProgressTransitive(jd, j, marked);
    ProgressTransitive(j0, jd, marked);
  }

  // ---------- the stages of promotion ----------

  // No target has been reversed, and a target is done only if it is staged and promoted.
  predicate FreshJournal(j: Journal, pre: seq<Content>, inc: seq<Content>, promoted: nat)
    requires |pre| == |inc|
  {
    && Matches(j, pre, inc)
    && forall i :: 0 <= i < |pre| ==>
         && !j.targets[i].rolledBack
         && (j.targets[i].done <==> !j.targets[i].staged || i < promoted)
  }

  // The first k existing targets have been moved aside.
  predicate MovedAside(d: Disk, j: Journal, pre: seq<Content>, inc: seq<Content>, k: nat)
    requires |pre| == |inc| == |j.targets|
  {
    && Shaped(d, |pre|) && d.stage == inc
    && forall i :: 0 <= i < |pre| ==>
         if j.targets[i].staged && j.targets[i].existed && i < k
         then d.home[i] == Absent && d.aside[i] == pre[i]
         else d.home[i] == pre[i] && d.aside[i] == Absent
  }

  // All existing targets are aside, and the first k staged targets are in place.
  predicate Promoted(d: Disk, j: Journal, pre: seq<Content>, inc: seq<Content>, k: nat)
    requires |pre| == |inc| == |j.targets|
  {
    && Shaped(d, |pre|)
    && forall i :: 0 <= i < |pre| ==>
         if j.targets[i].staged
         then && d.home[i] == (if i < k then inc[i] else Absent)
              && (i >= k ==> d.stage[i] == inc[i])
              && d.aside[i] == (if j.targets[i].existed then pre[i] else Absent)
         else d.home[i] == pre[i] && d.aside[i] == Absent
  }

  lemma MovingIsSound(d: Disk, names: seq<string>, j: Journal, pre: seq<Content>, inc: seq<Content>, k: nat)
    requires |pre| == |inc| == |names| && d.journal == Saved(j) && ValidJournal(j, names)
    requires FreshJournal(j, pre, inc, 0) && MovedAside(d, j, pre, inc, k)
    ensures Sound(d, names, pre, inc)
  {
    if AllDone(j) {
      forall i | 0 <= i < |pre| ensures inc[i] == Absent {
        assert j.targets[i].done;
      }
    }
  }

  // Between two promotions the durable journal may lag the disk by one target.
  lemma PromotingIsSound(d: Disk, names: seq<string>, jd: Journal, pre: seq<Content>, inc: seq<Content>,
                         recorded: nat, k: nat)
    requires |pre| == |inc| == |names| && d.journal == Saved(jd) && ValidJournal(jd, names)
    requires FreshJournal(jd, pre, inc, recorded) && recorded <= k
    requires forall i :: recorded <= i < k < |pre| ==> jd.targets[i].staged
    requires Promoted(d, jd, pre, inc, k)
    ensures Sound(d, names, pre, inc)
  {
    if AllDone(jd) {
      forall i | 0 <= i < |pre| ensures i < recorded || inc[i] == Absent {
        assert jd.targets[i].done;
      }
    }
  }

  lemma MarkedIsFresh(j: Journal, names: seq<string>, i: nat, pre: seq<Content>, inc: seq<Content>)
    requires |pre| == |inc| == |names| && i < |names| && ValidJournal(j, names) && FreshJournal(j, pre, inc, i)
    ensures var marked := j.(targets := j.targets[i := j.targets[i].(done := true)]);
            ValidJournal(marked, names) && FreshJournal(marked, pre, inc, i + 1)
  {
  }

  lemma UnstagedIsPromoted(d: Disk, j: Journal, i: nat, pre: seq<Content>, inc: seq<Content>)
    requires |pre| == |inc| == |j.targets| && i < |pre| && !j.targets[i].staged
    requires FreshJournal(j, pre, inc, i) && Promoted(d, j, pre, inc, i)
    ensures FreshJournal(j, pre, inc, i + 1) && Promoted(d, j, pre, inc, i + 1)
  {
  }

  lemma MarkPromoted(d: Disk, names: seq<string>, j: Journal, marked: Journal, i: nat, pre: seq<Content>,
                     inc: seq<Content>)
    requires |pre| == |inc| == |names| && i < |names| && ValidJournal(j, names) && j.targets[i].staged
    requires FreshJournal(j, pre, inc, i) && Promoted(d, j, pre, inc, i + 1)
    requires marked == j.(targets := j.targets[i := j.targets[i].(done := true)])
    ensures ValidJournal(marked, names) && FreshJournal(marked, pre, inc, i + 1)
    ensures Promoted(d, marked, pre, inc, i + 1)
  {
    MarkedIsFresh(j, names, i, pre, inc);
  }

  // ---------- the state directory ----------

  class StateDir {
    const names: seq<string>
    // The fault schedule, and what a cut tree removal leaves behind.
    const fate: nat -> Fate
    const debris: nat -> Content
    var clock: nat
    var disk: Disk
    // The temporary file of a journal write.
    var temp: JournalFile
    // The process died at its last durable step, and takes no other.
    ghost var dead: bool

    constructor (names: seq<string>, fate: nat -> Fate, debris: nat -> Content, disk: Disk)
      ensures this.names == names && this.fate == fate && this.debris == debris
      ensures this.disk == disk && clock == 0 && !dead
    {
      this.names, this.fate, this.debris := names, fate, debris;
      this.disk, clock, temp, dead := disk, 0, Missing, false;
    }

    // No fault from here on.
    ghost predicate Calm()
      reads this`clock
    {
      forall k: nat :: clock <= k ==> fate(k) == Fine
    }

    // One step fails from here on, without killing the process.
    ghost predicate OneFault()
      reads this`clock
    {
      exists f: nat ::
        clock <= f && fate(f).Report() == Failed && forall k: nat :: clock <= k && k != f ==> fate(k) == Fine
    }

    ghost predicate NoLimbo()
      reads this`disk
    {
      disk.journal.Saved? && Shaped(disk, |disk.journal.j.targets|)
      && forall i: nat :: i < |disk.journal.j.targets| ==> !Limbo(disk, disk.journal.j, i)
    }

    predicate Shape()
      reads this`disk
    {
      Shaped(disk, |names|)
    }

    // One atomic durable step: afterwards the disk is `next` or untouched.
    method Durable(next: Disk) returns (r: Report)
      requires !dead
      modifies this
      ensures clock == old(clock) + 1
      ensures disk == (if fate(old(clock)).Lands() then next else old(disk))
      ensures r == fate(old(clock)).Report()
      ensures r == Done ==> disk == next
      ensures dead == (r == Crashed)
    {
      var f := fate(clock);
      if f.Lands() {
        disk := next;
      }
      clock := clock + 1;
      r := f.Report();
      dead := r == Crashed;
    }

    // The three renames of a swap. The source must be there, and nothing at the destination.
    method MoveAside(i: nat) returns (r: Report)
      requires Shape() && i < |names| && disk.home[i] != Absent && disk.aside[i] == Absent && !dead
      modifies this
      ensures clock == old(clock) + 1 && r == fate(old(clock)).Report() && dead == (r == Crashed)
      ensures disk == if fate(old(clock)).Lands()
                      then old(disk).(aside := old(disk).aside[i := old(disk).home[i]],
                                      home := old(disk).home[i := Absent])
                      else old(disk)
    {
      r := Durable(disk.(aside := disk.aside[i := disk.home[i]], home := disk.home[i := Absent]));
    }

    method MoveIn(i: nat) returns (r: Report)
      requires Shape() && i < |names| && disk.stage[i] != Absent && disk.home[i] == Absent && !dead
      modifies this
      ensures clock == old(clock) + 1 && r == fate(old(clock)).Report() && dead == (r == Crashed)
      ensures disk == if fate(old(clock)).Lands()
                      then old(disk).(home := old(disk).home[i := old(disk).stage[i]],
                                      stage := old(disk).stage[i := Absent])
                      else old(disk)
    {
      r := Durable(disk.(home := disk.home[i := disk.stage[i]], stage := disk.stage[i := Absent]));
    }

    method MoveBack(i: nat) returns (r: Report)
      requires Shape() && i < |names| && disk.aside[i] != Absent && disk.home[i] == Absent && !dead
      modifies this
      ensures clock == old(clock) + 1 && r == fate(old(clock)).Report() && dead == (r == Crashed)
      ensures disk == if fate(old(clock)).Lands()
                      then old(disk).(home := old(disk).home[i := old(disk).aside[i]],
                                      aside := old(disk).aside[i := Absent])
                      else old(disk)
    {
      r := Durable(disk.(home := disk.home[i := disk.aside[i]], aside := disk.aside[i := Absent]));
    }

    // A stat: any fault makes it inconclusive, never wrong.
    method Look(c: Content) returns (s: Seen)
      modifies this`clock
      ensures clock == old(clock) + 1
      ensures s == (if fate(old(clock)) != Fine then Unreadable else if c == Absent then NotExist else Exists)
    {
      s := if fate(clock) != Fine then Unreadable else if c == Absent then NotExist else Exists;
      clock := clock + 1;
    }

    // RemoveAll of a live path: when cut, the tree may be left in any state.
    method RemoveHome(i: nat) returns (r: Report)
      requires Shape() && i < |names|
      requires !dead
      modifies this
      ensures Shape() && clock == old(clock) + 1
      ensures disk == old(disk).(home := old(disk).home[i := disk.home[i]])
      ensures r == fate(old(clock)).Report()
      ensures r == Done ==> disk.home[i] == Absent
      ensures dead == (r == Crashed)
    {
      var left := if fate(clock).Lands() then Absent else debris(clock);
      disk := disk.(home := disk.home[i := left]);
      r := fate(clock).Report();
      clock := clock + 1;
      dead := r == Crashed;
    }

    method RemoveAside(i: nat) returns (r: Report)
      requires Shape() && i < |names|
      requires !dead
      modifies this
      ensures Shape() && clock == old(clock) + 1
      ensures disk == old(disk).(aside := old(disk).aside[i := disk.aside[i]])
      ensures r == fate(old(clock)).Report()
      ensures r == Done ==> disk.aside[i] == Absent
      ensures dead == (r == Crashed)
    {
      var left := if fate(clock).Lands() then Absent else debris(clock);
      disk := disk.(aside := disk.aside[i := left]);
      r := fate(clock).Report();
      clock := clock + 1;
      dead := r == Crashed;
    }

    // One step on the temporary file of a journal write, which nothing else looks at.
    method TempStep(next: JournalFile) returns (r: Report)
      requires !dead
      modifies this`clock, this`temp, this`dead
      ensures clock == old(clock) + 1 && r == fate(old(clock)).Report()
      ensures r == Done ==> temp == next
      ensures dead == (r == Crashed)
    {
      var f := fate(clock);
      temp := if f == Fine then next else Corrupt;
      clock := clock + 1;
      r := f.Report();
      dead := r == Crashed;
    }

    // Create the temporary file, set its mode, write, sync, rename it over the journal, and sync
    // the directory. The journal on disk is never half written.
    method WriteJournal(j: Journal) returns (r: Report)
      requires !dead
      modifies this
      ensures clock > old(clock)
      ensures disk == old(disk) || disk == old(disk).(journal := Saved(j))
      ensures r == Done ==> disk == old(disk).(journal := Saved(j))
      ensures old(Calm()) ==> r == Done
      ensures old(Calm() || OneFault()) ==> r != Crashed && if r == Failed then Calm() else Calm() || OneFault()
      ensures dead == (r == Crashed)
    {
      r := TempStep(Corrupt);
      if r == Done { r := TempStep(Corrupt); }
      if r == Done { r := TempStep(Saved(j)); }
      if r == Done { r := TempStep(temp); }
      if r == Done { r := Durable(disk.(journal := temp)); }
      if r == Done { r := Durable(disk); }
    }

    // The checks at the head of recovery: nothing is touched.
    method Validate(j: Journal) returns (ok: bool)
      requires Shape() && |j.targets| == |names|
      modifies this`clock
      ensures clock >= old(clock)
      ensures ok ==> Intact(disk, j)
      ensures old(Calm()) ==> (ok <==> Intact(disk, j))
    {
      var allDone := true;
      for i := 0 to |j.targets|
        invariant allDone <==> forall k :: 0 <= k < i ==> j.targets[k].done
      {
        allDone := allDone && j.targets[i].done;
      }
      assert allDone <==> AllDone(j);
      for i := 0 to |j.targets|
        invariant clock >= old(clock)
        invariant forall k :: 0 <= k < i ==> TargetIntact(j.targets[k], allDone, disk.home[k], disk.aside[k])
      {
        var t := j.targets[i];
        if t.rolledBack {
          continue;
        }
        if allDone && t.staged {
          var dst := Look(disk.home[i]);
          if dst != Exists {
            return false;
          }
          continue;
        }
        if !allDone && t.existed && t.staged {
          var asideSeen := Look(disk.aside[i]);
          if t.done && asideSeen != Exists {
            return false;
          }
          if !t.done && asideSeen == NotExist {
            var dst := Look(disk.home[i]);
            if dst != Exists {
              return false;
            }
          } else if !t.done && asideSeen != Exists {
            return false;
          }
        }
      }
      ok := true;
    }

    // Reverse one target. Reports Done when its reversal may be recorded.
    method ReverseTarget(i: nat, t: Target, ghost o: Content) returns (r: Report)
      requires Shape() && i < |names| && !t.rolledBack
      requires !dead
      modifies this
      ensures Shape() && clock >= old(clock)
      ensures disk == old(disk).(home := old(disk).home[i := disk.home[i]],
                                 aside := old(disk).aside[i := disk.aside[i]])
      ensures old(TargetReversible(t, disk.home[i], disk.aside[i], o)) && (t.existed <==> o != Absent) ==>
                && TargetReversible(t, disk.home[i], disk.aside[i], o)
                && (r == Done ==> TargetReversible(t.(rolledBack := true), disk.home[i], disk.aside[i], o))
      ensures r == Done && t.staged && t.existed ==> disk.aside[i] == Absent
      // A target the archive does not replace is never touched.
      ensures !t.staged ==> r == Done && disk == old(disk) && clock == old(clock)
      // The aside is not touched unless home could be cleared first.
      ensures t.staged && t.existed && (fate(old(clock)) != Fine || fate(old(clock) + 1) != Fine) ==>
                disk.aside == old(disk).aside
      ensures old(Calm()) ==> r == Done
      ensures old(Calm() || OneFault()) ==> r != Crashed && if r == Failed then Calm() else Calm() || OneFault()
      ensures old(Calm()) && t.staged && t.existed && old(disk).aside[i] != Absent ==>
                disk.home[i] == old(disk).aside[i]
      ensures dead == (r == Crashed)
    {
      assert disk == disk.(home := disk.home[i := disk.home[i]], aside := disk.aside[i := disk.aside[i]]);
      if t.existed && t.staged {
        var asideSeen := Look(disk.aside[i]);
        if asideSeen == Exists {
          var removed := RemoveHome(i);
          if removed != Done {
            return removed;
          }
          r := MoveBack(i);
        } else if asideSeen == Unreadable {
          r := Failed;
        } else {
          r := Done;
        }
      } else if t.staged && !t.existed {
        r := RemoveHome(i);
      } else {
        r := Done;
      }
    }

    // One round of the rollback: reverse a target, mark it, and write the journal.
    method ReverseAndRecord(j0: Journal, j: Journal, i: nat, ghost pre: seq<Content>) returns (r: Report, j1: Journal)
      requires Shape() && disk.journal.Saved? && Progress(j0, disk.journal.j) && Progress(disk.journal.j, j)
      requires |j.targets| == |names| == |pre| && i < |names| && !j.targets[i].rolledBack
      requires !dead
      modifies this
      ensures Shape() && clock >= old(clock)
      ensures disk.home == old(disk).home[i := disk.home[i]] && disk.aside == old(disk).aside[i := disk.aside[i]]
      ensures disk.journal.Saved? && Progress(j0, disk.journal.j) && Progress(disk.journal.j, j1)
      ensures old(Reversible(disk, j, pre)) && ExistedIsOld(j, pre) ==>
                Reversible(disk, j1, pre) && ExistedIsOld(j1, pre)
      ensures j1 == j || j1 == Marked(j, i)
      ensures r == Done ==> j1 == Marked(j, i) && disk.journal.j == j1
      ensures Progress(old(disk).journal.j, disk.journal.j)
      ensures old(Calm()) ==> r == Done
      ensures old(Calm() || OneFault()) ==> r != Crashed && if r == Failed then Calm() else Calm() || OneFault()
      ensures dead == (r == Crashed)
    {
      ghost var sound := Reversible(disk, j, pre) && ExistedIsOld(j, pre);
      ghost var before, jd := disk, disk.journal.j;
      var t := j.targets[i];
      j1 := j;
      r := ReverseTarget(i, t, pre[i]);
      if sound {
        ReversibleAfterStep(before, disk, j, i, t, pre);
      }
      if r != Done {
        return;
      }
      j1 := Marked(j, i);
      MarkIsProgress(j0, jd, j, j1, i);
      if sound {
        ReversibleAfterStep(before, disk, j, i, t.(rolledBack := true), pre);
      }
      r := WriteJournal(j1);
    }

    // Down to target i: the journal on disk and in memory only gained marks, and only behind i.
    predicate Rolling(j0: Journal, j: Journal, i: nat)
      reads this`disk
    {
      && Shape() && disk.journal.Saved? && Progress(j0, disk.journal.j) && Progress(disk.journal.j, j)
      && i <= |j.targets| == |names| && forall k :: 0 <= k < i ==> j.targets[k] == j0.targets[k]
    }

    // How far the recording got, in memory and on disk, when at most one step fails.
    ghost predicate RecordedFrom(j: Journal, i: nat, failed: bool, slip: int)
      reads this`disk, this`clock
    {
      && disk.journal.Saved?
      && if failed then Calm() && RecordedBut(j, i, slip) && RecordedBut(disk.journal.j, i, slip)
         else (Calm() || OneFault()) && RecordedBut(j, i, -1) && RecordedBut(disk.journal.j, i, -1)
    }

    // One target of the loop; one that is already recorded is passed over.
    method ReverseNext(j0: Journal, j: Journal, i: nat, ghost pre: seq<Content>, ghost failed: bool, ghost slip: int)
      returns (r: Report, j1: Journal)
      requires Rolling(j0, j, i + 1) && |names| == |pre|
      requires !dead
      modifies this
      ensures clock >= old(clock) && Rolling(j0, j1, i)
      ensures old(Reversible(disk, j, pre)) && ExistedIsOld(j, pre) ==>
                Reversible(disk, j1, pre) && ExistedIsOld(j1, pre)
      ensures r == Done && old(disk).journal.j == j ==> disk.journal.j == j1
      ensures r == Done && RecordedBut(j, i + 1, -1) ==> RecordedBut(j1, i, -1)
      ensures old(Calm()) ==> r == Done
      ensures old(RecordedFrom(j, i + 1, failed, slip)) ==>
                r != Crashed && RecordedFrom(j1, i, failed || r == Failed, if r == Failed then i else slip)
      ensures dead == (r == Crashed)
    {
      if j.targets[i].rolledBack {
        assert disk.journal.j.targets[i].rolledBack;
        return Done, j;
      }
      ghost var jd := disk.journal.j;
      r, j1 := ReverseAndRecord(j0, j, i, pre);
      RecordedOneMore(j, j1, i);
      RecordedOneMore(jd, disk.journal.j, i);
    }

    // The rollback loop, in reverse target order, recording each reversal.
    method RollBack(j0: Journal, ghost pre: seq<Content>) returns (r: Report)
      requires Shape() && disk.journal == Saved(j0) && |j0.targets| == |names|
      requires |pre| == |names|
      requires !dead
      modifies this
      ensures Shape() && clock >= old(clock)
      ensures disk.journal.Saved? && Progress(j0, disk.journal.j)
      ensures old(Reversible(disk, j0, pre) && ExistedIsOld(j0, pre)) ==> Reversible(disk, disk.journal.j, pre)
      ensures r == Done ==> forall i :: 0 <= i < |names| ==> disk.journal.j.targets[i].rolledBack
      ensures old(Calm()) ==> r == Done
      // One failing step costs one target: all others are reversed, and recorded as such.
      ensures old(OneFault()) ==> r != Crashed && exists slip: int :: RecordedBut(disk.journal.j, 0, slip)
      ensures old(OneFault() && Reversible(disk, j0, pre) && ExistedIsOld(j0, pre)) ==>
                exists slip: int :: RecordedBut(disk.journal.j, 0, slip) && OldBut(disk, slip, pre)
      ensures dead == (r == Crashed)
    {
      ghost var slip: int := -1;
      ghost var one := OneFault();
      ghost var sound := Reversible(disk, j0, pre) && ExistedIsOld(j0, pre);
      ghost var calm := Calm();
      var j := j0;
      var failed := false;
      var i := |j.targets|;
      while i > 0
        invariant 0 <= i <= |names| == |j.targets|
        invariant !dead && clock >= old(clock) && Rolling(j0, j, i)
        invariant sound ==> Reversible(disk, j, pre) && ExistedIsOld(j, pre)
        invariant !failed ==> disk.journal.j == j && RecordedBut(j, i, -1)
        invariant calm ==> !failed && Calm()
        invariant one ==> RecordedFrom(j, i, failed, slip)
      {
        i := i - 1;
        var round;
        round, j := ReverseNext(j0, j, i, pre, failed, slip);
        if round == Crashed {
          if sound { ReversibleForOlder(disk, disk.journal.j, j, pre); }
          return Crashed;
        }
        if round == Failed {
          failed, slip := true, i;
        }
      }
      if sound {
        ReversibleForOlder(disk, disk.journal.j, j, pre);
        if one {
          ReversedIsOldBut(disk, disk.journal.j, slip, pre);
        }
      }
      r := if failed then Failed else Done;
    }

    // The roll-forward sweep of the asides.
    method SweepAsides(j: Journal, ghost pre: seq<Content>, ghost inc: seq<Content>) returns (r: Report)
      requires Shape() && disk.journal == Saved(j) && |j.targets| == |names|
      requires |pre| == |inc| == |names|
      requires !dead
      modifies this
      ensures Shape() && clock >= old(clock)
      ensures disk == old(disk).(aside := disk.aside)
      ensures old(Committed(disk, j, pre, inc)) ==> Committed(disk, j, pre, inc)
      ensures old(Committed(disk, j, pre, inc)) && r == Done ==> NoAsides(disk)
      ensures old(Calm()) ==> r == Done
      ensures dead == (r == Crashed)
    {
      ghost var sound := Committed(disk, j, pre, inc);
      var failed := false;
      for i := 0 to |j.targets|
        invariant !dead && Shape() && clock >= old(clock)
        invariant disk == old(disk).(aside := disk.aside)
        invariant sound ==> Committed(disk, j, pre, inc)
        invariant sound && !failed ==> forall k :: 0 <= k < i ==> disk.aside[k] == Absent
        invariant old(Calm()) ==> !failed
      {
        var t := j.targets[i];
        if t.existed && t.staged {
          var removed := RemoveAside(i);
          if removed == Crashed {
            return Crashed;
          }
          failed := failed || removed == Failed;
        }
      }
      r := if failed then Failed else Done;
    }

    // recoverRestoreJournal. The ghost generations only name what the promises are about.
    method Recover(ghost pre: seq<Content>, ghost inc: seq<Content>) returns (r: Recovery)
      requires Shape() && |pre| == |inc| == |names|
      requires !dead
      modifies this
      ensures Shape() && clock >= old(clock)
      // A journal that cannot be trusted is refused, and nothing is touched.
      ensures !Trusted(old(disk).journal, names) ==> r == Errored && disk == old(disk)
      ensures old(disk).journal == Missing ==> disk == old(disk) && (r == Errored || r == Finished(false))
      // Every cut leaves a disk the next recovery can work from.
      ensures old(Sound(disk, names, pre, inc)) ==> Sound(disk, names, pre, inc)
      // Success is all-or-nothing, in the direction the durable journal had fixed.
      ensures old(Sound(disk, names, pre, inc)) && r.Finished? && old(disk).journal.Saved? ==>
                && r.rolledBack == !AllDone(old(disk).journal.j)
                && (if r.rolledBack then AllOld(disk, pre) else AllNew(disk, pre, inc))
      ensures old(Sound(disk, names, pre, inc)) && r.Finished? && old(disk).journal.Saved? ==>
                && disk.journal == Missing
                && forall i :: 0 <= i < |names| ==>
                     && disk.aside[i] == Absent
                     && disk.home[i] == if r.rolledBack || inc[i] == Absent then pre[i] else inc[i]
      // The direction is fixed for good, whatever the exit.
      ensures old(disk).journal.Saved? && disk.journal.Saved? ==> Progress(old(disk).journal.j, disk.journal.j)
      ensures old(disk).journal.Saved? ==> disk.journal == Missing || disk.journal.Saved?
      ensures old(Sound(disk, names, pre, inc)) && old(disk).journal.Saved? && disk.journal == Missing ==>
                if AllDone(old(disk).journal.j) then AllNew(disk, pre, inc) else AllOld(disk, pre)
      // Without faults it succeeds exactly when its own checks pass.
      ensures old(Calm()) && old(disk).journal.Saved? && ValidJournal(old(disk).journal.j, names) ==>
                if Intact(old(disk), old(disk).journal.j) then r.Finished? && disk.journal == Missing
                else r == Errored && disk == old(disk)
      ensures old(Calm()) ==> Calm() && (old(disk).journal == Missing ==> r == Finished(false))
      // So, after any cut, a fault-free re-run succeeds unless some target is wedged.
      ensures old(Calm() && Sound(disk, names, pre, inc)) && old(disk).journal.Saved? ==>
                (r.Finished? <==> !exists i: nat :: i < |names| && Limbo(old(disk), old(disk).journal.j, i))
      // In particular whenever the restore has no target that can wedge.
      ensures old(Calm() && Sound(disk, names, pre, inc)) && old(disk).journal.Saved? ==>
                r.Finished? || exists i: nat :: CanWedge(pre, inc, i)
      ensures dead == (r == Died)
    {
      if Sound(disk, names, pre, inc) && disk.journal.Saved? {
        IntactUnlessLimbo(disk, names, pre, inc);
        if i: nat :| i < |names| && Limbo(disk, disk.journal.j, i) {
          LimboCanWedge(disk, names, pre, inc, i);
        }
      }
      var read := Look(if disk.journal == Missing then Absent else Item(0));
      if read == NotExist {
        return Finished(false);
      }
      if read == Unreadable || disk.journal == Missing {
        return Errored;
      }
      if disk.journal == Corrupt {
        return Errored;
      }
      var j := disk.journal.j;
      if !ValidJournal(j, names) {
        return Errored;
      }
      var intact := Validate(j);
      if !intact {
        return Errored;
      }
      r := Settle(j, pre, inc);
    }

    // The part of recovery that acts, once the journal and its invariants are accepted.
    method Settle(j: Journal, ghost pre: seq<Content>, ghost inc: seq<Content>) returns (r: Recovery)
      requires Shape() && |pre| == |inc| == |names|
      requires disk.journal == Saved(j) && ValidJournal(j, names)
      requires !dead
      modifies this
      ensures Shape() && clock >= old(clock)
      ensures disk.journal == Missing || (disk.journal.Saved? && Progress(j, disk.journal.j))
      ensures r.Finished? ==> disk.journal == Missing && r.rolledBack == !AllDone(j)
      ensures old(Sound(disk, names, pre, inc)) ==>
                && Sound(disk, names, pre, inc)
                && (disk.journal == Missing ==> if AllDone(j) then AllNew(disk, pre, inc) else AllOld(disk, pre))
      ensures old(Calm()) ==> r.Finished?
      ensures dead == (r == Died)
    {
      ghost var sound := Sound(disk, names, pre, inc);
      var rolledBack := !AllDone(j);
      var done: Report;
      if rolledBack {
        done := RollBack(j, pre);
        RollbackMeasure(j, disk.journal.j);
        ProgressKeepsShape(j, disk.journal.j, names, pre, inc);
        if sound && done == Done {
          AllReversedIsOld(disk, disk.journal.j, pre, inc);
        }
      } else {
        done := SweepAsides(j, pre, inc);
      }
      if done != Done {
        return if done == Crashed then Died else Errored;
      }
      done := DropJournal();
      r := if done == Done then Finished(rolledBack) else if done == Crashed then Died else Errored;
    }

    // Make the renames and removals durable, then drop the journal.
    method DropJournal() returns (r: Report)
      requires !dead
      modifies this
      ensures clock >= old(clock)
      // Not before the renames are durable, and not reported before the removal is.
      ensures disk ==
              if fate(old(clock)) == Fine && fate(old(clock) + 1).Lands() then old(disk).(journal := Missing)
              else old(disk)
      ensures r == Done <==> fate(old(clock)) == fate(old(clock) + 1) == fate(old(clock) + 2) == Fine
      ensures old(Calm()) ==> r == Done
      ensures dead == (r == Crashed)
    {
      r := Durable(disk);
      if r == Done {
        r := Durable(disk.(journal := Missing));
        if r == Done {
          r := Durable(disk);
        }
      }
    }

    // Describe every target before anything moves.
    method PlanSwap(pid: int, nanos: int) returns (ok: bool, j: Journal)
      requires Shape() && pid > 0
      modifies this`clock
      ensures clock >= old(clock)
      ensures ok ==> ValidJournal(j, names) && FreshJournal(j, disk.home, disk.stage, 0)
      ensures old(Calm()) ==> ok
    {
      j := Journal(JOURNAL_VERSION, pid, Bak(pid, nanos), []);
      for i := 0 to |names|
        invariant clock >= old(clock)
        invariant j == Journal(JOURNAL_VERSION, pid, Bak(pid, nanos), j.targets) && |j.targets| == i
        invariant forall k :: 0 <= k < i ==>
                    j.targets[k] == Target(names[k], disk.stage[k] != Absent, disk.home[k] != Absent,
                                           disk.stage[k] == Absent, false)
      {
        var staged := Look(disk.stage[i]);
        var existing := Look(disk.home[i]);
        if staged == Unreadable || existing == Unreadable {
          return false, j;
        }
        var t := Target(names[i], staged == Exists, existing == Exists, staged != Exists, false);
        j := j.(targets := j.targets + [t]);
      }
      ok := true;
    }

    // A step of the swap failed: undo it, unless the commit record had already landed.
    method Fail(ghost pre: seq<Content>, ghost inc: seq<Content>) returns (r: Promotion)
      requires Shape() && Sound(disk, names, pre, inc) && disk.journal.Saved?
      requires !dead
      modifies this
      ensures Shape() && clock >= old(clock) && Sound(disk, names, pre, inc)
      ensures r == Completed ==> AllNew(disk, pre, inc) && AllDone(old(disk).journal.j)
      // Without further faults it completes exactly when the commit record had landed, and otherwise
      // undoes everything unless a target is wedged.
      ensures old(Calm()) ==> (r == Completed <==> AllDone(old(disk).journal.j)) && r != PromotionDied
      ensures old(Calm() && NoLimbo()) && r != Completed ==> AllOld(disk, pre)
      ensures dead == (r == PromotionDied)
    {
      var recovered := Recover(pre, inc);
      r := match recovered
           case Died => PromotionDied
           case Errored => PromotionFailed
           case Finished(rolledBack) => if rolledBack then PromotionFailed else Completed;
    }

    // Move every existing target that will be replaced to its aside.
    method MoveAsides(j: Journal, ghost pre: seq<Content>, ghost inc: seq<Content>) returns (r: Report)
      requires Shape() && |pre| == |inc| == |names| && disk.journal == Saved(j) && ValidJournal(j, names)
      requires FreshJournal(j, pre, inc, 0) && MovedAside(disk, j, pre, inc, 0)
      requires !dead
      modifies this
      ensures Shape() && clock >= old(clock) && disk.journal == Saved(j)
      ensures Sound(disk, names, pre, inc)
      // Until a target is promoted, every cut can be resumed.
      ensures forall i: nat :: i < |names| ==> !Limbo(disk, j, i)
      ensures r == Done ==> MovedAside(disk, j, pre, inc, |names|)
      ensures old(Calm()) ==> r == Done
      ensures dead == (r == Crashed)
    {
      MovingIsSound(disk, names, j, pre, inc, 0);
      for i := 0 to |names|
        invariant !dead && Shape() && clock >= old(clock) && disk.journal == Saved(j)
        invariant MovedAside(disk, j, pre, inc, i) && Sound(disk, names, pre, inc)
      {
        var t := j.targets[i];
        if t.staged && t.existed {
          r := MoveAside(i);
          MovingIsSound(disk, names, j, pre, inc, if disk.home[i] == Absent then i + 1 else i);
          if r != Done {
            return;
          }
        }
      }
      r := Done;
    }

    // Put one staged target in place and record it.
    method PromoteTarget(j: Journal, i: nat, ghost pre: seq<Content>, ghost inc: seq<Content>)
      returns (r: Report, marked: Journal)
      requires Shape() && |pre| == |inc| == |names| && disk.journal == Saved(j) && ValidJournal(j, names)
      requires i < |names| && j.targets[i].staged
      requires FreshJournal(j, pre, inc, i) && Promoted(disk, j, pre, inc, i)
      requires !dead
      modifies this
      ensures Shape() && clock >= old(clock) && disk.journal.Saved?
      ensures marked == j.(targets := j.targets[i := j.targets[i].(done := true)])
      ensures Sound(disk, names, pre, inc) && NoLimbo()
      ensures r == Done ==> disk.journal == Saved(marked) && Promoted(disk, marked, pre, inc, i + 1)
      ensures old(Calm()) ==> r == Done
      ensures dead == (r == Crashed)
    {
      marked := j.(targets := j.targets[i := j.targets[i].(done := true)]);
      r := MoveIn(i);
      if r == Done {
        MarkPromoted(disk, names, j, marked, i, pre, inc);
        r := WriteJournal(marked);
        PromotingIsSound(disk, names, disk.journal.j, pre, inc, if disk.journal.j == marked then i + 1 else i, i + 1);
      } else {
        PromotingIsSound(disk, names, j, pre, inc, i, if disk.home[i] == Absent then i else i + 1);
      }
    }

    // Put the first `upto` staged targets in place one by one, recording each.
    method PromoteStaged(j0: Journal, upto: nat, ghost pre: seq<Content>, ghost inc: seq<Content>)
      returns (r: Report, j: Journal)
      requires Shape() && |pre| == |inc| == |names| && disk.journal == Saved(j0) && ValidJournal(j0, names)
      requires FreshJournal(j0, pre, inc, 0) && Promoted(disk, j0, pre, inc, 0) && upto <= |names|
      requires !dead
      modifies this
      ensures Shape() && clock >= old(clock) && disk.journal.Saved?
      ensures Sound(disk, names, pre, inc) && NoLimbo()
      ensures r == Done ==>
                && disk.journal == Saved(j) && |j.targets| == |names|
                && FreshJournal(j, pre, inc, upto) && Promoted(disk, j, pre, inc, upto)
      ensures old(Calm()) ==> r == Done
      ensures dead == (r == Crashed)
    {
      j := j0;
      PromotingIsSound(disk, names, j, pre, inc, 0, 0);
      for i := 0 to upto
        invariant !dead && Shape() && clock >= old(clock) && disk.journal == Saved(j) && ValidJournal(j, names)
        invariant FreshJournal(j, pre, inc, i) && Promoted(disk, j, pre, inc, i) && Sound(disk, names, pre, inc)
        invariant NoLimbo()
      {
        if j.targets[i].staged {
          MarkedIsFresh(j, names, i, pre, inc);
          r, j := PromoteTarget(j, i, pre, inc);
          if r != Done {
            return;
          }
        } else {
          UnstagedIsPromoted(disk, j, i, pre, inc);
        }
      }
      r := Done;
    }

    // promoteAllTargets. Its caller has already recovered any earlier swap, and the
    // aside suffix is fresh, so there is no journal and nothing at the asides.
    method Promote(pid: int, nanos: int) returns (r: Promotion, ghost turn: Option<Turn>)
      requires Shape() && pid > 0 && disk.journal == Missing && NoAsides(disk)
      requires !dead
      modifies this
      ensures Shape() && clock >= old(clock)
      ensures Sound(disk, names, old(disk).home, old(disk).stage)
      ensures r == Completed ==> AllNew(disk, old(disk).home, old(disk).stage)
      ensures r == Completed ==>
                && disk.journal == Missing
                && forall i :: 0 <= i < |names| ==>
                     && disk.aside[i] == Absent
                     && disk.home[i] == if old(disk).stage[i] != Absent then old(disk).stage[i] else old(disk).home[i]
      ensures disk.journal != Corrupt
      ensures old(Calm()) ==> r == Completed
      // Whatever failed before, if nothing fails once recovery starts, it completes exactly when the
      // commit record had landed, and otherwise the old generation is back.
      ensures turn == None ==> r != Completed && (dead || disk == old(disk).(journal := disk.journal))
      ensures turn.Some? ==> old(clock) < turn.value.at <= clock && turn.value.left.Saved?
      ensures turn.Some? && (forall k: nat :: turn.value.at <= k ==> fate(k) == Fine) ==>
                && (r == Completed <==> AllDone(turn.value.left.j))
                && (r != Completed ==> AllOld(disk, old(disk).home))
      ensures dead == (r == PromotionDied)
    {
      ghost var pre, inc := disk.home, disk.stage;
      turn := None;
      var ok, j := PlanSwap(pid, nanos);
      if !ok {
        return PromotionFailed, turn;
      }
      var step := WriteJournal(j);
      if disk.journal == Saved(j) {
        MovingIsSound(disk, names, j, pre, inc, 0);
      }
      if step != Done {
        return if step == Crashed then PromotionDied else PromotionFailed, turn;
      }
      r, turn := Swap(j, pre, inc);
    }

    // The swap proper, once the journal is on disk.
    method Swap(j0: Journal, ghost pre: seq<Content>, ghost inc: seq<Content>)
      returns (r: Promotion, ghost turn: Option<Turn>)
      requires Shape() && |pre| == |inc| == |names| && disk.journal == Saved(j0) && ValidJournal(j0, names)
      requires FreshJournal(j0, pre, inc, 0) && MovedAside(disk, j0, pre, inc, 0) && !dead
      modifies this
      ensures Shape() && clock >= old(clock) && Sound(disk, names, pre, inc) && dead == (r == PromotionDied)
      ensures r == Completed ==> AllNew(disk, pre, inc)
      ensures old(Calm()) ==> r == Completed
      ensures turn == None ==> dead
      ensures turn.Some? ==> old(clock) <= turn.value.at <= clock && turn.value.left.Saved?
      ensures turn.Some? && (forall k: nat :: turn.value.at <= k ==> fate(k) == Fine) ==>
                && (r == Completed <==> AllDone(turn.value.left.j))
                && (r != Completed ==> AllOld(disk, pre))
    {
      turn := None;
      var j := j0;
      var step := MoveAsides(j, pre, inc);
      if step == Done {
        step, j := PromoteStaged(j, |names|, pre, inc);
      }
      if step == Crashed {
        return PromotionDied, turn;
      }
      turn := Some(Turn(clock, disk.journal));
      if step == Failed {
        r := Fail(pre, inc);
        return;
      }
      var recovered := Recover(pre, inc);
      r := match recovered
           case Died => PromotionDied
           case Errored => PromotionFailed
           case Finished(_) => Completed;
    }

    // The wedge. A rollback that restores a promoted target's aside and dies before
    // recording it leaves every later recovery refusing, with the old content in place.
    method DieBeforeRecording(i: nat, ghost pre: seq<Content>, ghost inc: seq<Content>) returns (r: Recovery)
      requires Shape() && Sound(disk, names, pre, inc) && disk.journal.Saved? && i < |names|
      requires var t := disk.journal.j.targets[i];
               !AllDone(disk.journal.j) && t.staged && t.existed && t.done && !t.rolledBack
      requires disk.aside[i] != Absent && Calm()
      requires !dead
      modifies this
      ensures Sound(disk, names, pre, inc) && disk.journal == old(disk).journal
      ensures r == Errored && Limbo(disk, disk.journal.j, i) && disk.home[i] == pre[i]
      ensures !dead
    {
      ghost var before := disk;
      var j := disk.journal.j;
      assert TargetReversible(j.targets[i], disk.home[i], disk.aside[i], pre[i]);
      var reversed := ReverseTarget(i, j.targets[i], pre[i]);
      ReversibleAfterStep(before, disk, j, i, j.targets[i], pre);
      assert j.(targets := j.targets[i := j.targets[i]]) == j;
      assert Limbo(disk, j, i);
      r := Recover(pre, inc);
    }

    // A recovery without faults down to target i, which is the next to be reversed.
    method RollBackAbove(j0: Journal, i: nat, ghost pre: seq<Content>) returns (j: Journal)
      requires Shape() && disk.journal == Saved(j0) && |j0.targets| == |names| == |pre| && i < |names| && Calm()
      requires Reversible(disk, j0, pre) && ExistedIsOld(j0, pre)
      requires !dead
      modifies this
      ensures Shape() && Calm() && disk.journal == Saved(j) && Progress(j0, j) && Reversible(disk, j, pre)
      ensures j.targets[i] == j0.targets[i] && disk.aside[i] == old(disk).aside[i]
      ensures !dead
    {
      j := j0;
      var k := |names|;
      while k > i + 1
        invariant !dead && i < k <= |names| && Shape() && Calm() && disk.journal == Saved(j) && Progress(j0, j)
        invariant |j.targets| == |names| && Reversible(disk, j, pre) && ExistedIsOld(j, pre)
        invariant j.targets[i] == j0.targets[i] && disk.aside[i] == old(disk).aside[i]
      {
        k := k - 1;
        if !j.targets[k].rolledBack {
          var round;
          round, j := ReverseAndRecord(j0, j, k, pre);
        }
      }
    }

    // A promotion that dies once it has recorded target i.
    method DieAfterPromoting(pid: int, nanos: int, i: nat) returns (j: Journal)
      requires Shape() && pid > 0 && disk.journal == Missing && NoAsides(disk) && Calm()
      requires CanWedge(disk.home, disk.stage, i)
      requires !dead
      modifies this
      ensures Shape() && Calm() && Sound(disk, names, old(disk).home, old(disk).stage) && disk.journal == Saved(j)
      ensures FreshJournal(j, old(disk).home, old(disk).stage, i + 1) && !AllDone(j)
      ensures disk.aside[i] == old(disk).home[i]
      ensures !dead
    {
      ghost var pre, inc := disk.home, disk.stage;
      var ok;
      ok, j := PlanSwap(pid, nanos);
      var step := WriteJournal(j);
      step := MoveAsides(j, pre, inc);
      step, j := PromoteStaged(j, i + 1, pre, inc);
      ghost var k :| i < k < |inc| && inc[k] != Absent;
      assert !j.targets[k].done;
    }

    // Every target that can wedge does, in some run: promotion dies once it is promoted, and the
    // recovery dies between putting the aside back and recording it.
    method WedgeFromPromotion(pid: int, nanos: int, i: nat) returns (r: Recovery)
      requires Shape() && pid > 0 && disk.journal == Missing && NoAsides(disk) && Calm()
      requires CanWedge(disk.home, disk.stage, i)
      requires !dead
      modifies this
      ensures Sound(disk, names, old(disk).home, old(disk).stage) && disk.journal.Saved?
      ensures r == Errored && Limbo(disk, disk.journal.j, i) && disk.home[i] == old(disk).home[i]
      ensures !dead
    {
      ghost var pre, inc := disk.home, disk.stage;
      var promoted := DieAfterPromoting(pid, nanos, i);
      var j := RollBackAbove(promoted, i, pre);
      ProgressKeepsShape(promoted, j, names, pre, inc);
      RollbackMeasure(promoted, j);
      r := DieBeforeRecording(i, pre, inc);
    }

    // A whole run: a swap cut anywhere, then any number of recoveries, each cut anywhere.
    // However it goes, a recovery that succeeds leaves one generation, never a mix.
    method SwapThenRecover(pid: int, nanos: int, recoveries: nat) returns (promoted: Promotion, last: Recovery)
      requires Shape() && pid > 0 && disk.journal == Missing && NoAsides(disk)
      requires !dead
      modifies this
      ensures Sound(disk, names, old(disk).home, old(disk).stage)
      ensures promoted == Completed ==> AllNew(disk, old(disk).home, old(disk).stage)
      ensures recoveries > 0 && last.Finished? ==>
                AllOld(disk, old(disk).home) || AllNew(disk, old(disk).home, old(disk).stage)
      ensures last == Finished(true) ==> AllOld(disk, old(disk).home)
      ensures recoveries > 0 && old(Calm()) ==> last.Finished?
    {
      ghost var pre, inc := disk.home, disk.stage;
      ghost var turn;
      promoted, turn := Promote(pid, nanos);
      last := Died;
      for i := 0 to recoveries
        invariant Shape() && Sound(disk, names, pre, inc)
        invariant promoted == Completed ==> AllNew(disk, pre, inc)
        invariant i > 0 && last.Finished? ==> AllOld(disk, pre) || AllNew(disk, pre, inc)
        invariant last == Finished(true) ==> AllOld(disk, pre)
        invariant old(Calm()) ==> Calm() && disk.journal == Missing && (i > 0 ==> last.Finished?)
      {
        // A process that died is started again.
        dead := false;
        last := Recover(pre, inc);
      }
    }
  }
}
