/**
 The per-project lock file: an exclusive create, then the body; reclaimed when its holder
 is dead. Processes of one host interleave at the level of single file operations, and may
 die between any two of them. The lock is read, judged, read again and removed in separate
 steps, so exclusion is conditional, and the theorems say on what.
 */
module RepoLock {
  import opened Common

  type Proc = nat

  // What the file holds: nothing parseable yet, or the holder's record. The acquisition time
  // makes every record unique; `stamp` stands for it.
  datatype Body = Partial | Full(pid: nat, start: nat, stamp: nat)

  datatype File = File(inode: nat, owner: Proc, body: Body, mtime: nat)

  datatype PC =
    | Idle
    | Writing(inode: nat)               // created the file, about to write its body
    | Holding(inode: nat)
    | Suspecting                        // lost the create, about to read the lock
    | SuspectCheck(read: Body)          // about to ask whether the recorded holder lives
    | SuspectStat                       // the body did not parse, about to look at its age
    | Entering                          // judged it stale, about to start the removal
    | Looking(before: Body)             // read it once
    | Checking(before: Body, read: Body)
    | Statting(before: Body)
    | Rereading(before: Body)           // judged it stale again
    | Removing(before: Body)            // read the same bytes again
    | Recreating                        // about to try the create once more
  {
    predicate InLock()
    {
      Writing? || Holding?
    }

    predicate InRemoval()
    {
      Looking? || Checking? || Statting? || Rereading? || Removing?
    }
  }

  // A process of this host; a pid and a start time identify it.
  datatype Process = Process(pid: nat, start: nat, alive: bool, pc: PC)

  datatype Sys = Sys(file: Option<File>, next: nat, now: nat, procs: map<Proc, Process>)

  datatype Step =
    | Create(p: Proc)
    | Write(p: Proc)
    | WriteFails(p: Proc)
    | Release(p: Proc)
    | Suspect(p: Proc)
    | Enter(p: Proc)
    | Judge(p: Proc)
    | Check(p: Proc, known: bool)
    | Stat(p: Proc)
    | Reread(p: Proc)
    | Remove(p: Proc)
    | Die(p: Proc)
    | Spawn(p: Proc, pid: nat, start: nat)
    | Tick

  // Half an hour.
  const STALE_AFTER := 1800

  // processIdentityAlive: some live process has that pid, and nothing shows it is another one.
  predicate IdentityAlive(s: Sys, body: Body, known: bool)
    requires body.Full?
  {
    exists q :: q in s.procs && s.procs[q].alive && s.procs[q].pid == body.pid
                && (body.start == 0 || !known || s.procs[q].start == body.start)
  }

  predicate Aged(s: Sys)
  {
    s.file.Some? && s.now - s.file.value.mtime > STALE_AFTER
  }

  predicate Enabled(s: Sys, l: Step)
  {
    if l.Tick? then true
    else if l.Spawn? then
      // A pid may be reused once its process is gone, never with the same start time.
      && l.p !in s.procs && l.pid > 0 && l.start > 0
      && forall q :: q in s.procs && s.procs[q].pid == l.pid ==> !s.procs[q].alive && s.procs[q].start != l.start
    else l.p in s.procs && s.procs[l.p].alive && Ready(s, l, s.procs[l.p].pc)
  }

  predicate Ready(s: Sys, l: Step, pc: PC)
  {
    match l
    case Create(_) => pc.Idle? || pc.Recreating?
    case Write(_) => pc.Writing?
    case WriteFails(_) => pc.Writing?
    case Release(_) => pc.Holding?
    case Suspect(_) => pc.Suspecting?
    case Enter(_) => pc.Entering?
    case Judge(_) => pc.Looking?
    case Check(_, _) => pc.SuspectCheck? || pc.Checking?
    case Stat(_) => pc.SuspectStat? || pc.Statting?
    case Reread(_) => pc.Rereading?
    case Remove(_) => pc.Removing?
    case Die(_) => true
    case Spawn(_, _, _) => true
    case Tick => true
  }

  predicate Alone(s: Sys, p: Proc)
  {
    forall q :: q in s.procs && q != p && s.procs[q].alive ==> !s.procs[q].pc.InRemoval()
  }

  // Where the step leaves its process.
  function NextPC(s: Sys, l: Step): PC
    requires Enabled(s, l) && !l.Tick? && !l.Spawn?
  {
    var pc := s.procs[l.p].pc;
    match l
    case Create(_) => if s.file == None then Writing(s.next) else if pc.Idle? then Suspecting else Idle
    case Write(_) => Holding(pc.inode)
    case WriteFails(_) => Idle
    case Release(_) => Idle
    case Suspect(_) =>
      if s.file == None then Entering
      else if s.file.value.body.Partial? then SuspectStat
      else SuspectCheck(s.file.value.body)
    case Enter(_) => if s.file == None then Recreating else Looking(s.file.value.body)
    case Judge(_) =>
      // A lock that is gone counts as stale.
      if s.file == None then Rereading(pc.before)
      else if s.file.value.body.Partial? then Statting(pc.before)
      else Checking(pc.before, s.file.value.body)
    case Check(_, known) =>
      if pc.read.Full? && IdentityAlive(s, pc.read, known) then (if pc.Checking? then Recreating else Idle)
      else if pc.Checking? then Rereading(pc.before)
      else Entering
    case Stat(_) =>
      if s.file == None then Idle
      else if Aged(s) then (if pc.Statting? then Rereading(pc.before) else Entering)
      else if pc.Statting? then Recreating
      else Idle
    case Reread(_) => if s.file.Some? && s.file.value.body == pc.before then Removing(pc.before) else Recreating
    case Remove(_) => Recreating
    case Die(_) => pc
  }

  // The path names at most one file; a write to a file that was unlinked is not seen.
  function NextFile(s: Sys, l: Step): Option<File>
    requires Enabled(s, l)
  {
    match l
    case Create(p) => if s.file == None then Some(File(s.next, p, Partial, s.now)) else s.file
    case Write(p) =>
      var i := s.procs[p].pc.inode;
      if s.file.Some? && s.file.value.inode == i
      then Some(s.file.value.(body := Full(s.procs[p].pid, s.procs[p].start, i), mtime := s.now))
      else s.file
    case WriteFails(_) => None
    case Release(_) => None
    case Remove(_) => None
    case _ => s.file
  }

  function Next(s: Sys, l: Step): Sys
    requires Enabled(s, l)
  {
    if l.Tick? then s.(now := s.now + 1)
    else if l.Spawn? then s.(procs := s.procs[l.p := Process(l.pid, l.start, true, Idle)])
    else
      Sys(NextFile(s, l), if l.Create? && s.file == None then s.next + 1 else s.next, s.now,
          s.procs[l.p := s.procs[l.p].(pc := NextPC(s, l), alive := !l.Die?)])
  }

  predicate Init(s: Sys)
  {
    s.file == None && s.procs == map[]
  }

  ghost predicate Run(s: Sys, steps: seq<Step>, t: Sys)
    decreases |steps|
  {
    if steps == [] then s == t
    else Enabled(s, steps[0]) && Run(Next(s, steps[0]), steps[1..], t)
  }

  // ---------- invariants ----------

  predicate Identities(s: Sys)
  {
    && (forall p :: p in s.procs ==> s.procs[p].start > 0)
    && forall p, q :: p in s.procs && q in s.procs && p != q && s.procs[p].pid == s.procs[q].pid ==>
         s.procs[p].start != s.procs[q].start && !(s.procs[p].alive && s.procs[q].alive)
  }

  predicate FileOk(s: Sys)
  {
    s.file.Some? ==>
      var f := s.file.value;
      && f.inode < s.next && f.owner in s.procs
      && (f.body.Full? ==> f.body == Full(s.procs[f.owner].pid, s.procs[f.owner].start, f.inode))
      && (s.procs[f.owner].alive ==>
           s.procs[f.owner].pc == if f.body.Partial? then Writing(f.inode) else Holding(f.inode))
  }

  // The lock in place belongs to a dead process.
  predicate Dead(s: Sys)
  {
    s.file.Some? && s.file.value.owner in s.procs && !s.procs[s.file.value.owner].alive
  }

  predicate InPlace(s: Sys, inode: nat)
  {
    s.file.Some? && s.file.value.inode == inode
  }

  // What a contender inside the removal may rely on.
  predicate RemovalOk(s: Sys, pc: PC)
    requires pc.InRemoval()
  {
    if pc.before.Partial? then Dead(s) && s.file.value.body.Partial? && (pc.Checking? ==> pc.read.Full?)
    else
      var i := pc.before.stamp;
      && i < s.next
      && match pc
         case Looking(b) => InPlace(s, i) ==> s.file.value.body == b
         case Checking(b, read) => read.Full? && (InPlace(s, i) ==> s.file.value.body == b && read == b)
         case Statting(_) => !InPlace(s, i)
         case Rereading(b) => InPlace(s, i) ==> s.file.value.body == b && Dead(s)
         case Removing(b) => InPlace(s, i) && s.file.value.body == b && Dead(s)
  }

  predicate ProcOk(s: Sys, p: Proc)
    requires p in s.procs
  {
    var x := s.procs[p];
    x.alive ==>
      && (x.pc.InLock() ==> InPlace(s, x.pc.inode) && s.file.value.owner == p)
      && (x.pc.InRemoval() ==> RemovalOk(s, x.pc))
      && (x.pc.SuspectCheck? ==> x.pc.read.Full?)
  }

  predicate Solo(s: Sys)
  {
    forall p, q :: p in s.procs && q in s.procs && p != q && s.procs[p].alive && s.procs[q].alive ==>
      !(s.procs[p].pc.InRemoval() && s.procs[q].pc.InRemoval())
  }

  predicate Inv(s: Sys)
  {
    Identities(s) && FileOk(s) && Solo(s) && forall p :: p in s.procs ==> ProcOk(s, p)
  }

  // A contender starts its removal on a lock whose body a live process is still writing.
  predicate ReadsLivePartial(s: Sys, l: Step)
  {
    l.Enter? && s.file.Some? && s.file.value.body.Partial? && s.file.value.owner in s.procs
      && s.procs[s.file.value.owner].alive
  }

  // A contender starts its removal while another one is inside.
  predicate Crowds(s: Sys, l: Step)
  {
    l.Enter? && l.p in s.procs && !Alone(s, l.p)
  }

  predicate Hazardous(s: Sys, l: Step)
  {
    ReadsLivePartial(s, l) || Crowds(s, l)
  }

  // With a recorded start time and a working lookup, the identity check is exact; without
  // either it errs only towards keeping the lock.
  lemma IdentityIsExact(s: Sys, p: Proc, stamp: nat, known: bool)
    requires Identities(s) && p in s.procs
    ensures var body := Full(s.procs[p].pid, s.procs[p].start, stamp);
            && (IdentityAlive(s, body, true) <==> s.procs[p].alive)
            && (s.procs[p].alive ==> IdentityAlive(s, body, known))
            && (IdentityAlive(s, Full(s.procs[p].pid, 0, stamp), known) <==>
                exists q :: q in s.procs && s.procs[q].alive && s.procs[q].pid == s.procs[p].pid)
  {
  }

  // A lock whose body does not parse is stale exactly when its file is more than half an hour old, both
  // before the removal and inside it; a younger one, however it came about, is left alone.
  lemma UnparsableIsJudgedByAge(s: Sys, l: Step)
    requires Enabled(s, l) && l.Stat? && s.file.Some?
    ensures NextPC(s, l).Entering? || NextPC(s, l).Rereading? <==> s.now - s.file.value.mtime > 1800
    ensures Next(s, l).file == s.file
  {
  }

  // Only its live owner, or a removal once its owner is dead, ever touches the file in place.
  lemma FileChanges(s: Sys, l: Step)
    requires Inv(s) && Enabled(s, l)
    ensures var t := Next(s, l);
            || t.file == s.file
            || (s.file == None && l.Create? && t.file == Some(File(s.next, l.p, Partial, s.now)))
            || (s.file.Some? && l.Write? && s.file.value.owner == l.p && s.procs[l.p].pc == Writing(s.file.value.inode))
            || (s.file.Some? && (l.Release? || l.WriteFails?) && s.file.value.owner == l.p && t.file == None
                && s.procs[l.p].pc.InLock() && s.procs[l.p].pc.inode == s.file.value.inode)
            || (l.Remove? && Dead(s) && t.file == None)
  {
    if !l.Tick? && !l.Spawn? {
      assert ProcOk(s, l.p);
    }
  }

  lemma StepKeepsIdentities(s: Sys, l: Step)
    requires Identities(s) && Enabled(s, l)
    ensures Identities(Next(s, l))
  {
    var t := Next(s, l);
    forall p, q | p in t.procs && q in t.procs && p != q && t.procs[p].pid == t.procs[q].pid
      ensures t.procs[p].start != t.procs[q].start && !(t.procs[p].alive && t.procs[q].alive)
    {
      if l.Spawn? && (p == l.p || q == l.p) {
        var other := if p == l.p then q else p;
        assert s.procs[other].pid == l.pid;
      }
    }
  }

  lemma StepKeepsFileOk(s: Sys, l: Step)
    requires Inv(s) && Enabled(s, l)
    ensures FileOk(Next(s, l))
  {
    var t := Next(s, l);
    FileChanges(s, l);
    if t.file.Some? && !l.Tick? && !l.Spawn? {
      assert ProcOk(s, l.p);
    }
  }

  lemma StepKeepsSolo(s: Sys, l: Step)
    requires Solo(s) && Enabled(s, l) && !Crowds(s, l)
    ensures Solo(Next(s, l))
  {
    var t := Next(s, l);
    forall p, q | p in t.procs && q in t.procs && p != q && t.procs[p].alive && t.procs[q].alive
      ensures !(t.procs[p].pc.InRemoval() && t.procs[q].pc.InRemoval())
    {
      if !l.Tick? && !l.Spawn? && (p == l.p || q == l.p) {
        var mover, other := l.p, if p == l.p then q else p;
        assert t.procs[other] == s.procs[other];
        if t.procs[mover].pc.InRemoval() && !l.Enter? {
          assert s.procs[mover].pc.InRemoval();
        }
      }
    }
  }

  // A process that does not move keeps what it relies on.
  lemma OthersStayOk(s: Sys, l: Step, p: Proc)
    requires Inv(s) && Enabled(s, l) && p in s.procs && (l.Tick? || p != l.p)
    ensures p in Next(s, l).procs && ProcOk(Next(s, l), p)
  {
    var t := Next(s, l);
    FileChanges(s, l);
    assert ProcOk(s, p) && t.procs[p] == s.procs[p];
    var x := s.procs[p];
    // If l removes the lock, it is the one contender in the removal, and this process is not.
    if l.Remove? {
      assert s.procs[l.p].pc.InRemoval() && !(x.alive && x.pc.InRemoval());
    }
  }

  // The process that moves.
  lemma MoverStaysOk(s: Sys, l: Step)
    requires Inv(s) && Enabled(s, l) && !ReadsLivePartial(s, l) && !l.Tick? && !l.Spawn?
    ensures ProcOk(Next(s, l), l.p)
  {
    var x := s.procs[l.p];
    assert ProcOk(s, l.p);
    match l
    case Enter(_) => EnterIsOk(s, l);
    case Judge(_) => JudgeIsOk(s, l);
    case Check(_, _) => if x.pc.Checking? { CheckIsOk(s, l); }
    case Stat(_) => StatIsOk(s, l);
    case Reread(_) => RereadIsOk(s, l);
    case _ =>
  }

  lemma StatIsOk(s: Sys, l: Step)
    requires Inv(s) && Enabled(s, l) && l.Stat?
    ensures ProcOk(Next(s, l), l.p)
  {
    assert ProcOk(s, l.p);
  }

  lemma RereadIsOk(s: Sys, l: Step)
    requires Inv(s) && Enabled(s, l) && l.Reread?
    ensures ProcOk(Next(s, l), l.p)
  {
    assert ProcOk(s, l.p);
  }

  lemma EnterIsOk(s: Sys, l: Step)
    requires Inv(s) && Enabled(s, l) && l.Enter? && !ReadsLivePartial(s, l)
    ensures ProcOk(Next(s, l), l.p)
  {
  }

  lemma JudgeIsOk(s: Sys, l: Step)
    requires Inv(s) && Enabled(s, l) && l.Judge?
    ensures ProcOk(Next(s, l), l.p)
  {
    assert ProcOk(s, l.p);
  }

  // A holder judged dead is dead.
  lemma CheckIsOk(s: Sys, l: Step)
    requires Inv(s) && Enabled(s, l) && l.Check? && s.procs[l.p].pc.Checking?
    ensures ProcOk(Next(s, l), l.p)
  {
    assert ProcOk(s, l.p);
    var pc := s.procs[l.p].pc;
    if pc.before.Full? && InPlace(s, pc.before.stamp) && !IdentityAlive(s, pc.read, l.known) {
      var f := s.file.value;
      if s.procs[f.owner].alive {
        IdentityIsExact(s, f.owner, f.inode, l.known);
      }
    }
  }

  // Every step but these two keeps the lock exclusive and the removal harmless.
  lemma StepStaysExclusive(s: Sys, l: Step)
    requires Inv(s) && Enabled(s, l) && !Hazardous(s, l)
    ensures Inv(Next(s, l))
    ensures l.Remove? ==> Dead(s)
  {
    var t := Next(s, l);
    FileChanges(s, l);
    StepKeepsIdentities(s, l);
    StepKeepsFileOk(s, l);
    StepKeepsSolo(s, l);
    forall p | p in t.procs ensures ProcOk(t, p) {
      if !l.Tick? && p == l.p {
        if !l.Spawn? { MoverStaysOk(s, l); }
      } else {
        OthersStayOk(s, l, p);
      }
    }
    if l.Remove? { assert ProcOk(s, l.p); }
  }

  ghost predicate HazardousRun(s: Sys, steps: seq<Step>)
    decreases |steps|
  {
    steps != [] && Enabled(s, steps[0]) && (Hazardous(s, steps[0]) || HazardousRun(Next(s, steps[0]), steps[1..]))
  }

  lemma {:induction false} RunStaysExclusive(s: Sys, steps: seq<Step>, t: Sys)
    requires Inv(s) && Run(s, steps, t) && !HazardousRun(s, steps)
    ensures Inv(t)
    decreases |steps|
  {
    if steps != [] {
      StepStaysExclusive(s, steps[0]);
      RunStaysExclusive(Next(s, steps[0]), steps[1..], t);
    }
  }

  // In every run where no removal starts on a half-written lock of a live process or beside another
  // removal, at most one live process is in the lock, and it finds its own file in place however
  // old that file is.
  lemma MutualExclusion(s: Sys, steps: seq<Step>, t: Sys, p: Proc, q: Proc)
    requires Init(s) && Run(s, steps, t) && !HazardousRun(s, steps)
    requires p in t.procs && q in t.procs && t.procs[p].alive && t.procs[q].alive && t.procs[p].pc.InLock()
    ensures t.procs[q].pc.InLock() ==> p == q
    ensures t.file.Some? && t.file.value.owner == p && t.file.value.inode == t.procs[p].pc.inode
  {
    RunStaysExclusive(s, steps, t);
    assert ProcOk(t, p) && ProcOk(t, q);
  }

  // ---------- both conditions are needed ----------

  lemma {:induction false} RunThen(s: Sys, steps: seq<Step>, t: Sys, l: Step)
    requires Run(s, steps, t) && Enabled(t, l)
    ensures Run(s, steps + [l], Next(t, l))
    decreases |steps|
  {
    if steps == [] {
      assert [l][1..] == [];
    } else {
      RunThen(Next(s, steps[0]), steps[1..], t, l);
      assert (steps + [l])[1..] == steps[1..] + [l];
    }
  }

  lemma Then(s: Sys, steps: seq<Step>, t: Sys, l: Step) returns (more: seq<Step>, u: Sys)
    requires Run(s, steps, t) && Enabled(t, l)
    ensures u == Next(t, l) && more == steps + [l] && Run(s, more, u)
  {
    RunThen(s, steps, t, l);
    more, u := steps + [l], Next(t, l);
  }

  // s with one process somewhere else.
  function At(s: Sys, p: Proc, pc: PC): Sys
    requires p in s.procs
  {
    s.(procs := s.procs[p := s.procs[p].(pc := pc)])
  }

  // The contender reads the half-written lock, and its writer finishes and releases it.
  lemma LockGoesAway(s: Sys, l: Step) returns (steps: seq<Step>, t: Sys)
    requires Inv(s) && Enabled(s, l) && ReadsLivePartial(s, l)
    ensures Run(s, steps, t) && steps != [] && steps[0] == l && t.now == s.now && t.next == s.next
    ensures forall x :: x in steps ==> !x.Tick? && !x.Die? && !x.Spawn? && (x.Enter? ==> x == l)
    ensures var c, q := l.p, s.file.value.owner;
            && c != q && c in t.procs && q in t.procs && t.procs[c].alive && t.procs[q].alive
            && t.procs[c].pc == Looking(Partial) && t.procs[q].pc == Idle && t.file == None
  {
    var c, q := l.p, s.file.value.owner;
    assert ProcOk(s, c) && s.procs[q].pc == Writing(s.file.value.inode);
    steps, t := Then(s, [], s, l);
    steps, t := Then(s, steps, t, Write(q));
    steps, t := Then(s, steps, t, Release(q));
  }

  // The contender, finding no lock, judges it stale, and the writer creates it again.
  lemma ContenderIsMisled(s: Sys, c: Proc, q: Proc) returns (steps: seq<Step>, t: Sys)
    requires c != q && c in s.procs && q in s.procs && s.procs[c].alive && s.procs[q].alive
    requires s.procs[c].pc == Looking(Partial) && s.procs[q].pc == Idle && s.file == None
    ensures Run(s, steps, t) && t.now == s.now
    ensures forall x :: x in steps ==> !x.Tick? && !x.Die? && !x.Spawn? && !x.Enter?
    ensures && c in t.procs && q in t.procs && t.procs[c].alive && t.procs[q].alive
            && t.procs[c].pc == Rereading(Partial) && t.procs[q].pc == Writing(s.next)
            && t.file == Some(File(s.next, q, Partial, s.now)) && t.next == s.next + 1
  {
    steps, t := Then(s, [], s, Judge(c));
    steps, t := Then(s, steps, t, Create(q));
  }

  // It reads the same bytes as before, and removes and creates the lock under the writer.
  lemma ContenderReplaces(s: Sys, c: Proc) returns (steps: seq<Step>, t: Sys)
    requires c in s.procs && s.procs[c].alive && s.procs[c].pc == Rereading(Partial)
    requires s.file.Some? && s.file.value.body == Partial
    ensures Run(s, steps, t) && forall x :: x in steps ==> x.Reread? || x.Remove? || x.Create?
    ensures t == s.(file := Some(File(s.next, c, Partial, s.now)), next := s.next + 1,
                    procs := s.procs[c := s.procs[c].(pc := Writing(s.next))])
  {
    steps, t := Then(s, [], s, Reread(c));
    steps, t := Then(s, steps, t, Remove(c));
    steps, t := Then(s, steps, t, Create(c));
    assert t.procs == s.procs[c := s.procs[c].(pc := Writing(s.next))];
  }

  // Then both write what they believe is their lock.
  lemma ContenderUnlinks(s: Sys, c: Proc, q: Proc) returns (steps: seq<Step>, t: Sys)
    requires c != q && c in s.procs && q in s.procs && s.procs[c].alive && s.procs[q].alive
    requires s.procs[c].pc == Rereading(Partial) && s.procs[q].pc.Writing? && s.procs[q].pc.inode < s.next
    requires s.file.Some? && s.file.value.body == Partial
    ensures Run(s, steps, t) && t.now == s.now && c in t.procs && q in t.procs
    ensures forall x :: x in steps ==> !x.Tick? && !x.Die? && !x.Spawn? && !x.Enter?
    ensures t.procs[c].alive && t.procs[c].pc.Holding? && t.procs[q].alive && t.procs[q].pc.Holding?
  {
    steps, t := ContenderReplaces(s, c);
    steps, t := Then(s, steps, t, Write(c));
    steps, t := Then(s, steps, t, Write(q));
  }

  lemma {:induction false} RunJoin(s: Sys, first: seq<Step>, t: Sys, second: seq<Step>, u: Sys)
    requires Run(s, first, t) && Run(t, second, u)
    ensures Run(s, first + second, u)
    decreases |first|
  {
    if first == [] {
      assert first + second == second;
    } else {
      RunJoin(Next(s, first[0]), first[1..], t, second, u);
      assert (first + second)[1..] == first[1..] + second;
    }
  }

  // From any such read, with no time passing and no other contender, two live processes can
  // end up holding the lock. A body write that stays within the age window does not help.
  lemma LivePartialReadLosesExclusion(s: Sys, l: Step) returns (steps: seq<Step>, t: Sys)
    requires Inv(s) && Enabled(s, l) && ReadsLivePartial(s, l)
    ensures Run(s, steps, t) && steps != [] && steps[0] == l && t.now == s.now
    ensures forall x :: x in steps ==> !x.Tick? && !x.Die? && !x.Spawn? && (x.Enter? ==> x == l)
    ensures var c, q := l.p, s.file.value.owner;
            && c != q && c in t.procs && q in t.procs
            && t.procs[c].alive && t.procs[c].pc.Holding? && t.procs[q].alive && t.procs[q].pc.Holding?
  {
    var c, q := l.p, s.file.value.owner;
    var first, u := LockGoesAway(s, l);
    var second, v := ContenderIsMisled(u, c, q);
    var third;
    third, t := ContenderUnlinks(v, c, q);
    RunJoin(s, first, u, second, v);
    RunJoin(s, first + second, v, third, t);
    steps := first + second + third;
  }

  // Two live processes, 0 and 1, and the lock.
  function Two(file: Option<File>, next: nat, first: PC, second: PC): Sys
  {
    Sys(file, next, 0, map[0 := Process(100, 1, true, first), 1 := Process(101, 1, true, second)])
  }

  lemma TwoStart() returns (s: Sys, steps: seq<Step>)
    ensures Init(s) && s.now == 0 && Run(s, steps, Two(None, 0, Idle, Idle))
  {
    s := Sys(None, 0, 0, map[]);
    var u;
    steps, u := Then(s, [], s, Spawn(0, 100, 1));
    steps, u := Then(s, steps, u, Spawn(1, 101, 1));
    assert u == Two(None, 0, Idle, Idle);
  }

  // Process 0 acquires the lock and process 1 loses the create.
  lemma LosesTheCreate() returns (s: Sys, steps: seq<Step>)
    ensures Init(s) && s.now == 0 && Run(s, steps, Two(Some(File(0, 0, Partial, 0)), 1, Writing(0), Suspecting))
  {
    s, steps := TwoStart();
    var u;
    steps, u := Then(s, steps, Two(None, 0, Idle, Idle), Create(0));
    steps, u := Then(s, steps, u, Create(1));
    assert u == Two(Some(File(0, 0, Partial, 0)), 1, Writing(0), Suspecting);
  }

  // Process 0 releases, process 1 finds no lock and calls it stale, process 0 comes back.
  lemma LockIsRecreated() returns (steps: seq<Step>)
    ensures Run(Two(Some(File(0, 0, Partial, 0)), 1, Writing(0), Suspecting), steps,
                Two(Some(File(1, 0, Partial, 0)), 2, Writing(1), Entering))
  {
    var s := Two(Some(File(0, 0, Partial, 0)), 1, Writing(0), Suspecting);
    var u;
    steps, u := Then(s, [], s, Write(0));
    steps, u := Then(s, steps, u, Release(0));
    steps, u := Then(s, steps, u, Suspect(1));
    steps, u := Then(s, steps, u, Create(0));
    assert u == Two(Some(File(1, 0, Partial, 0)), 2, Writing(1), Entering);
  }

  // Process 1 is about to read the lock that process 0 is writing.
  function HalfWritten(): Sys
  {
    Two(Some(File(1, 0, Partial, 0)), 2, Writing(1), Entering)
  }

  lemma HalfWrittenIsReached() returns (s: Sys, steps: seq<Step>)
    ensures Init(s) && Run(s, steps, HalfWritten()) && s.now == 0
  {
    s, steps := LosesTheCreate();
    var more := LockIsRecreated();
    RunJoin(s, steps, Two(Some(File(0, 0, Partial, 0)), 1, Writing(0), Suspecting), more, HalfWritten());
    steps := steps + more;
  }

  lemma TwoAreRegular(file: Option<File>, next: nat, first: PC, second: PC)
    requires !second.InRemoval()
    ensures var s := Two(file, next, first, second); Identities(s) && Solo(s)
  {
    var s := Two(file, next, first, second);
    TwoHaveIdentities(file, next, first, second);
    assert 0 in s.procs && s.procs[0].pc == first && s.procs[1].pc == second;
  }

  lemma TwoHaveIdentities(file: Option<File>, next: nat, first: PC, second: PC)
    ensures Identities(Two(file, next, first, second)) && Two(file, next, first, second).procs.Keys == {0, 1}
  {
    assert Two(file, next, first, second).procs.Keys == {0, 1};
  }

  lemma HalfWrittenIsRegular()
    ensures Inv(HalfWritten()) && Enabled(HalfWritten(), Enter(1)) && ReadsLivePartial(HalfWritten(), Enter(1))
  {
    var u := HalfWritten();
    TwoAreRegular(u.file, 2, Writing(1), Entering);
    assert u.procs.Keys == {0, 1} && ProcOk(u, 0) && ProcOk(u, 1) && FileOk(u);
  }

  // So such a read happens: two fresh processes get there from an empty directory.
  lemma ExclusionCanBeLost() returns (s: Sys, steps: seq<Step>, t: Sys)
    ensures Init(s) && Run(s, steps, t) && t.now == s.now
    ensures {0, 1} <= t.procs.Keys && t.procs[0].alive && t.procs[1].alive
    ensures t.procs[0].pc.Holding? && t.procs[1].pc.Holding?
  {
    s, steps := HalfWrittenIsReached();
    HalfWrittenIsRegular();
    var more;
    more, t := LivePartialReadLosesExclusion(HalfWritten(), Enter(1));
    RunJoin(s, steps, HalfWritten(), more, t);
    steps := steps + more;
  }

  // ---------- a dead holder does not block ----------

  // One move of c alone that leaves the file as it is.
  lemma Moves(s: Sys, c: Proc, steps: seq<Step>, pc: PC, l: Step, pc': PC) returns (more: seq<Step>)
    requires c in s.procs && Run(s, steps, At(s, c, pc)) && Enabled(At(s, c, pc), l)
    requires Next(At(s, c, pc), l) == At(s, c, pc')
    ensures more == steps + [l] && Run(s, more, At(s, c, pc'))
  {
    RunThen(s, steps, At(s, c, pc), l);
    more := steps + [l];
  }

  // Whether the recorded holder lives does not depend on where c is.
  lemma DeadIsJudgedStale(s: Sys, c: Proc, pc: PC)
    requires Identities(s) && FileOk(s) && c in s.procs && Dead(s) && s.file.value.body.Full?
    ensures !IdentityAlive(At(s, c, pc), s.file.value.body, true)
  {
    IdentityIsExact(s, s.file.value.owner, s.file.value.inode, true);
  }

  lemma DeadHolderIsSuspected(s: Sys, c: Proc) returns (steps: seq<Step>)
    requires Identities(s) && FileOk(s) && c in s.procs && s.procs[c].alive && Dead(s)
    requires s.file.value.body.Full? || Aged(s)
    ensures Run(At(s, c, Suspecting), steps, At(s, c, Entering))
  {
    var b := s.file.value.body;
    var u := At(s, c, Suspecting);
    assert forall pc :: At(u, c, pc) == At(s, c, pc);
    if b.Full? {
      steps := Moves(u, c, [], Suspecting, Suspect(c), SuspectCheck(b));
      DeadIsJudgedStale(s, c, SuspectCheck(b));
      steps := Moves(u, c, steps, SuspectCheck(b), Check(c, true), Entering);
    } else {
      steps := Moves(u, c, [], Suspecting, Suspect(c), SuspectStat);
      steps := Moves(u, c, steps, SuspectStat, Stat(c), Entering);
    }
  }

  // A fresh contender loses the create and finds the lock stale.
  lemma Contends(s: Sys, c: Proc) returns (steps: seq<Step>)
    requires Identities(s) && FileOk(s) && c in s.procs && s.procs[c].alive && s.procs[c].pc == Idle && Dead(s)
    requires s.file.value.body.Full? || Aged(s)
    ensures Run(s, steps, At(s, c, Entering))
  {
    assert At(s, c, Idle) == s;
    steps := Moves(s, c, [], Idle, Create(c), Suspecting);
    var suspected := DeadHolderIsSuspected(s, c);
    RunJoin(s, steps, At(s, c, Suspecting), suspected, At(s, c, Entering));
    steps := steps + suspected;
  }

  lemma DeadHolderIsJudged(s: Sys, c: Proc) returns (steps: seq<Step>)
    requires Identities(s) && FileOk(s) && c in s.procs && s.procs[c].alive && Dead(s)
    requires s.file.value.body.Full? || Aged(s)
    ensures Run(At(s, c, Looking(s.file.value.body)), steps, At(s, c, Rereading(s.file.value.body)))
  {
    var b := s.file.value.body;
    var u := At(s, c, Looking(b));
    assert forall pc :: At(u, c, pc) == At(s, c, pc);
    if b.Full? {
      steps := Moves(u, c, [], Looking(b), Judge(c), Checking(b, b));
      DeadIsJudgedStale(s, c, Checking(b, b));
      steps := Moves(u, c, steps, Checking(b, b), Check(c, true), Rereading(b));
    } else {
      steps := Moves(u, c, [], Looking(b), Judge(c), Statting(b));
      steps := Moves(u, c, steps, Statting(b), Stat(c), Rereading(b));
    }
  }

  // The lock of a dead holder, also one whose pid was reused, or a half-written one past the
  // age window, is acquired by the next contender that is not disturbed.
  lemma DeadHoldersLockIsAcquired(s: Sys, c: Proc) returns (steps: seq<Step>, t: Sys)
    requires Inv(s) && c in s.procs && s.procs[c].alive && s.procs[c].pc == Idle
    requires Dead(s) && (s.file.value.body.Full? || Aged(s))
    ensures Run(s, steps, t) && t.now == s.now && c in t.procs && t.procs[c].alive && t.procs[c].pc == Holding(s.next)
  {
    var entered := Contends(s, c);
    var removed := DeadHolderIsRemoved(s, c);
    RunJoin(s, entered, At(s, c, Entering), removed, At(s, c, Removing(s.file.value.body)));
    var more;
    more, t := Reclaims(At(s, c, Removing(s.file.value.body)), c);
    RunJoin(s, entered + removed, At(s, c, Removing(s.file.value.body)), more, t);
    steps := entered + removed + more;
  }

  lemma DeadHolderIsRemoved(s: Sys, c: Proc) returns (steps: seq<Step>)
    requires Identities(s) && FileOk(s) && c in s.procs && s.procs[c].alive && Dead(s)
    requires s.file.value.body.Full? || Aged(s)
    ensures Run(At(s, c, Entering), steps, At(s, c, Removing(s.file.value.body)))
  {
    var b := s.file.value.body;
    var u := At(s, c, Entering);
    assert forall pc :: At(u, c, pc) == At(s, c, pc);
    steps := Moves(u, c, [], Entering, Enter(c), Looking(b));
    var judged := DeadHolderIsJudged(s, c);
    RunJoin(u, steps, At(s, c, Looking(b)), judged, At(s, c, Rereading(b)));
    steps := Moves(u, c, steps + judged, Rereading(b), Reread(c), Removing(b));
  }

  lemma Reclaims(s: Sys, c: Proc) returns (steps: seq<Step>, t: Sys)
    requires c in s.procs && s.procs[c].alive && s.procs[c].pc.Removing?
    ensures Run(s, steps, t) && t.now == s.now && t.procs == s.procs[c := s.procs[c].(pc := Holding(s.next))]
  {
    steps, t := Then(s, [], s, Remove(c));
    steps, t := Then(s, steps, t, Create(c));
    steps, t := Then(s, steps, t, Write(c));
    assert t.procs == s.procs[c := s.procs[c].(pc := Holding(s.next))];
  }

  // ---------- two contenders in the removal ----------

  // Both judge a dead holder's lock stale; the second removes what the first put in its place.
  lemma CrowdLosesExclusion(s: Sys, c: Proc, q: Proc) returns (steps: seq<Step>, t: Sys)
    requires Identities(s) && FileOk(s) && Dead(s) && (s.file.value.body.Full? || Aged(s)) && c != q
    requires c in s.procs && s.procs[c].alive && s.procs[c].pc == Entering
    requires q in s.procs && s.procs[q].alive && s.procs[q].pc == Entering
    ensures Run(s, steps, t) && t.now == s.now && c in t.procs && q in t.procs
    ensures t.procs[c].alive && t.procs[c].pc.Holding? && t.procs[q].alive && t.procs[q].pc.Holding?
  {
    var removing := Removing(s.file.value.body);
    var u := At(s, c, removing);
    var v := At(u, q, removing);
    assert At(s, c, Entering) == s && At(u, q, Entering) == u;
    var first := DeadHolderIsRemoved(s, c);
    var second := DeadHolderIsRemoved(u, q);
    RunJoin(s, first, u, second, v);
    var third, w := Reclaims(v, c);
    RunJoin(s, first + second, v, third, w);
    var fourth;
    fourth, t := Reclaims(w, q);
    RunJoin(s, first + second + third, w, fourth, t);
    steps := first + second + third + fourth;
  }

  // Two contenders and a holder that died.
  function Three(first: PC, second: PC): Sys
  {
    Sys(Some(File(0, 2, Full(102, 1, 0), 0)), 1, 0,
        map[0 := Process(100, 1, true, first), 1 := Process(101, 1, true, second),
            2 := Process(102, 1, false, Holding(0))])
  }

  // A third process starts, before any lock.
  function WithThird(): Sys
  {
    var s := Two(None, 0, Idle, Idle);
    s.(procs := s.procs[2 := Process(102, 1, true, Idle)])
  }

  lemma ThirdStarts() returns (s: Sys, steps: seq<Step>)
    ensures Init(s) && s.now == 0 && Run(s, steps, WithThird())
  {
    s, steps := TwoStart();
    TwoHaveIdentities(None, 0, Idle, Idle);
    var u;
    steps, u := Then(s, steps, Two(None, 0, Idle, Idle), Spawn(2, 102, 1));
  }

  lemma DeadHolderIsLeft() returns (s: Sys, steps: seq<Step>)
    ensures Init(s) && s.now == 0 && Run(s, steps, Three(Idle, Idle))
  {
    s, steps := ThirdStarts();
    var more, v := TakesAndDies(WithThird(), 2);
    assert v == Three(Idle, Idle) by {
      assert v.procs == Three(Idle, Idle).procs;
    }
    RunJoin(s, steps, WithThird(), more, v);
    steps := steps + more;
  }

  lemma TakesAndDies(s: Sys, p: Proc) returns (steps: seq<Step>, t: Sys)
    requires p in s.procs && s.procs[p].alive && s.procs[p].pc == Idle && s.file == None
    ensures Run(s, steps, t)
    ensures t == s.(file := Some(File(s.next, p, Full(s.procs[p].pid, s.procs[p].start, s.next), s.now)),
                    next := s.next + 1,
                    procs := s.procs[p := s.procs[p].(pc := Holding(s.next), alive := false)])
  {
    steps, t := Then(s, [], s, Create(p));
    steps, t := Then(s, steps, t, Write(p));
    steps, t := Then(s, steps, t, Die(p));
    assert t.procs == s.procs[p := s.procs[p].(pc := Holding(s.next), alive := false)];
  }

  lemma ThreeAreRegular(first: PC, second: PC)
    ensures var s := Three(first, second); Identities(s) && FileOk(s) && Dead(s)
  {
    assert Three(first, second).procs.Keys == {0, 1, 2};
  }

  lemma ThreeMove()
    ensures At(Three(Idle, Idle), 0, Entering) == Three(Entering, Idle)
    ensures At(Three(Entering, Idle), 1, Entering) == Three(Entering, Entering)
  {
    assert At(Three(Idle, Idle), 0, Entering).procs == Three(Entering, Idle).procs;
    assert At(Three(Entering, Idle), 1, Entering).procs == Three(Entering, Entering).procs;
  }

  lemma BothEnter() returns (steps: seq<Step>)
    ensures Run(Three(Idle, Idle), steps, Three(Entering, Entering))
  {
    var s, u, v := Three(Idle, Idle), Three(Entering, Idle), Three(Entering, Entering);
    ThreeAreRegular(Idle, Idle);
    ThreeAreRegular(Entering, Idle);
    ThreeMove();
    steps := Contends(s, 0);
    var more := Contends(u, 1);
    RunJoin(s, steps, u, more, v);
    steps := steps + more;
  }

  // From an empty directory, with fully written bodies only and no time passing.
  lemma CrowdCanLoseExclusion() returns (s: Sys, steps: seq<Step>, t: Sys)
    ensures Init(s) && Run(s, steps, t) && t.now == s.now
    ensures {0, 1} <= t.procs.Keys && t.procs[0].alive && t.procs[1].alive
    ensures t.procs[0].pc.Holding? && t.procs[1].pc.Holding?
  {
    s, steps := DeadHolderIsLeft();
    var both := BothEnter();
    RunJoin(s, steps, Three(Idle, Idle), both, Three(Entering, Entering));
    steps := steps + both;
    ThreeAreRegular(Entering, Entering);
    var more;
    more, t := CrowdLosesExclusion(Three(Entering, Entering), 0, 1);
    RunJoin(s, steps, Three(Entering, Entering), more, t);
    steps := steps + more;
  }
}
