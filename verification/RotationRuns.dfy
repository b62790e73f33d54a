/**
 Rotations of any number of threads and processes on one directory: the lock's steps, the single renames and
 unlinks of the threads, and writes to log files at any moment. The locks alone make the rotations serial.
 */
module RotationRuns {
  import opened Text
  import opened ArchiveIndex
  import opened ArrayList
  import opened ArchiveFiles
  import Lock = RotationLock
  import Rotater

  // ---------------------------------------------------------------- a rotation as single operations

  datatype Op = Rename(from: string, to: string) | Unlink(path: string)

  function Apply(files: Files, op: Op): (r: Files) {
    match op
    case Unlink(path) => files - {path}
    case Rename(from, to) => if from in files then MovedFile(files, from, to) else files
  }

  predicate Touches(op: Op, path: string) {
    match op
    case Unlink(p) => p == path
    case Rename(from, to) => from == path || to == path
  }

  function ApplyAll(files: Files, ops: seq<Op>): (r: Files) {
    if ops == [] then files else Apply(ApplyAll(files, ops[..|ops| - 1]), ops[|ops| - 1])
  }

  lemma ApplyMore(files: Files, ops: seq<Op>, op: Op)
    ensures ApplyAll(files, ops + [op]) == Apply(ApplyAll(files, ops), op)
  {
    assert (ops + [op])[..|ops|] == ops;
  }

  predicate Untouched(ops: seq<Op>, path: string) {
    forall i :: 0 <= i < |ops| ==> !Touches(ops[i], path)
  }

  /** A write to a file that the operations do not touch may as well have come before them. */
  lemma {:induction false} WriteCommutes(files: Files, ops: seq<Op>, path: string, text: string)
    requires Untouched(ops, path)
    ensures ApplyAll(files, ops)[path := text] == ApplyAll(files[path := text], ops)
  {
    if ops != [] {
      var front, last := ops[..|ops| - 1], ops[|ops| - 1];
      WriteCommutes(files, front, path, text);
      assert !Touches(last, path);
    }
  }

  /** One call that has decided to rotate, with the listing that it gets. */
  datatype Call = Call(n: Naming, listing: seq<string>, maxCount: int, sequence: bool) {
    function List(): (list: seq<File>) {
      Listed(n, listing)
    }
  }

  function RollOps(n: Naming, list: seq<File>, keep: nat, i: nat): (ops: seq<Op>)
    requires i <= |list|
    decreases |list| - i
  {
    if i == |list| then []
    else RollOps(n, list, keep, i + 1)
         + [if i >= keep then Unlink(list[i].path) else Rename(list[i].path, n.Path(i + 1))]
  }

  function UnlinkOps(list: seq<File>, k: nat): (ops: seq<Op>)
    requires k <= |list|
  {
    if k == 0 then [] else UnlinkOps(list, k - 1) + [Unlink(list[k - 1].path)]
  }

  /** The operations on the archives. */
  function ArchiveOps(c: Call): (ops: seq<Op>) {
    var list := c.List();
    if c.sequence then UnlinkOps(list, Unlinked(|list|, c.maxCount))
    else RollOps(c.n, list, Kept(|list|, c.maxCount), Blocked(c.n, Kept(|list|, c.maxCount), |list|))
  }

  /** The number that the base file is to get. */
  function Target(c: Call): (j: nat) {
    if c.sequence then NextNumber(c.List()) else 0
  }

  /** No new name is too long. */
  predicate Completes(c: Call) {
    if c.sequence then |c.n.Path(Target(c))| <= MAXLEN_PATH
    else Rotater.RollFits(c.n, Kept(|c.List()|, c.maxCount))
  }

  /** All of them: the base file is last, and is not moved when a name is too long. */
  function Ops(c: Call): (ops: seq<Op>) {
    ArchiveOps(c) + if Completes(c) then [Rename(c.n.base, c.n.Path(Target(c)))] else []
  }

  lemma {:induction false} RollOpsSpareBase(n: Naming, list: seq<File>, keep: nat, i: nat)
    requires i <= |list| && n.Apart() && forall j :: 0 <= j < |list| ==> list[j].path != n.base
    ensures Untouched(RollOps(n, list, keep, i), n.base)
    decreases |list| - i
  {
    if i < |list| {
      RollOpsSpareBase(n, list, keep, i + 1);
      assert n.Path(i + 1) != n.base;
    }
  }

  lemma {:induction false} UnlinkOpsSpareBase(n: Naming, list: seq<File>, k: nat)
    requires k <= |list| && forall j :: 0 <= j < |list| ==> list[j].path != n.base
    ensures Untouched(UnlinkOps(list, k), n.base)
  {
    if k > 0 {
      UnlinkOpsSpareBase(n, list, k - 1);
    }
  }

  /** The base file is touched by the last operation only. */
  lemma ArchiveOpsSpareBase(c: Call)
    requires c.n.Apart()
    ensures Untouched(ArchiveOps(c), c.n.base)
  {
    var list := c.List();
    ListedNotBase(c.n, c.listing);
    if c.sequence {
      UnlinkOpsSpareBase(c.n, list, Unlinked(|list|, c.maxCount));
    } else {
      var keep := Kept(|list|, c.maxCount);
      RollOpsSpareBase(c.n, list, keep, Blocked(c.n, keep, |list|));
    }
  }

  lemma {:induction false} InsertedFrom(s: seq<File>, f: File)
    ensures forall i :: 0 <= i < |Inserted(s, f, Greater)| ==>
        Inserted(s, f, Greater)[i] == f || Inserted(s, f, Greater)[i] in s
  {
    if s != [] && !Greater(s[0], f) {
      InsertedFrom(s[1..], f);
    }
  }

  lemma {:induction false} ListedNotBase(n: Naming, listing: seq<string>)
    ensures forall i :: 0 <= i < |Listed(n, listing)| ==> Listed(n, listing)[i].path != n.base
  {
    if listing != [] {
      var front, last := listing[..|listing| - 1], listing[|listing| - 1];
      ListedNotBase(n, front);
      if CheckNew(n, last).Some? { InsertedFrom(Listed(n, front), CheckNew(n, last).value); }
    }
  }

  lemma {:induction false} RollOpsRoll(files: Files, n: Naming, list: seq<File>, keep: nat, i: nat)
    requires i <= |list|
    ensures ApplyAll(files, RollOps(n, list, keep, i)) == RolledFiles(files, n, list, keep, i)
    decreases |list| - i
  {
    if i < |list| {
      RollOpsRoll(files, n, list, keep, i + 1);
      var op := if i >= keep then Unlink(list[i].path) else Rename(list[i].path, n.Path(i + 1));
      ApplyMore(files, RollOps(n, list, keep, i + 1), op);
    }
  }

  lemma {:induction false} UnlinkOpsUnlink(files: Files, list: seq<File>, k: nat)
    requires k <= |list|
    ensures ApplyAll(files, UnlinkOps(list, k)) == WithoutFiles(files, list, k)
  {
    if k > 0 {
      UnlinkOpsUnlink(files, list, k - 1);
      ApplyMore(files, UnlinkOps(list, k - 1), Unlink(list[k - 1].path));
    }
  }

  /** The directory after a whole call, successful or not. */
  function Rotated(files: Files, c: Call): (r: Files) {
    ApplyAll(files, Ops(c))
  }

  /** It is what zlog_rotater_rotate leaves when nobody else is there. */
  lemma PlanRotates(files: Files, c: Call)
    ensures var rc := if Completes(c) then 0 else -1;
            if c.sequence then Rotater.Sequences(files, Rotated(files, c), c.n, c.List(), c.maxCount, rc)
            else Rotater.Rolls(files, Rotated(files, c), c.n, c.List(), c.maxCount, rc)
  {
    var list := c.List();
    if Completes(c) {
      ApplyMore(files, ArchiveOps(c), Rename(c.n.base, c.n.Path(Target(c))));
    } else {
      assert Ops(c) == ArchiveOps(c);
    }
    if c.sequence {
      UnlinkOpsUnlink(files, list, Unlinked(|list|, c.maxCount));
    } else {
      var keep := Kept(|list|, c.maxCount);
      RollOpsRoll(files, c.n, list, keep, Blocked(c.n, keep, |list|));
      if Completes(c) { Rotater.BlockedIs(c.n, keep, 0, |list|); }
    }
  }

  // ---------------------------------------------------------------- the interleaved machine

  type Thread = (nat, nat)

  /** What a thread has done and has still to do of its own call. */
  datatype Pending = Pending(call: Call, done: seq<Op>, left: seq<Op>)

  /** What has happened, in an order in which it might have happened without any overlap. */
  datatype Event = Rotation(call: Call) | Written(path: string, text: string)

  datatype State = State(lock: Lock.State, disk: Files, pending: map<Thread, Pending>, listed: set<Thread>,
                         history: seq<Event>)

  /**
   A step on the locks, a thread's listing, a thread's next rename or unlink, or a write to a file by anybody.
   Nothing here keeps two threads from listing or working at the same time: only the locks do.
   */
  datatype Step =
    | OnLock(step: Lock.Step)
    | List(thread: Thread, call: Call)
    | Work(thread: Thread)
    | Write(path: string, text: string)

  predicate Moves(s: State, thread: Thread) {
    Lock.At(s.lock, thread.0, thread.1) == Lock.Moving
  }

  /** A thread lists once while it holds the locks, finding its base file, and unlocks when its own work is done. */
  predicate Enabled(s: State, step: Step) {
    match step
    case OnLock(l) => Lock.Enabled(s.lock, l) && (l.UnlockFile? ==> (l.p, l.t) !in s.pending)
    case List(thread, call) =>
      Moves(s, thread) && thread !in s.listed && call.n.base in s.disk && Globbed(call.listing, s.disk, call.n)
    case Work(thread) => Moves(s, thread) && thread in s.pending && s.pending[thread].left != []
    case Write(path, _) => forall thread :: thread in s.pending ==> Untouched(s.pending[thread].done, path)
  }

  /** A call enters the history when its last operation is done. */
  function Advance(s: State, thread: Thread, p: Pending): (r: State) {
    if p.left == [] then s.(pending := s.pending - {thread}, history := s.history + [Rotation(p.call)])
    else s.(pending := s.pending[thread := p])
  }

  function Next(s: State, step: Step): (r: State)
    requires Enabled(s, step)
  {
    match step
    case OnLock(l) =>
      s.(lock := Lock.Next(s.lock, l), listed := if l.UnlockFile? then s.listed - {(l.p, l.t)} else s.listed)
    case List(thread, call) =>
      Advance(s.(listed := s.listed + {thread}), thread, Pending(call, [], Ops(call)))
    case Work(thread) =>
      var p := s.pending[thread];
      Advance(s.(disk := Apply(s.disk, p.left[0])), thread, Pending(p.call, p.done + [p.left[0]], p.left[1..]))
    case Write(path, text) =>
      s.(disk := s.disk[path := text], history := s.history + [Written(path, text)])
  }

  function Initial(disk: Files): (s: State) {
    State(Lock.INITIAL, disk, map[], {}, [])
  }

  // ---------------------------------------------------------------- one after another

  function After(files: Files, e: Event): (r: Files) {
    match e
    case Rotation(call) => Rotated(files, call)
    case Written(path, text) => files[path := text]
  }

  function AfterAll(files: Files, history: seq<Event>): (r: Files) {
    if history == [] then files else After(AfterAll(files, history[..|history| - 1]), history[|history| - 1])
  }

  /** Every rotation finds its base file, and its listing is one of the directory it starts from. */
  predicate Sensible(files: Files, history: seq<Event>) {
    history == []
    || (&& Sensible(files, history[..|history| - 1])
        && Possible(AfterAll(files, history[..|history| - 1]), history[|history| - 1]))
  }

  predicate Possible(files: Files, e: Event) {
    match e
    case Rotation(call) => call.n.base in files && Globbed(call.listing, files, call.n)
    case Written(_, _) => true
  }

  lemma HistoryGrows(files: Files, history: seq<Event>, e: Event)
    ensures AfterAll(files, history + [e]) == After(AfterAll(files, history), e)
    ensures Sensible(files, history + [e]) <==> Sensible(files, history) && Possible(AfterAll(files, history), e)
  {
    assert (history + [e])[..|history|] == history;
  }

  // ---------------------------------------------------------------- invariant

  /** A call in progress: the directory is that of the history with the call's first operations done. */
  predicate InProgress(p: Pending, files: Files, disk: Files) {
    && p.left != [] && p.done + p.left == Ops(p.call)
    && disk == ApplyAll(files, p.done)
    && Possible(files, Rotation(p.call))
  }

  ghost predicate Inv(s: State, disk: Files) {
    && Lock.Inv(s.lock)
    && (forall thread :: thread in s.pending ==> Moves(s, thread) && thread in s.listed)
    && (forall thread :: thread in s.pending ==> InProgress(s.pending[thread], AfterAll(disk, s.history), s.disk))
    && (s.pending == map[] ==> s.disk == AfterAll(disk, s.history))
    && Sensible(disk, s.history)
  }

  /** This is where the locks are needed. */
  lemma OnlyOne(s: State, disk: Files, a: Thread, b: Thread)
    requires Inv(s, disk) && Moves(s, a) && Moves(s, b)
    ensures a == b
  {
  }

  lemma LockKeepsInv(s: State, l: Lock.Step, disk: Files)
    requires Inv(s, disk) && Enabled(s, OnLock(l))
    ensures Inv(Next(s, OnLock(l)), disk)
  {
    Lock.StepKeepsInv(s.lock, l);
    forall thread | thread in s.pending
      ensures Moves(Next(s, OnLock(l)), thread) && thread in Next(s, OnLock(l)).listed
    {
      assert Moves(s, thread);
    }
  }

  lemma AdvanceKeepsInv(s: State, thread: Thread, p: Pending, disk: Files)
    requires Lock.Inv(s.lock) && Moves(s, thread) && thread in s.listed && Sensible(disk, s.history)
    requires s.pending.Keys <= {thread}
    requires p.done + p.left == Ops(p.call) && s.disk == ApplyAll(AfterAll(disk, s.history), p.done)
    requires Possible(AfterAll(disk, s.history), Rotation(p.call))
    ensures Inv(Advance(s, thread, p), disk)
  {
    var files := AfterAll(disk, s.history);
    if p.left == [] {
      assert p.done == Ops(p.call);
      HistoryGrows(disk, s.history, Rotation(p.call));
      assert s.pending - {thread} == map[];
    } else {
      assert InProgress(p, files, s.disk);
      assert thread in Advance(s, thread, p).pending;
    }
  }

  lemma ListKeepsInv(s: State, thread: Thread, call: Call, disk: Files)
    requires Inv(s, disk) && Enabled(s, List(thread, call))
    ensures Inv(Next(s, List(thread, call)), disk)
  {
    forall other | other in s.pending
      ensures false
    {
      OnlyOne(s, disk, thread, other);
    }
    assert s.pending == map[];
    assert [] + Ops(call) == Ops(call);
    AdvanceKeepsInv(s.(listed := s.listed + {thread}), thread, Pending(call, [], Ops(call)), disk);
  }

  lemma WorkKeepsInv(s: State, thread: Thread, disk: Files)
    requires Inv(s, disk) && Enabled(s, Work(thread))
    ensures Inv(Next(s, Work(thread)), disk)
  {
    forall other | other in s.pending
      ensures other == thread
    {
      OnlyOne(s, disk, thread, other);
    }
    var p, files := s.pending[thread], AfterAll(disk, s.history);
    assert InProgress(p, files, s.disk);
    var op := p.left[0];
    ApplyMore(files, p.done, op);
    assert p.done + [op] + p.left[1..] == p.done + p.left;
    AdvanceKeepsInv(s.(disk := Apply(s.disk, op)), thread, Pending(p.call, p.done + [op], p.left[1..]), disk);
  }

  lemma WriteKeepsInv(s: State, path: string, text: string, disk: Files)
    requires Inv(s, disk) && Enabled(s, Write(path, text))
    ensures Inv(Next(s, Write(path, text)), disk)
  {
    var files := AfterAll(disk, s.history);
    HistoryGrows(disk, s.history, Written(path, text));
    forall thread | thread in s.pending
      ensures InProgress(s.pending[thread], files[path := text], s.disk[path := text])
    {
      assert InProgress(s.pending[thread], files, s.disk);
      WriteCommutes(files, s.pending[thread].done, path, text);
    }
  }

  lemma StepKeepsInv(s: State, step: Step, disk: Files)
    requires Inv(s, disk) && Enabled(s, step)
    ensures Inv(Next(s, step), disk)
  {
    match step
    case OnLock(l) => LockKeepsInv(s, l, disk);
    case List(thread, call) => ListKeepsInv(s, thread, call, disk);
    case Work(thread) => WorkKeepsInv(s, thread, disk);
    case Write(path, text) => WriteKeepsInv(s, path, text, disk);
  }

  // ---------------------------------------------------------------- whole runs

  ghost predicate IsRun(run: seq<State>, steps: seq<Step>, disk: Files) {
    && |run| == |steps| + 1 && run[0] == Initial(disk)
    && forall i :: 0 <= i < |steps| ==> Enabled(run[i], steps[i]) && run[i + 1] == Next(run[i], steps[i])
  }

  lemma {:induction false} RunKeepsInv(run: seq<State>, steps: seq<Step>, disk: Files, i: nat)
    requires IsRun(run, steps, disk) && i < |run|
    ensures Inv(run[i], disk)
  {
    if i > 0 {
      RunKeepsInv(run, steps, disk, i - 1);
      StepKeepsInv(run[i - 1], steps[i - 1], disk);
    }
  }

  /**
   Whenever nobody is moving files, the directory is that of the recorded rotations and writes done one after
   another, each rotation finding its base file and listing the directory as it then is.
   */
  lemma RotationsAreSerial(run: seq<State>, steps: seq<Step>, disk: Files, i: nat)
    requires IsRun(run, steps, disk) && i < |run|
    requires forall thread :: !Moves(run[i], thread)
    ensures run[i].disk == AfterAll(disk, run[i].history) && Sensible(disk, run[i].history)
  {
    RunKeepsInv(run, steps, disk, i);
    var s := run[i];
    assert forall thread :: thread in s.pending ==> Moves(s, thread);
    assert s.pending == map[];
  }

  /** A thread's base file can be written at any moment of its own rotation. */
  lemma BaseFileWritable(run: seq<State>, steps: seq<Step>, disk: Files, i: nat, thread: Thread, text: string)
    requires IsRun(run, steps, disk) && i < |run| && thread in run[i].pending
    requires run[i].pending[thread].call.n.Apart()
    ensures Enabled(run[i], Write(run[i].pending[thread].call.n.base, text))
  {
    RunKeepsInv(run, steps, disk, i);
    var s := run[i];
    var p := s.pending[thread];
    forall other | other in s.pending
      ensures other == thread
    {
      OnlyOne(s, disk, thread, other);
    }
    assert InProgress(p, AfterAll(disk, s.history), s.disk);
    ArchiveOpsSpareBase(p.call);
    assert forall k :: 0 <= k < |p.done| ==> p.done[k] == Ops(p.call)[k];
    assert |p.done| < |Ops(p.call)|;
  }

  // ---------------------------------------------------------------- a run that rotates

  lemma Extended(run: seq<State>, steps: seq<Step>, disk: Files, step: Step)
    returns (run': seq<State>, steps': seq<Step>)
    requires IsRun(run, steps, disk) && Enabled(run[|run| - 1], step)
    ensures IsRun(run', steps', disk) && run'[|run'| - 1] == Next(run[|run| - 1], step)
  {
    run', steps' := run + [Next(run[|run| - 1], step)], steps + [step];
    forall i | 0 <= i < |steps'|
      ensures Enabled(run'[i], steps'[i]) && run'[i + 1] == Next(run'[i], steps'[i])
    {
      if i < |steps| {
        assert run'[i] == run[i] && run'[i + 1] == run[i + 1] && steps'[i] == steps[i];
      }
    }
  }

  /** A thread that has listed works its operations off. */
  lemma {:induction false} WorkedOff(run: seq<State>, steps: seq<Step>, disk: Files, thread: Thread)
    returns (run': seq<State>, steps': seq<Step>)
    requires IsRun(run, steps, disk) && Moves(run[|run| - 1], thread) && thread in run[|run| - 1].listed
    requires thread in run[|run| - 1].pending
    ensures IsRun(run', steps', disk)
    ensures var s, s' := run[|run| - 1], run'[|run'| - 1];
            && s'.lock == s.lock && s'.listed == s.listed && thread !in s'.pending
            && s'.history == s.history + [Rotation(s.pending[thread].call)]
    decreases |run[|run| - 1].pending[thread].left|
  {
    RunKeepsInv(run, steps, disk, |run| - 1);
    var s := run[|run| - 1];
    assert InProgress(s.pending[thread], AfterAll(disk, s.history), s.disk);
    var run1, steps1 := Extended(run, steps, disk, Work(thread));
    if |s.pending[thread].left| == 1 {
      run', steps' := run1, steps1;
    } else {
      run', steps' := WorkedOff(run1, steps1, disk, thread);
    }
  }

  const ONE: Thread := (0, 0)

  /** From the start a thread gets both locks. */
  lemma LocksGot(disk: Files) returns (run: seq<State>, steps: seq<Step>)
    ensures IsRun(run, steps, disk)
    ensures var s := run[|run| - 1];
            && Moves(s, ONE) && s.disk == disk && s.pending == map[] && s.listed == {} && s.history == []
  {
    run, steps := [Initial(disk)], [];
    run, steps := Extended(run, steps, disk, OnLock(Lock.TryMutex(0, 0)));
    run, steps := Extended(run, steps, disk, OnLock(Lock.TryFile(0, 0, false)));
  }

  lemma ListedAndWorkedOff(run: seq<State>, steps: seq<Step>, disk: Files, thread: Thread, call: Call)
    returns (run': seq<State>, steps': seq<Step>)
    requires IsRun(run, steps, disk) && Enabled(run[|run| - 1], List(thread, call))
    requires run[|run| - 1].pending == map[]
    ensures IsRun(run', steps', disk)
    ensures var s, s' := run[|run| - 1], run'[|run'| - 1];
            && s'.lock == s.lock && thread !in s'.pending && s'.history == s.history + [Rotation(call)]
  {
    run', steps' := Extended(run, steps, disk, List(thread, call));
    if Ops(call) != [] {
      run', steps' := WorkedOff(run', steps', disk, thread);
    }
  }

  lemma LocksGivenBack(run: seq<State>, steps: seq<Step>, disk: Files, p: nat, t: nat)
    returns (run': seq<State>, steps': seq<Step>)
    requires IsRun(run, steps, disk) && Moves(run[|run| - 1], (p, t)) && (p, t) !in run[|run| - 1].pending
    ensures IsRun(run', steps', disk)
    ensures var s, s' := run[|run| - 1], run'[|run'| - 1];
            && s'.history == s.history && s'.lock.fileLock.None? && p !in s'.lock.mutex
            && Lock.At(s'.lock, p, t) == Lock.Outside
  {
    run', steps' := Extended(run, steps, disk, OnLock(Lock.UnlockFile(p, t, false)));
    run', steps' := Extended(run', steps', disk, OnLock(Lock.UnlockMutex(p, t)));
  }

  /**
   A single thread that calls on a directory with its base file gets both locks, rotates, and gives them back:
   the rotation that was due is in the history, and the directory is what it leaves.
   */
  lemma RotationHappens(disk: Files, call: Call) returns (run: seq<State>, steps: seq<Step>)
    requires call.n.base in disk && Globbed(call.listing, disk, call.n)
    ensures IsRun(run, steps, disk)
    ensures var s := run[|run| - 1];
            && s.history == [Rotation(call)] && s.disk == Rotated(disk, call)
            && s.lock.fileLock.None? && forall thread :: !Moves(s, thread)
  {
    run, steps := LocksGot(disk);
    run, steps := ListedAndWorkedOff(run, steps, disk, ONE, call);
    assert [] + [Rotation(call)] == [Rotation(call)];
    run, steps := LocksGivenBack(run, steps, disk, 0, 0);
    RunKeepsInv(run, steps, disk, |run| - 1);
    NobodyMoves(run[|run| - 1], disk);
    RotationsAreSerial(run, steps, disk, |run| - 1);
    OneRotation(disk, call);
  }

  lemma NobodyMoves(s: State, disk: Files)
    requires Inv(s, disk) && s.lock.fileLock.None?
    ensures forall thread :: !Moves(s, thread)
  {
  }

  lemma OneRotation(disk: Files, call: Call)
    ensures AfterAll(disk, [Rotation(call)]) == Rotated(disk, call)
  {
    assert [Rotation(call)][..0] == [];
  }
}
