/**
 The two-level rotation lock: a mutex per process and an advisory file lock per process. Threads of any
 number of processes interleave; fcntl may fail, and releasing the file lock may fail as well.
 */
module RotationLock {
  import opened Option

  type Process = nat
  type Thread = nat

  /** Where a thread is in zlog_rotater_rotate. */
  datatype Place = Outside | HasMutex | Moving | MutexOnly

  datatype State = State(mutex: map<Process, Thread>, fileLock: Option<Process>,
                         place: map<(Process, Thread), Place>, stuck: set<Process>)

  function At(s: State, p: Process, t: Thread): (place: Place) {
    if (p, t) in s.place then s.place[(p, t)] else Outside
  }

  /** Every system call of trylock and unlock is one step; its outcome is part of the step. */
  datatype Step =
    | TryMutex(p: Process, t: Thread)
    | TryFile(p: Process, t: Thread, error: bool)
    | UnlockFile(p: Process, t: Thread, error: bool)
    | UnlockMutex(p: Process, t: Thread)

  predicate Enabled(s: State, step: Step) {
    match step
    case TryMutex(p, t) => At(s, p, t) == Outside
    case TryFile(p, t, _) => At(s, p, t) == HasMutex
    case UnlockFile(p, t, _) => At(s, p, t) == Moving
    case UnlockMutex(p, t) => At(s, p, t) == MutexOnly
  }

  function Move(s: State, p: Process, t: Thread, place: Place): (r: State) {
    s.(place := s.place[(p, t) := place])
  }

  /**
   A busy mutex sends the thread back outside. The file lock belongs to the process: it is refused only
   while another process owns it, and the refused thread still has to release its mutex.
   */
  function Next(s: State, step: Step): (r: State)
    requires Enabled(s, step)
  {
    match step
    case TryMutex(p, t) =>
      if p in s.mutex then s else Move(s.(mutex := s.mutex[p := t]), p, t, HasMutex)
    case TryFile(p, t, error) =>
      if error || (s.fileLock.Some? && s.fileLock.value != p) then Move(s, p, t, MutexOnly)
      else Move(s.(fileLock := Some(p)), p, t, Moving)
    case UnlockFile(p, t, error) =>
      if error then Move(s.(stuck := s.stuck + {p}), p, t, MutexOnly)
      else Move(s.(fileLock := None, stuck := s.stuck - {p}), p, t, MutexOnly)
    case UnlockMutex(p, t) =>
      Move(s.(mutex := s.mutex - {p}), p, t, Outside)
  }

  /** Threads inside hold their process's mutex, movers' processes own the file lock. */
  ghost predicate Inv(s: State) {
    && (forall p: Process, t: Thread :: At(s, p, t) != Outside <==> (p in s.mutex && s.mutex[p] == t))
    && (forall p: Process, t: Thread :: At(s, p, t) == Moving ==> s.fileLock == Some(p))
    && (s.fileLock.Some? ==>
          s.fileLock.value in s.stuck
          || (s.fileLock.value in s.mutex && At(s, s.fileLock.value, s.mutex[s.fileLock.value]) == Moving))
  }

  const INITIAL := State(map[], None, map[], {})

  lemma StepKeepsInv(s: State, step: Step)
    requires Inv(s) && Enabled(s, step)
    ensures Inv(Next(s, step))
  {
    var r := Next(s, step);
    var p, t := step.p, step.t;
    assert forall q: Process, u: Thread :: (q, u) != (p, t) ==> At(r, q, u) == At(s, q, u);
  }

  /** A run: every step is taken where it is enabled. */
  ghost predicate IsRun(run: seq<State>, steps: seq<Step>) {
    && |run| == |steps| + 1 && run[0] == INITIAL
    && forall i :: 0 <= i < |steps| ==> Enabled(run[i], steps[i]) && run[i + 1] == Next(run[i], steps[i])
  }

  lemma {:induction false} RunKeepsInv(run: seq<State>, steps: seq<Step>, i: nat)
    requires IsRun(run, steps) && i < |run|
    ensures Inv(run[i])
  {
    if i > 0 {
      RunKeepsInv(run, steps, i - 1);
      StepKeepsInv(run[i - 1], steps[i - 1]);
    }
  }

  /** In every state of every run at most one thread of all processes is listing and moving files. */
  lemma OneMoverAtATime(run: seq<State>, steps: seq<Step>, i: nat, p: Process, t: Thread, q: Process, u: Thread)
    requires IsRun(run, steps) && i < |run|
    requires At(run[i], p, t) == Moving && At(run[i], q, u) == Moving
    ensures p == q && t == u
  {
    RunKeepsInv(run, steps, i);
  }

  /** fcntl never failed to release the file lock so far. */
  ghost predicate ReleasesSucceed(steps: seq<Step>, n: nat) {
    forall i :: 0 <= i < n && i < |steps| ==> !(steps[i].UnlockFile? && steps[i].error)
  }

  lemma {:induction false} NeverStuck(run: seq<State>, steps: seq<Step>, i: nat)
    requires IsRun(run, steps) && i < |run| && ReleasesSucceed(steps, i)
    ensures run[i].stuck == {}
  {
    if i > 0 {
      NeverStuck(run, steps, i - 1);
      assert run[i] == Next(run[i - 1], steps[i - 1]);
    }
  }

  /** A process owns the file lock only while one of its threads holds the mutex and moves files. */
  lemma FileLockImpliesMover(run: seq<State>, steps: seq<Step>, i: nat)
    requires IsRun(run, steps) && i < |run| && ReleasesSucceed(steps, i) && run[i].fileLock.Some?
    ensures var p := run[i].fileLock.value;
            p in run[i].mutex && At(run[i], p, run[i].mutex[p]) == Moving
  {
    RunKeepsInv(run, steps, i);
    NeverStuck(run, steps, i);
  }

  /** A thread that is back outside, after a success or a failed trylock, holds neither lock. */
  lemma OutsideHoldsNothing(run: seq<State>, steps: seq<Step>, i: nat, p: Process, t: Thread)
    requires IsRun(run, steps) && i < |run| && ReleasesSucceed(steps, i) && At(run[i], p, t) == Outside
    ensures !(p in run[i].mutex && run[i].mutex[p] == t)
    ensures (forall u: Thread :: At(run[i], p, u) == Outside) ==> run[i].fileLock != Some(p) && p !in run[i].mutex
  {
    RunKeepsInv(run, steps, i);
    NeverStuck(run, steps, i);
    if p in run[i].mutex {
      assert At(run[i], p, run[i].mutex[p]) != Outside;
    }
  }

  /** A failed release keeps the file lock with its process: later only threads of that process get in. */
  lemma StuckLockExcludesOthers(run: seq<State>, steps: seq<Step>, i: nat, p: Process, q: Process, u: Thread)
    requires IsRun(run, steps) && i < |run| && run[i].fileLock == Some(p) && q != p
    ensures At(run[i], q, u) != Moving
    ensures forall error :: Enabled(run[i], TryFile(q, u, error)) ==>
        At(Next(run[i], TryFile(q, u, error)), q, u) == MutexOnly
  {
    RunKeepsInv(run, steps, i);
  }

  // ---------------------------------------------------------------- getting the locks

  /**
   In every reachable state a thread outside gets both locks by two steps without an error exactly when its
   process's mutex is free and the file lock is free or its own process's.
   */
  lemma LocksGotExactlyWhen(run: seq<State>, steps: seq<Step>, i: nat, p: Process, t: Thread)
    requires IsRun(run, steps) && i < |run| && At(run[i], p, t) == Outside
    ensures Enabled(run[i], TryMutex(p, t))
    ensures var s, s1 := run[i], Next(run[i], TryMutex(p, t));
            && (p in s.mutex ==> s1 == s)
            && (p !in s.mutex ==>
                  && At(s1, p, t) == HasMutex && s1.mutex == s.mutex[p := t] && s1.fileLock == s.fileLock
                  && Enabled(s1, TryFile(p, t, false)) && Enabled(s1, TryFile(p, t, true))
                  && At(Next(s1, TryFile(p, t, true)), p, t) == MutexOnly
                  && At(Next(s1, TryFile(p, t, false)), p, t)
                     == if s.fileLock.None? || s.fileLock.value == p then Moving else MutexOnly)
  {
  }

  /** A mover that releases without an error leaves both locks free, and a refused thread frees its mutex. */
  lemma LocksAreReleased(run: seq<State>, steps: seq<Step>, i: nat, p: Process, t: Thread)
    requires IsRun(run, steps) && i < |run|
    ensures At(run[i], p, t) == Moving ==>
        && Enabled(run[i], UnlockFile(p, t, false))
        && var s1 := Next(run[i], UnlockFile(p, t, false));
           && Enabled(s1, UnlockMutex(p, t)) && s1.fileLock == None
           && var s2 := Next(s1, UnlockMutex(p, t));
              At(s2, p, t) == Outside && p !in s2.mutex && s2.fileLock == None
    ensures At(run[i], p, t) == MutexOnly ==>
        && Enabled(run[i], UnlockMutex(p, t))
        && var s1 := Next(run[i], UnlockMutex(p, t));
           At(s1, p, t) == Outside && p !in s1.mutex && s1.fileLock == run[i].fileLock
  {
  }
}
