/**
 Read-write lock built from a mutex and two condition variables: my_rwlock (Plain) and
 my_rwlock_cancel (Cancelable), over any number of threads.  Every mutex-held section is one
 step and pthread_cond_wait splits a section in two; spurious wake-ups are allowed.
 */
module RwLock {
  import opened Common

  datatype Variant = Plain | Cancelable

  /** The fields of pthread_rwlock_t other than the mutex and the condition variables. */
  datatype Lock = Lock(refcount: int, nwaitreaders: int, nwaitwriters: int)

  /** What a section does to the condition variables before it releases the mutex. */
  datatype Wake = Nobody | OneWriter | AllReaders

  // ---------------------------------------------------------------- the mutex-held sections

  predicate ReaderMustWait(l: Lock) {
    l.refcount < 0 || l.nwaitwriters > 0
  }

  function EnterRead(l: Lock): Lock {
    if ReaderMustWait(l) then l.(nwaitreaders := l.nwaitreaders + 1) else l.(refcount := l.refcount + 1)
  }

  function EnterWrite(l: Lock): Lock {
    if l.refcount != 0 then l.(nwaitwriters := l.nwaitwriters + 1) else l.(refcount := -1)
  }

  /** Back from pthread_cond_wait: leave the wait, then go round the loop again. */
  function ResumeRead(l: Lock): Lock {
    EnterRead(l.(nwaitreaders := l.nwaitreaders - 1))
  }

  function ResumeWrite(l: Lock): Lock {
    EnterWrite(l.(nwaitwriters := l.nwaitwriters - 1))
  }

  function Release(l: Lock): Lock {
    if l.refcount > 0 then l.(refcount := l.refcount - 1)
    else if l.refcount == -1 then l.(refcount := 0)
    else l  // err_dump
  }

  /** The wake-up choice of unlock; l is the lock after Release. */
  function Waking(v: Variant, l: Lock): Wake {
    if l.nwaitwriters > 0 then
      if v == Cancelable || l.refcount == 0 then OneWriter else Nobody
    else if l.nwaitreaders > 0 then AllReaders
    else Nobody
  }

  // ---------------------------------------------------------------- the system

  datatype Status =
    | Idle | Reading | Writing | Gone
    | AsleepR | WokenR     // inside cond_wait on condreaders, before and after a wake-up
    | AsleepW | WokenW     // inside cond_wait on condwriters, before and after a wake-up

  datatype State = State(lock: Lock, threads: seq<Status>)

  datatype Action =
    | RdLock(i: nat) | WrLock(i: nat)
    | TryRdLock(i: nat) | TryWrLock(i: nat)
    | Resume(i: nat)
    | Unlock(i: nat, chosen: nat)   // chosen: the writer that the signal wakes, if any sleeps
    | Spurious(i: nat)
    | Cancel(i: nat)                // pthread_cancel delivered to a waiter

  predicate Asleep(p: Status) { p == AsleepR || p == AsleepW }
  predicate Woken(p: Status) { p == WokenR || p == WokenW }
  predicate Holding(p: Status) { p == Reading || p == Writing }

  ghost predicate Init(s: State) {
    && s.lock == Lock(0, 0, 0)
    && forall i :: 0 <= i < |s.threads| ==> s.threads[i] == Idle
  }

  predicate SomeWriterSleeps(s: State) {
    exists j :: 0 <= j < |s.threads| && s.threads[j] == AsleepW
  }

  /** The writer i, already signalled, is not needed: the lock is held, another woken writer is
      on its way, or nobody sleeps. */
  predicate Spared(s: State, i: nat) {
    || s.lock.refcount != 0
    || (exists w :: 0 <= w < |s.threads| && w != i && s.threads[w] == WokenW)
    || (forall k :: 0 <= k < |s.threads| ==> !Asleep(s.threads[k]))
  }

  /** Only holders unlock; a signal wakes a sleeping writer whenever there is one.  A writer that
      has been signalled is cancelled only if it can be spared; see CancelWokenStrands. */
  predicate Ready(v: Variant, s: State, a: Action) {
    a.i < |s.threads| &&
    match a
    case RdLock(i) => s.threads[i] == Idle
    case WrLock(i) => s.threads[i] == Idle
    case TryRdLock(i) => s.threads[i] == Idle
    case TryWrLock(i) => s.threads[i] == Idle
    case Resume(i) => Woken(s.threads[i])
    case Unlock(i, j) =>
      && Holding(s.threads[i])
      && (SomeWriterSleeps(s) ==> j < |s.threads| && s.threads[j] == AsleepW)
    case Spurious(i) => Asleep(s.threads[i])
    case Cancel(i) =>
      v == Cancelable && (Asleep(s.threads[i]) || s.threads[i] == WokenR || (s.threads[i] == WokenW && Spared(s, i)))
  }

  function Wakened(p: Status): Status {
    match p case AsleepR => WokenR case AsleepW => WokenW case _ => p
  }

  function WakeReaders(ts: seq<Status>): (r: seq<Status>)
    ensures |r| == |ts|
    ensures forall k :: 0 <= k < |ts| ==> r[k] == if ts[k] == AsleepR then WokenR else ts[k]
  {
    seq(|ts|, k requires 0 <= k < |ts| => if ts[k] == AsleepR then WokenR else ts[k])
  }

  function WakeOne(ts: seq<Status>, j: nat): seq<Status> {
    if j < |ts| && ts[j] == AsleepW then ts[j := WokenW] else ts
  }

  function Step(v: Variant, s: State, a: Action): State
    requires Ready(v, s, a)
  {
    var l, ts := s.lock, s.threads;
    match a
    case RdLock(i) => State(EnterRead(l), ts[i := if ReaderMustWait(l) then AsleepR else Reading])
    case WrLock(i) => State(EnterWrite(l), ts[i := if l.refcount != 0 then AsleepW else Writing])
    case TryRdLock(i) =>
      if ReaderMustWait(l) then s else State(l.(refcount := l.refcount + 1), ts[i := Reading])
    case TryWrLock(i) =>
      if l.refcount != 0 then s else State(l.(refcount := -1), ts[i := Writing])
    case Resume(i) =>
      if ts[i] == WokenR then
        State(ResumeRead(l), ts[i := if ReaderMustWait(l) then AsleepR else Reading])
      else
        State(ResumeWrite(l), ts[i := if l.refcount != 0 then AsleepW else Writing])
    case Unlock(i, j) =>
      var freed := ts[i := Idle];
      var l' := Release(l);
      State(l', match Waking(v, l')
                case Nobody => freed
                case OneWriter => WakeOne(freed, j)
                case AllReaders => WakeReaders(freed))
    case Spurious(i) => s.(threads := ts[i := Wakened(ts[i])])
    case Cancel(i) =>
      State(if ts[i] == AsleepR || ts[i] == WokenR then l.(nwaitreaders := l.nwaitreaders - 1)
            else l.(nwaitwriters := l.nwaitwriters - 1), ts[i := Gone])
  }

  ghost predicate Run(v: Variant, s: State, trace: seq<Action>, t: State)
    decreases |trace|
  {
    if trace == [] then s == t
    else Ready(v, s, trace[0]) && Run(v, Step(v, s, trace[0]), trace[1..], t)
  }

  // ---------------------------------------------------------------- counting threads

  function IsReading(p: Status): int { if p == Reading then 1 else 0 }
  function IsWriting(p: Status): int { if p == Writing then 1 else 0 }
  function WaitsToRead(p: Status): int { if p == AsleepR || p == WokenR then 1 else 0 }
  function WaitsToWrite(p: Status): int { if p == AsleepW || p == WokenW then 1 else 0 }

  /** The counters are exact: refcount is -1 with one writer and no reader holding, or else the
      number of readers holding, and the wait counters are the threads inside a wait. */
  ghost predicate Exact(s: State) {
    && s.lock.nwaitreaders == Total(WaitsToRead, s.threads)
    && s.lock.nwaitwriters == Total(WaitsToWrite, s.threads)
    && (|| (s.lock.refcount == -1 && Total(IsWriting, s.threads) == 1 && Total(IsReading, s.threads) == 0)
        || (s.lock.refcount == Total(IsReading, s.threads) && Total(IsWriting, s.threads) == 0))
  }

  ghost predicate WriterWoken(s: State) {
    exists j :: 0 <= j < |s.threads| && s.threads[j] == WokenW
  }

  /** A sleeping writer has the lock held, or a woken writer ahead of it. */
  ghost predicate WritersSafe(s: State) {
    forall i :: 0 <= i < |s.threads| && s.threads[i] == AsleepW ==> s.lock.refcount != 0 || WriterWoken(s)
  }

  /** A sleeping reader has a writer holding (with cancellation: anybody holding) or waiting. */
  ghost predicate ReadersSafe(v: Variant, s: State) {
    forall i :: 0 <= i < |s.threads| && s.threads[i] == AsleepR ==>
      || s.lock.nwaitwriters > 0
      || (if v == Plain then s.lock.refcount == -1 else s.lock.refcount != 0)
  }

  ghost predicate Inv(v: Variant, s: State) {
    Exact(s) && WritersSafe(s) && ReadersSafe(v, s)
  }

  // ---------------------------------------------------------------- exact counters

  /** How the four populations change when thread i becomes p. */
  lemma Moved(ts: seq<Status>, i: nat, p: Status)
    requires i < |ts|
    ensures Total(WaitsToRead, ts[i := p]) == Total(WaitsToRead, ts) - WaitsToRead(ts[i]) + WaitsToRead(p)
    ensures Total(WaitsToWrite, ts[i := p]) == Total(WaitsToWrite, ts) - WaitsToWrite(ts[i]) + WaitsToWrite(p)
    ensures Total(IsReading, ts[i := p]) == Total(IsReading, ts) - IsReading(ts[i]) + IsReading(p)
    ensures Total(IsWriting, ts[i := p]) == Total(IsWriting, ts) - IsWriting(ts[i]) + IsWriting(p)
  {
    TotalUpdate(WaitsToRead, ts, i, p);
    TotalUpdate(WaitsToWrite, ts, i, p);
    TotalUpdate(IsReading, ts, i, p);
    TotalUpdate(IsWriting, ts, i, p);
  }

  /** Waking changes no population. */
  lemma WakingCounts(ts: seq<Status>, us: seq<Status>)
    requires |ts| == |us|
    requires forall k :: 0 <= k < |ts| ==> us[k] == ts[k] || us[k] == Wakened(ts[k])
    ensures Total(WaitsToRead, us) == Total(WaitsToRead, ts)
    ensures Total(WaitsToWrite, us) == Total(WaitsToWrite, ts)
    ensures Total(IsReading, us) == Total(IsReading, ts)
    ensures Total(IsWriting, us) == Total(IsWriting, ts)
  {
    TotalSame(WaitsToRead, ts, us);
    TotalSame(WaitsToWrite, ts, us);
    TotalSame(IsReading, ts, us);
    TotalSame(IsWriting, ts, us);
  }

  /** A thread found in a population makes that population non-empty. */
  lemma Present(s: State, i: nat)
    requires i < |s.threads|
    ensures Total(WaitsToRead, s.threads) >= WaitsToRead(s.threads[i])
    ensures Total(WaitsToWrite, s.threads) >= WaitsToWrite(s.threads[i])
    ensures Total(IsReading, s.threads) >= IsReading(s.threads[i])
    ensures Total(IsWriting, s.threads) >= IsWriting(s.threads[i])
    ensures Total(IsReading, s.threads) >= 0
  {
    TotalAtLeast(WaitsToRead, s.threads, i);
    TotalAtLeast(WaitsToWrite, s.threads, i);
    TotalAtLeast(IsReading, s.threads, i);
    TotalAtLeast(IsWriting, s.threads, i);
  }

  /** An unlock frees its own thread and otherwise only wakes. */
  lemma {:induction false} UnlockMoves(v: Variant, s: State, i: nat, j: nat)
    requires Ready(v, s, Unlock(i, j))
    ensures var freed, t := s.threads[i := Idle], Step(v, s, Unlock(i, j));
            && |t.threads| == |freed|
            && forall k :: 0 <= k < |freed| ==> t.threads[k] == freed[k] || t.threads[k] == Wakened(freed[k])
  {
  }

  lemma {:induction false} UnlockKeepsExact(v: Variant, s: State, i: nat, j: nat)
    requires Exact(s) && Ready(v, s, Unlock(i, j))
    ensures Exact(Step(v, s, Unlock(i, j)))
    ensures s.lock.refcount > 0 || s.lock.refcount == -1
  {
    Present(s, i);
    Moved(s.threads, i, Idle);
    UnlockMoves(v, s, i, j);
    WakingCounts(s.threads[i := Idle], Step(v, s, Unlock(i, j)).threads);
  }

  lemma StepKeepsExact(v: Variant, s: State, a: Action)
    requires Exact(s) && Ready(v, s, a)
    ensures Exact(Step(v, s, a))
  {
    if a.Unlock? {
      UnlockKeepsExact(v, s, a.i, a.chosen);
    } else {
      Present(s, a.i);
      var t := Step(v, s, a);
      Moved(s.threads, a.i, t.threads[a.i]);
    }
  }

  // ---------------------------------------------------------------- no stranded waiter

  lemma UnlockKeepsWriters(v: Variant, s: State, i: nat, j: nat)
    requires Exact(s) && Ready(v, s, Unlock(i, j))
    ensures WritersSafe(Step(v, s, Unlock(i, j)))
  {
    var t := Step(v, s, Unlock(i, j));
    forall k: nat | k < |t.threads| && t.threads[k] == AsleepW
      ensures t.lock.refcount != 0 || WriterWoken(t)
    {
      assert s.threads[k] == AsleepW;
      Present(s, k);
      assert t.lock.refcount == 0 ==> t.threads[j] == WokenW;
    }
  }

  lemma UnlockKeepsReaders(v: Variant, s: State, i: nat, j: nat)
    requires Exact(s) && Ready(v, s, Unlock(i, j))
    ensures ReadersSafe(v, Step(v, s, Unlock(i, j)))
  {
    var t := Step(v, s, Unlock(i, j));
    forall k: nat | k < |t.threads| && t.threads[k] == AsleepR
      ensures t.lock.nwaitwriters > 0
    {
      assert s.threads[k] == AsleepR;
      Present(s, k);
    }
  }

  lemma StepKeepsWriters(v: Variant, s: State, a: Action)
    requires Exact(s) && WritersSafe(s) && Ready(v, s, a) && !a.Unlock?
    requires !(a.Cancel? && s.threads[a.i] == WokenW)
    ensures WritersSafe(Step(v, s, a))
  {
    var t := Step(v, s, a);
    forall k: nat | k < |t.threads| && t.threads[k] == AsleepW
      ensures t.lock.refcount != 0 || WriterWoken(t)
    {
      if k != a.i && s.lock.refcount == 0 {
        assert s.threads[k] == AsleepW;
        var w :| 0 <= w < |s.threads| && s.threads[w] == WokenW;
        Present(s, w);
        assert w != a.i ==> t.threads[w] == WokenW;
      }
    }
  }

  lemma StepKeepsReaders(v: Variant, s: State, a: Action)
    requires Inv(v, s) && Ready(v, s, a) && !a.Unlock?
    requires !(a.Cancel? && s.threads[a.i] == WokenW)
    ensures ReadersSafe(v, Step(v, s, a))
  {
    var t := Step(v, s, a);
    StepKeepsExact(v, s, a);
    Present(s, a.i);
    if a.Cancel? && s.threads[a.i] == AsleepW && s.lock.refcount == 0 {
      var w :| 0 <= w < |s.threads| && s.threads[w] == WokenW;
      Present(t, w);
    }
  }

  lemma StepKeepsInv(v: Variant, s: State, a: Action)
    requires Inv(v, s) && Ready(v, s, a)
    ensures Inv(v, Step(v, s, a))
  {
    StepKeepsExact(v, s, a);
    if a.Unlock? {
      UnlockKeepsWriters(v, s, a.i, a.chosen);
      UnlockKeepsReaders(v, s, a.i, a.chosen);
    } else if a.Cancel? && s.threads[a.i] == WokenW {
      CancelWokenStrands(s, a.i);
    } else {
      StepKeepsWriters(v, s, a);
      StepKeepsReaders(v, s, a);
    }
  }

  lemma InitInv(v: Variant, s: State)
    requires Init(s)
    ensures Inv(v, s)
  {
    TotalUniform(WaitsToRead, s.threads, 0);
    TotalUniform(WaitsToWrite, s.threads, 0);
    TotalUniform(IsReading, s.threads, 0);
    TotalUniform(IsWriting, s.threads, 0);
  }

  lemma {:induction false} RunKeepsInv(v: Variant, s: State, trace: seq<Action>, t: State)
    requires Inv(v, s) && Run(v, s, trace, t)
    ensures Inv(v, t)
    decreases |trace|
  {
    if trace != [] {
      StepKeepsInv(v, s, trace[0]);
      RunKeepsInv(v, Step(v, s, trace[0]), trace[1..], t);
    }
  }

  // ---------------------------------------------------------------- main results

  /** In every reachable state the counters are exact and readers and writers exclude each
      other: a writing thread is alone. */
  lemma EveryRunExcludes(v: Variant, s: State, trace: seq<Action>, t: State)
    requires Init(s) && Run(v, s, trace, t)
    ensures Exact(t)
    ensures forall i, j :: 0 <= i < |t.threads| && 0 <= j < |t.threads| && i != j && t.threads[i] == Writing ==>
                             !Holding(t.threads[j])
    ensures forall i :: 0 <= i < |t.threads| && Holding(t.threads[i]) ==> t.lock.refcount > 0 || t.lock.refcount == -1
  {
    InitInv(v, s);
    RunKeepsInv(v, s, trace, t);
    forall i: nat, j: nat | i < |t.threads| && j < |t.threads| && i != j && t.threads[i] == Writing
      ensures !Holding(t.threads[j])
    {
      WriterIsAlone(t, i, j);
    }
    forall i: nat | i < |t.threads| && Holding(t.threads[i])
      ensures t.lock.refcount > 0 || t.lock.refcount == -1
    {
      Present(t, i);
    }
  }

  lemma WriterIsAlone(s: State, i: nat, j: nat)
    requires Exact(s) && i < |s.threads| && j < |s.threads| && i != j && s.threads[i] == Writing
    ensures !Holding(s.threads[j])
  {
    Present(s, i);
    Present(s, j);
    var without := State(s.lock, s.threads[i := Idle]);
    Moved(s.threads, i, Idle);
    Present(without, j);
  }

  /** Whoever sleeps in a reachable state, somebody holds the lock or a woken writer can take it
      at once; so a run never ends with everybody asleep. */
  lemma NobodyStranded(v: Variant, s: State, trace: seq<Action>, t: State, k: nat)
    requires Init(s) && Run(v, s, trace, t)
    requires k < |t.threads| && Asleep(t.threads[k])
    ensures exists i :: 0 <= i < |t.threads| && (Holding(t.threads[i]) || (t.threads[i] == WokenW && t.lock.refcount == 0))
    ensures v == Plain && t.threads[k] == AsleepR ==> t.lock.refcount == -1 || t.lock.nwaitwriters > 0
  {
    InitInv(v, s);
    RunKeepsInv(v, s, trace, t);
    if t.lock.refcount != 0 {
      HolderExists(t);
    } else {
      WaiterImpliesWoken(t, k);
    }
  }

  lemma HolderExists(s: State)
    requires Exact(s) && s.lock.refcount != 0
    ensures exists i :: 0 <= i < |s.threads| && Holding(s.threads[i])
  {
    TotalAtLeast(IsReading, s.threads, 0);
    if s.lock.refcount == -1 {
      TotalPositive(IsWriting, s.threads);
      var i :| 0 <= i < |s.threads| && IsWriting(s.threads[i]) > 0;
      assert Holding(s.threads[i]);
    } else {
      TotalPositive(IsReading, s.threads);
      var i :| 0 <= i < |s.threads| && IsReading(s.threads[i]) > 0;
      assert Holding(s.threads[i]);
    }
  }

  lemma WaiterImpliesWoken(s: State, k: nat)
    requires Exact(s) && WritersSafe(s) && s.lock.refcount == 0
    requires k < |s.threads| && (s.threads[k] == AsleepW || s.lock.nwaitwriters > 0)
    ensures WriterWoken(s)
  {
    if s.threads[k] != AsleepW {
      TotalPositive(WaitsToWrite, s.threads);
      var i :| 0 <= i < |s.threads| && WaitsToWrite(s.threads[i]) > 0;
    }
  }

  // ---------------------------------------------------------------- writer preference

  /** No step of the run lets a writer in or cancels a waiting writer. */
  ghost predicate NoWriterServed(v: Variant, s: State, trace: seq<Action>)
    decreases |trace|
  {
    trace == [] ||
    (&& Ready(v, s, trace[0])
     && !(trace[0].Cancel? && WaitsToWrite(s.threads[trace[0].i]) == 1)
     && Total(IsWriting, Step(v, s, trace[0]).threads) <= Total(IsWriting, s.threads)
     && NoWriterServed(v, Step(v, s, trace[0]), trace[1..]))
  }

  lemma StepAdmitsNoReader(v: Variant, s: State, a: Action)
    requires Exact(s) && Ready(v, s, a) && s.lock.nwaitwriters > 0
    requires !(a.Cancel? && WaitsToWrite(s.threads[a.i]) == 1)
    requires Total(IsWriting, Step(v, s, a).threads) <= Total(IsWriting, s.threads)
    ensures Total(IsReading, Step(v, s, a).threads) <= Total(IsReading, s.threads)
    ensures Step(v, s, a).lock.nwaitwriters > 0
  {
    if a.Unlock? {
      Moved(s.threads, a.i, Idle);
      UnlockMoves(v, s, a.i, a.chosen);
      WakingCounts(s.threads[a.i := Idle], Step(v, s, a).threads);
    } else {
      Moved(s.threads, a.i, Step(v, s, a).threads[a.i]);
    }
  }

  /** Once a writer waits, no reader gets in until some writer has been served. */
  lemma {:induction false} WritersPreferred(v: Variant, s: State, trace: seq<Action>, t: State)
    requires Inv(v, s) && s.lock.nwaitwriters > 0
    requires Run(v, s, trace, t) && NoWriterServed(v, s, trace)
    ensures Total(IsReading, t.threads) <= Total(IsReading, s.threads)
    ensures t.lock.nwaitwriters > 0
    decreases |trace|
  {
    if trace != [] {
      StepAdmitsNoReader(v, s, trace[0]);
      StepKeepsInv(v, s, trace[0]);
      WritersPreferred(v, Step(v, s, trace[0]), trace[1..], t);
    }
  }

  // ---------------------------------------------------------------- destroy and cancellation

  /** The EBUSY test of pthread_rwlock_destroy. */
  predicate DestroyIsBusy(l: Lock) {
    l.refcount != 0 || l.nwaitreaders != 0 || l.nwaitwriters != 0
  }

  /** In a reachable state, whatever was cancelled before, destroy reports EBUSY exactly when
      some thread holds the lock or waits for it. */
  lemma DestroyIsExact(v: Variant, s: State, trace: seq<Action>, t: State)
    requires Init(s) && Run(v, s, trace, t)
    ensures DestroyIsBusy(t.lock) <==> exists i :: 0 <= i < |t.threads| && t.threads[i] != Idle && t.threads[i] != Gone
  {
    InitInv(v, s);
    RunKeepsInv(v, s, trace, t);
    if i: nat :| i < |t.threads| && t.threads[i] != Idle && t.threads[i] != Gone {
      Present(t, i);
    } else {
      TotalUniform(WaitsToRead, t.threads, 0);
      TotalUniform(WaitsToWrite, t.threads, 0);
      TotalUniform(IsReading, t.threads, 0);
      TotalUniform(IsWriting, t.threads, 0);
    }
  }

  /** The cleanup handler run by a writer that had already been signalled. */
  function CancelWoken(s: State, i: nat): State
    requires i < |s.threads|
  {
    State(s.lock.(nwaitwriters := s.lock.nwaitwriters - 1), s.threads[i := Gone])
  }

  /** Cancelling a signalled writer swallows the signal.  It strands somebody exactly when the
      lock is free, no other woken writer is on its way, and somebody sleeps. */
  lemma CancelWokenStrands(s: State, i: nat)
    requires Inv(Cancelable, s) && i < |s.threads| && s.threads[i] == WokenW
    ensures Exact(CancelWoken(s, i))
    ensures Inv(Cancelable, CancelWoken(s, i)) <==> Spared(s, i)
  {
    var t := CancelWoken(s, i);
    Moved(s.threads, i, Gone);
    if s.lock.refcount == 0 {
      if w: nat :| w < |s.threads| && w != i && s.threads[w] == WokenW {
        assert t.threads[w] == WokenW;
        Present(t, w);
      } else if k: nat :| k < |s.threads| && Asleep(s.threads[k]) {
        assert t.threads[k] == s.threads[k];
        if WritersSafe(t) && ReadersSafe(Cancelable, t) {
          WaiterImpliesWoken(t, k);
        }
      }
    }
  }

  lemma {:induction false} RunCons(v: Variant, s: State, a: Action, trace: seq<Action>, t: State)
    requires Ready(v, s, a) && Run(v, Step(v, s, a), trace, t)
    ensures Run(v, s, [a] + trace, t)
  {
    assert ([a] + trace)[1..] == trace;
  }

  /** The failing case is reachable: a reader asleep for ever behind a free lock. */
  lemma CancelWokenCounterexample() returns (trace: seq<Action>, t: State)
    ensures Init(State(Lock(0, 0, 0), [Idle, Idle, Idle]))
    ensures Run(Cancelable, State(Lock(0, 0, 0), [Idle, Idle, Idle]), trace, t)
    ensures t.threads == [Idle, WokenW, AsleepR]
    ensures CancelWoken(t, 1) == State(Lock(0, 1, 0), [Idle, Gone, AsleepR])
    ensures !ReadersSafe(Cancelable, CancelWoken(t, 1))
  {
    var s0 := State(Lock(0, 0, 0), [Idle, Idle, Idle]);
    var s1 := State(Lock(-1, 0, 0), [Writing, Idle, Idle]);
    var s2 := State(Lock(-1, 0, 1), [Writing, AsleepW, Idle]);
    var s3 := State(Lock(-1, 1, 1), [Writing, AsleepW, AsleepR]);
    t := State(Lock(0, 1, 1), [Idle, WokenW, AsleepR]);
    assert Step(Cancelable, s0, WrLock(0)) == s1 && Step(Cancelable, s1, WrLock(1)) == s2;
    assert Step(Cancelable, s2, RdLock(2)) == s3;
    assert Step(Cancelable, s3, Unlock(0, 1)) == t;
    RunCons(Cancelable, s3, Unlock(0, 1), [], t);
    RunCons(Cancelable, s2, RdLock(2), [Unlock(0, 1)] + [], t);
    RunCons(Cancelable, s1, WrLock(1), [RdLock(2)] + ([Unlock(0, 1)] + []), t);
    RunCons(Cancelable, s0, WrLock(0), [WrLock(1)] + ([RdLock(2)] + ([Unlock(0, 1)] + [])), t);
    trace := [WrLock(0)] + ([WrLock(1)] + ([RdLock(2)] + ([Unlock(0, 1)] + [])));
    assert CancelWoken(t, 1).threads[2] == AsleepR;
  }

  // ---------------------------------------------------------------- service

  /** Nobody asks for the lock any more. */
  ghost predicate NoRequests(trace: seq<Action>) {
    forall k :: 0 <= k < |trace| ==> Serves(trace[k])
  }

  predicate Serves(a: Action) {
    a.Resume? || a.Unlock? || a.Spurious? || a.Cancel?
  }

  function SpuriousIn(trace: seq<Action>): nat {
    if trace == [] then 0 else One(trace[0].Spurious?) + SpuriousIn(trace[1..])
  }

  function IsActive(p: Status): int { if p == Idle || p == Gone then 0 else 1 }
  function IsWoken(p: Status): int { if Woken(p) then 1 else 0 }

  /** Every unlock can wake everybody, but nobody unlocks twice. */
  ghost function Work(s: State): int {
    (|s.threads| + 1) * Total(IsActive, s.threads) + Total(IsWoken, s.threads)
  }

  lemma {:induction false} TotalOfOnes(w: Status -> int, ts: seq<Status>)
    requires forall p :: 0 <= w(p) <= 1
    ensures 0 <= Total(w, ts) <= |ts|
  {
    if ts != [] {
      TotalOfOnes(w, ts[1..]);
    }
  }

  /** An unlock makes one thread inactive and wakes at most all of them. */
  lemma {:induction false} UnlockServes(v: Variant, s: State, i: nat, j: nat)
    requires Ready(v, s, Unlock(i, j))
    ensures Work(Step(v, s, Unlock(i, j))) < Work(s)
    ensures |Step(v, s, Unlock(i, j)).threads| == |s.threads|
  {
    var t := Step(v, s, Unlock(i, j));
    UnlockMoves(v, s, i, j);
    TotalUpdate(IsActive, s.threads, i, Idle);
    TotalSame(IsActive, s.threads[i := Idle], t.threads);
    TotalOfOnes(IsWoken, t.threads);
    TotalOfOnes(IsWoken, s.threads);
    var n, a := |s.threads|, Total(IsActive, s.threads);
    assert (n + 1) * (a - 1) == (n + 1) * a - (n + 1);
  }

  lemma {:induction false} StepServes(v: Variant, s: State, a: Action)
    requires Ready(v, s, a) && Serves(a)
    ensures Work(Step(v, s, a)) < Work(s) + 2 * One(a.Spurious?)
    ensures |Step(v, s, a).threads| == |s.threads|
  {
    if a.Unlock? {
      UnlockServes(v, s, a.i, a.chosen);
    } else {
      var p := Step(v, s, a).threads[a.i];
      TotalUpdate(IsActive, s.threads, a.i, p);
      TotalUpdate(IsWoken, s.threads, a.i, p);
      var n, m := |s.threads|, Total(IsActive, s.threads);
      assert (n + 1) * (m - 1) == (n + 1) * m - (n + 1);
    }
  }

  lemma {:induction false} RunServes(v: Variant, s: State, trace: seq<Action>, t: State)
    requires Run(v, s, trace, t) && NoRequests(trace)
    ensures Work(t) + |trace| <= Work(s) + 2 * SpuriousIn(trace)
    ensures |t.threads| == |s.threads|
    decreases |trace|
  {
    if trace != [] {
      StepServes(v, s, trace[0]);
      RunServes(v, Step(v, s, trace[0]), trace[1..], t);
    }
  }

  /** Nobody can resume or unlock. */
  ghost predicate Quiet(v: Variant, s: State) {
    forall a :: Ready(v, s, a) ==> !a.Resume? && !a.Unlock?
  }

  lemma {:induction false} QuietIsOver(v: Variant, s: State, k: nat)
    requires Inv(v, s) && Quiet(v, s) && k < |s.threads|
    ensures s.threads[k] == Idle || s.threads[k] == Gone
  {
    forall i: nat | i < |s.threads|
      ensures !Woken(s.threads[i]) && !Holding(s.threads[i])
    {
      assert !Ready(v, s, Resume(i));
      var j: nat := if SomeWriterSleeps(s) then var j :| 0 <= j < |s.threads| && s.threads[j] == AsleepW; j else 0;
      assert !Ready(v, s, Unlock(i, j));
    }
    if s.lock.refcount != 0 {
      HolderExists(s);
    } else if Asleep(s.threads[k]) {
      WaiterImpliesWoken(s, k);
    }
  }

  /** Everybody is served: after any run, once nobody asks for the lock any more, the threads
      take at most n(n + 2) steps, spurious wake-ups apart, and they can stop only when each has
      had the lock and released it or has been cancelled. */
  lemma {:induction false} EverybodyIsServed(v: Variant, s0: State, before: seq<Action>, s: State, trace: seq<Action>, t: State)
    requires Init(s0) && Run(v, s0, before, s) && Run(v, s, trace, t) && NoRequests(trace)
    ensures |trace| <= |s.threads| * (|s.threads| + 2) + 2 * SpuriousIn(trace)
    ensures Quiet(v, t) ==> forall k :: 0 <= k < |t.threads| ==> t.threads[k] == Idle || t.threads[k] == Gone
  {
    InitInv(v, s0);
    RunKeepsInv(v, s0, before, s);
    RunKeepsInv(v, s, trace, t);
    RunServes(v, s, trace, t);
    WorkBound(s);
    WorkBound(t);
    if Quiet(v, t) {
      forall k: nat | k < |t.threads|
        ensures t.threads[k] == Idle || t.threads[k] == Gone
      {
        QuietIsOver(v, t, k);
      }
    }
  }

  lemma {:induction false} WorkBound(s: State)
    ensures 0 <= Work(s) <= |s.threads| * (|s.threads| + 2)
  {
    var n, a := |s.threads|, Total(IsActive, s.threads);
    TotalOfOnes(IsActive, s.threads);
    TotalOfOnes(IsWoken, s.threads);
    assert (n + 1) * n - (n + 1) * a == (n + 1) * (n - a);
    assert 0 <= (n + 1) * a && 0 <= (n + 1) * (n - a);
  }
}
