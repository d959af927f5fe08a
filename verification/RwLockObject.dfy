/**
 pthread_rwlock_t as an object (my_rwlock and my_rwlock_cancel): its counters, updated in place by
 the mutex-held sections, tell the truth about the threads that use it.
 */
module RwLockObject {
  import opened Common
  import opened RwLock

  /** A thread that keeps readers out: a writer that holds the lock or waits for it. */
  predicate Bars(p: Status) {
    p == Writing || WaitsToWrite(p) == 1
  }

  ghost predicate SomeHold(ts: seq<Status>) {
    exists j :: 0 <= j < |ts| && Holding(ts[j])
  }

  ghost predicate SomeBar(ts: seq<Status>) {
    exists j :: 0 <= j < |ts| && Bars(ts[j])
  }

  ghost predicate WriterWaits(ts: seq<Status>) {
    exists j :: 0 <= j < |ts| && WaitsToWrite(ts[j]) == 1
  }

  ghost predicate ReaderWaits(ts: seq<Status>) {
    exists j :: 0 <= j < |ts| && WaitsToRead(ts[j]) == 1
  }

  /** What pthread_cond_signal and pthread_cond_broadcast do to the threads. */
  function WokenBy(wake: Wake, ts: seq<Status>, j: nat): seq<Status> {
    match wake
    case Nobody => ts
    case OneWriter => WakeOne(ts, j)
    case AllReaders => WakeReaders(ts)
  }

  lemma {:induction false} WaitsExactly(s: State)
    requires Exact(s)
    ensures s.lock.nwaitwriters >= 0 && (s.lock.nwaitwriters > 0 <==> WriterWaits(s.threads))
    ensures s.lock.nwaitreaders >= 0 && (s.lock.nwaitreaders > 0 <==> ReaderWaits(s.threads))
  {
    TotalAtLeast(WaitsToWrite, s.threads, 0);
    TotalAtLeast(WaitsToRead, s.threads, 0);
    if j: nat :| j < |s.threads| && WaitsToWrite(s.threads[j]) == 1 {
      TotalAtLeast(WaitsToWrite, s.threads, j);
    } else if s.lock.nwaitwriters > 0 {
      TotalPositive(WaitsToWrite, s.threads);
    }
    if j: nat :| j < |s.threads| && WaitsToRead(s.threads[j]) == 1 {
      TotalAtLeast(WaitsToRead, s.threads, j);
    } else if s.lock.nwaitreaders > 0 {
      TotalPositive(WaitsToRead, s.threads);
    }
  }

  /** The counters say whether somebody holds the lock, and whether a reader must wait. */
  lemma {:induction false} HeldExactly(s: State)
    requires Exact(s)
    ensures s.lock.refcount >= -1
    ensures s.lock.refcount != 0 <==> SomeHold(s.threads)
    ensures ReaderMustWait(s.lock) <==> SomeBar(s.threads)
  {
    TotalAtLeast(IsReading, s.threads, 0);
    WaitsExactly(s);
    if s.lock.refcount != 0 {
      HolderExists(s);
    }
    if s.lock.refcount == -1 {
      TotalPositive(IsWriting, s.threads);
      var j :| 0 <= j < |s.threads| && IsWriting(s.threads[j]) > 0;
      assert Bars(s.threads[j]);
    }
    if j: nat :| j < |s.threads| && WaitsToWrite(s.threads[j]) == 1 {
      assert Bars(s.threads[j]);
    }
    forall j: nat | j < |s.threads| && Holding(s.threads[j])
      ensures s.lock.refcount != 0 && (s.threads[j] == Writing ==> s.lock.refcount == -1)
    {
      Present(s, j);
    }
  }

  /** Each method is one mutex-held section, run by thread i, of the C function
      named in its comment; a method that reports waits has entered pthread_cond_wait. */
  class RwLockT {
    const v: Variant
    var refcount: int
    var nwaitreaders: int
    var nwaitwriters: int
    ghost var threads: seq<Status>

    ghost function System(): State
      reads this
    {
      State(Lock(refcount, nwaitreaders, nwaitwriters), threads)
    }

    /** The counters are exact and nobody is stranded. */
    ghost predicate Valid()
      reads this
    {
      Inv(v, System())
    }

    /** pthread_rwlock_init */
    constructor (v: Variant, n: nat)
      ensures Valid() && Init(System()) && this.v == v && threads == seq(n, _ => Idle)
    {
      this.v := v;
      refcount, nwaitreaders, nwaitwriters := 0, 0, 0;
      threads := seq(n, _ => Idle);
      new;
      InitInv(v, System());
    }

    /** pthread_rwlock_rdlock, from the start or back from pthread_cond_wait */
    method RdLock(i: nat, resumed: bool) returns (waits: bool)
      requires Valid() && i < |threads| && threads[i] == if resumed then WokenR else Idle
      modifies this
      ensures Valid() && System() == Step(v, old(System()), if resumed then Resume(i) else Action.RdLock(i))
      ensures waits <==> SomeBar(old(threads))
      ensures threads == old(threads)[i := if waits then AsleepR else Reading]
      ensures !waits ==> Writing !in threads
    {
      ghost var a := if resumed then Resume(i) else Action.RdLock(i);
      HeldExactly(System());
      StepKeepsInv(v, System(), a);
      ghost var next := Step(v, System(), a);
      if resumed {
        nwaitreaders := nwaitreaders - 1;
      }
      waits := refcount < 0 || nwaitwriters > 0;
      if waits {
        nwaitreaders := nwaitreaders + 1;
      } else {
        refcount := refcount + 1;
      }
      threads := next.threads;
    }

    /** pthread_rwlock_wrlock, from the start or back from pthread_cond_wait */
    method WrLock(i: nat, resumed: bool) returns (waits: bool)
      requires Valid() && i < |threads| && threads[i] == if resumed then WokenW else Idle
      modifies this
      ensures Valid() && System() == Step(v, old(System()), if resumed then Resume(i) else Action.WrLock(i))
      ensures waits <==> SomeHold(old(threads))
      ensures threads == old(threads)[i := if waits then AsleepW else Writing]
      ensures !waits ==> forall j :: 0 <= j < |threads| && Holding(threads[j]) ==> j == i
    {
      ghost var a := if resumed then Resume(i) else Action.WrLock(i);
      HeldExactly(System());
      StepKeepsInv(v, System(), a);
      ghost var next := Step(v, System(), a);
      if resumed {
        nwaitwriters := nwaitwriters - 1;
      }
      waits := refcount != 0;
      if waits {
        nwaitwriters := nwaitwriters + 1;
      } else {
        refcount := -1;
      }
      threads := next.threads;
    }

    /** pthread_rwlock_tryrdlock */
    method TryRdLock(i: nat) returns (busy: bool)
      requires Valid() && i < |threads| && threads[i] == Idle
      modifies this
      ensures Valid() && System() == Step(v, old(System()), Action.TryRdLock(i))
      ensures busy <==> SomeBar(old(threads))
      ensures threads == if busy then old(threads) else old(threads)[i := Reading]
    {
      HeldExactly(System());
      StepKeepsInv(v, System(), Action.TryRdLock(i));
      busy := refcount < 0 || nwaitwriters > 0;
      if !busy {
        refcount := refcount + 1;
        threads := threads[i := Reading];
      }
    }

    /** pthread_rwlock_trywrlock */
    method TryWrLock(i: nat) returns (busy: bool)
      requires Valid() && i < |threads| && threads[i] == Idle
      modifies this
      ensures Valid() && System() == Step(v, old(System()), Action.TryWrLock(i))
      ensures busy <==> SomeHold(old(threads))
      ensures threads == if busy then old(threads) else old(threads)[i := Writing]
    {
      HeldExactly(System());
      StepKeepsInv(v, System(), Action.TryWrLock(i));
      busy := refcount != 0;
      if !busy {
        refcount := -1;
        threads := threads[i := Writing];
      }
    }

    /** pthread_rwlock_unlock by any thread; dumped says that err_dump was reached.  j is the
        sleeping writer that a signal wakes, if one sleeps. */
    method Unlock(i: nat, ghost j: nat) returns (wake: Wake, dumped: bool)
      requires Valid() && i < |threads| && (Holding(threads[i]) ==> Ready(v, System(), Action.Unlock(i, j)))
      modifies this
      ensures dumped <==> !SomeHold(old(threads))
      ensures dumped ==> System() == old(System())
      ensures Holding(old(threads)[i]) ==>
                && Valid() && !dumped && System() == Step(v, old(System()), Action.Unlock(i, j))
                && (wake == OneWriter <==> WriterWaits(threads) && (v == Cancelable || !SomeHold(threads)))
                && (wake == AllReaders <==> !WriterWaits(threads) && ReaderWaits(threads))
                && threads == WokenBy(wake, old(threads)[i := Idle], j)
    {
      HeldExactly(System());
      ghost var was := System();
      dumped := false;
      if refcount > 0 {
        refcount := refcount - 1;
      } else if refcount == -1 {
        refcount := 0;
      } else {
        dumped := true;
      }
      wake := Nobody;
      if nwaitwriters > 0 {
        if v == Cancelable || refcount == 0 {
          wake := OneWriter;
        }
      } else if nwaitreaders > 0 {
        wake := AllReaders;
      }
      if Holding(was.threads[i]) {
        StepKeepsInv(v, was, Action.Unlock(i, j));
        threads := Step(v, was, Action.Unlock(i, j)).threads;
        HeldExactly(System());
        WaitsExactly(System());
      }
    }

    /** The cleanup handlers rwlock_cancelrdwait and rwlock_cancelwrwait */
    method Cancel(i: nat, reader: bool)
      requires Valid() && Ready(v, System(), Action.Cancel(i)) && (reader <==> WaitsToRead(threads[i]) == 1)
      modifies this
      ensures Valid() && System() == Step(v, old(System()), Action.Cancel(i))
    {
      StepKeepsInv(v, System(), Action.Cancel(i));
      if reader {
        nwaitreaders := nwaitreaders - 1;
      } else {
        nwaitwriters := nwaitwriters - 1;
      }
      threads := threads[i := Gone];
    }
  }

  /** One step of any thread, carried out on the lock.  What becomes of the threads is told from
      the results of the calls alone. */
  method Play(lock: RwLockT, ts: seq<Status>, a: Action) returns (us: seq<Status>, dumped: bool)
    requires lock.Valid() && lock.threads == ts && Ready(lock.v, lock.System(), a)
    modifies lock
    ensures lock.Valid() && lock.threads == us && !dumped
    ensures lock.System() == Step(lock.v, old(lock.System()), a)
  {
    dumped := false;
    match a
    case RdLock(i) => var waits := lock.RdLock(i, false); us := ts[i := if waits then AsleepR else Reading];
    case WrLock(i) => var waits := lock.WrLock(i, false); us := ts[i := if waits then AsleepW else Writing];
    case TryRdLock(i) => var busy := lock.TryRdLock(i); us := if busy then ts else ts[i := Reading];
    case TryWrLock(i) => var busy := lock.TryWrLock(i); us := if busy then ts else ts[i := Writing];
    case Resume(i) => us := PlayResume(lock, ts, i);
    case Unlock(i, j) =>
      var wake;
      wake, dumped := lock.Unlock(i, j);
      us := WokenBy(wake, ts[i := Idle], j);
    case Spurious(i) => us := PlaySpurious(lock, ts, i);
    case Cancel(i) => lock.Cancel(i, ts[i] == AsleepR || ts[i] == WokenR); us := ts[i := Gone];
  }

  method PlayResume(lock: RwLockT, ts: seq<Status>, i: nat) returns (us: seq<Status>)
    requires lock.Valid() && lock.threads == ts && Ready(lock.v, lock.System(), Resume(i))
    modifies lock
    ensures lock.Valid() && lock.threads == us
    ensures lock.System() == Step(lock.v, old(lock.System()), Resume(i))
  {
    if ts[i] == WokenR {
      var waits := lock.RdLock(i, true);
      us := ts[i := if waits then AsleepR else Reading];
    } else {
      var waits := lock.WrLock(i, true);
      us := ts[i := if waits then AsleepW else Writing];
    }
  }

  method PlaySpurious(lock: RwLockT, ts: seq<Status>, i: nat) returns (us: seq<Status>)
    requires lock.Valid() && lock.threads == ts && Ready(lock.v, lock.System(), Spurious(i))
    modifies lock
    ensures lock.Valid() && lock.threads == us
    ensures lock.System() == Step(lock.v, old(lock.System()), Spurious(i))
  {
    StepKeepsInv(lock.v, lock.System(), Spurious(i));
    us := ts[i := Wakened(ts[i])];
    lock.threads := us;
  }

  /** A whole run of n threads on a new lock: the counters go through the states of the system,
      err_dump is never reached, a writer is alone, and whoever sleeps has a holder or a woken
      writer before it. */
  method PlayAll(v: Variant, n: nat, ghost s: State, trace: seq<Action>, ghost t: State)
    returns (lock: RwLockT, ts: seq<Status>, dumps: nat)
    requires Init(s) && |s.threads| == n && Run(v, s, trace, t)
    ensures lock.Valid() && lock.System() == t && ts == t.threads && dumps == 0
    ensures forall i, j :: 0 <= i < j < |ts| && Holding(ts[i]) && Holding(ts[j]) ==> ts[i] == Reading && ts[j] == Reading
    ensures (exists k :: 0 <= k < |ts| && Asleep(ts[k])) ==> SomeHold(ts) || WokenW in ts
  {
    lock := new RwLockT(v, n);
    ts, dumps := seq(n, _ => Idle), 0;
    assert ts == s.threads;
    var k := 0;
    while k < |trace|
      invariant k <= |trace| && fresh(lock) && lock.v == v
      invariant lock.Valid() && lock.threads == ts && dumps == 0
      invariant Run(v, lock.System(), trace[k..], t)
    {
      assert trace[k..][1..] == trace[k + 1..];
      var dumped;
      ts, dumped := Play(lock, ts, trace[k]);
      dumps := dumps + One(dumped);
      k := k + 1;
    }
    EveryRunExcludes(v, s, trace, t);
    if k: nat :| k < |ts| && Asleep(ts[k]) {
      NobodyStranded(v, s, trace, t, k);
    }
  }
}
