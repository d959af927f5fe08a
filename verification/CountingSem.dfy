/**
 The counting semaphore of my_pxsem_mmap, used by any number of threads.  Every mutex-held
 section is one step, pthread_cond_wait splits mysem_wait in two, and spurious wake-ups are
 allowed.  sem_count is an unsigned int, so mysem_post wraps around.
 */
module CountingSem {
  import opened Common

  datatype Status = Idle | Asleep | Woken

  /** initial, posts, takes and wraps are history: the starting value, the posts and successful
      waits so far, and the posts that wrapped around to zero. */
  datatype State = State(count: nat, threads: seq<Status>, initial: nat, posts: nat, takes: nat, wraps: nat)

  datatype Action = Post(i: nat, w: nat) | Wait(i: nat) | TryWait(i: nat) | Resume(i: nat) | Spurious(i: nat)

  ghost predicate Init(s: State, n: nat, value: nat) {
    value < UINT && s == State(value, seq(n, _ => Idle), value, 0, 0, 0)
  }

  // ---------------------------------------------------------------- the sections

  function Incremented(count: nat): nat { (count + 1) % UINT }

  /** A signal wakes a sleeping thread whenever there is one. */
  predicate Ready(s: State, a: Action) {
    a.i < |s.threads| &&
    match a
    case Post(i, w) => s.threads[i] == Idle && (Asleep in s.threads ==> w < |s.threads| && s.threads[w] == Asleep)
    case Wait(i) => s.threads[i] == Idle
    case TryWait(i) => s.threads[i] == Idle
    case Resume(i) => s.threads[i] == Woken
    case Spurious(i) => s.threads[i] == Asleep
  }

  /** The while loop of mysem_wait, entered or re-entered by thread i. */
  function TestCount(s: State, i: nat): State
    requires i < |s.threads|
  {
    if s.count == 0 then s.(threads := s.threads[i := Asleep])
    else s.(count := s.count - 1, takes := s.takes + 1, threads := s.threads[i := Idle])
  }

  function Step(s: State, a: Action): State
    requires Ready(s, a)
  {
    match a
    case Post(i, w) =>
      s.(count := Incremented(s.count), posts := s.posts + 1,
         wraps := if Incremented(s.count) == 0 then s.wraps + 1 else s.wraps,
         threads := if s.count == 0 && w < |s.threads| && s.threads[w] == Asleep then s.threads[w := Woken] else s.threads)
    case Wait(i) => TestCount(s, i)
    case TryWait(i) => if s.count > 0 then s.(count := s.count - 1, takes := s.takes + 1) else s
    case Resume(i) => TestCount(s, i)
    case Spurious(i) => s.(threads := s.threads[i := Woken])
  }

  ghost predicate Run(s: State, trace: seq<Action>, t: State)
    decreases |trace|
  {
    if trace == [] then s == t else Ready(s, trace[0]) && Run(Step(s, trace[0]), trace[1..], t)
  }

  lemma {:induction false} RunSnoc(s: State, trace: seq<Action>, t: State, a: Action)
    requires Run(s, trace, t) && Ready(t, a)
    ensures Run(s, trace + [a], Step(t, a))
    decreases |trace|
  {
    if trace == [] {
      assert Run(Step(t, a), [], Step(t, a));
    } else {
      assert (trace + [a])[1..] == trace[1..] + [a];
      RunSnoc(Step(s, trace[0]), trace[1..], t, a);
    }
  }

  // ---------------------------------------------------------------- counting

  ghost predicate Counts(s: State) {
    && s.count < UINT && s.initial < UINT
    && s.count + UINT * s.wraps + s.takes == s.initial + s.posts
  }

  lemma {:induction false} RunCounts(s: State, trace: seq<Action>, t: State)
    requires Counts(s) && Run(s, trace, t)
    ensures Counts(t) && t.initial == s.initial
    decreases |trace|
  {
    if trace != [] {
      RunCounts(Step(s, trace[0]), trace[1..], t);
    }
  }

  /** In every run the value is the starting value plus posts less waits, modulo 2^32, and it is
      exactly that as long as the posts stay below the range of an unsigned int. */
  lemma ValueIsConserved(s: State, n: nat, value: nat, trace: seq<Action>, t: State)
    requires Init(s, n, value) && Run(s, trace, t)
    ensures (value + t.posts - t.takes) % UINT == t.count
    ensures value + t.posts < UINT ==> t.count + t.takes == value + t.posts
  {
    RunCounts(s, trace, t);
    BalanceIsCount(t);
  }

  // ---------------------------------------------------------------- sleepers

  ghost predicate SleepersJustified(s: State) {
    Asleep in s.threads ==> s.count == 0
  }

  /** The least a sleeper needs: a zero count, or a woken thread on the way to lower it. */
  ghost predicate Covered(s: State) {
    Asleep in s.threads ==> s.count == 0 || Woken in s.threads
  }

  predicate SleepsBeside(s: State, i: nat, j: int) {
    0 <= j < |s.threads| && j != i && s.threads[j] == Asleep
  }

  /** Besides thread i at most one thread sleeps. */
  ghost predicate LoneSleeper(s: State, i: nat) {
    forall j, k :: SleepsBeside(s, i, j) && SleepsBeside(s, i, k) ==> j == k
  }

  lemma {:induction false} StepJustifies(s: State, a: Action)
    requires SleepersJustified(s) && Ready(s, a) && LoneSleeper(s, a.i)
    ensures SleepersJustified(Step(s, a))
  {
    var u := Step(s, a);
    if k :| 0 <= k < |u.threads| && u.threads[k] == Asleep {
      assert s.threads[k] == Asleep || k == a.i;
      assert k != a.i ==> SleepsBeside(s, a.i, k);
      assert a.Post? && a.w < |s.threads| && s.threads[a.w] == Asleep ==> SleepsBeside(s, a.i, a.w);
    }
  }

  /** Only the threads in ws ever call mysem_wait. */
  ghost predicate WaitersAre(trace: seq<Action>, ws: set<nat>) {
    forall k :: 0 <= k < |trace| && trace[k].Wait? ==> trace[k].i in ws
  }

  ghost predicate WaitersIn(s: State, ws: set<nat>) {
    forall i: nat :: i < |s.threads| && s.threads[i] != Idle ==> i in ws
  }

  lemma {:induction false} FewSleepers(s: State, ws: set<nat>, i: nat)
    requires WaitersIn(s, ws) && (|ws| <= 1 || |s.threads| <= 2) && i < |s.threads|
    ensures LoneSleeper(s, i)
  {
    forall j, k | SleepsBeside(s, i, j) && SleepsBeside(s, i, k)
      ensures j == k
    {
      if j != k && |ws| <= 1 {
        TwoMembers(ws, j, k);
      }
    }
  }

  /** With one thread that may wait, or two threads in all, a sleeper means a zero count. */
  lemma {:induction false} RunJustifies(s: State, trace: seq<Action>, t: State, ws: set<nat>)
    requires SleepersJustified(s) && WaitersIn(s, ws) && (|ws| <= 1 || |s.threads| <= 2)
    requires Run(s, trace, t) && WaitersAre(trace, ws)
    ensures SleepersJustified(t)
    decreases |trace|
  {
    if trace != [] {
      FewSleepers(s, ws, trace[0].i);
      StepJustifies(s, trace[0]);
      assert WaitersIn(Step(s, trace[0]), ws);
      RunJustifies(Step(s, trace[0]), trace[1..], t, ws);
    }
  }

  /** No run of n threads, of which only those in ws ever wait, leaves a sleeper uncovered. */
  ghost predicate AlwaysCovered(n: nat, ws: set<nat>) {
    forall value, s, trace, t :: Init(s, n, value) && Run(s, trace, t) && WaitersAre(trace, ws) ==> Covered(t)
  }

  /** Threads i and j sleep, and k posts twice before i runs: j is never woken. */
  lemma {:induction false} TwoWaitersUncovered(n: nat, i: nat, j: nat, k: nat) returns (s: State, trace: seq<Action>, t: State)
    requires i < n && j < n && k < n && i != j && i != k && j != k
    ensures Init(s, n, 0) && Run(s, trace, t) && WaitersAre(trace, {i, j}) && !Covered(t)
  {
    s := State(0, seq(n, _ => Idle), 0, 0, 0, 0);
    var s1 := Step(s, Wait(i));
    var s2 := Step(s1, Wait(j));
    assert s2.threads[i] == s2.threads[j] == Asleep;
    var s3 := Step(s2, Post(k, i));
    var s4 := Step(s3, Post(k, j));
    t := Step(s4, Resume(i));
    RunSnoc(s, [], s, Wait(i));
    RunSnoc(s, [] + [Wait(i)], s1, Wait(j));
    RunSnoc(s, [] + [Wait(i)] + [Wait(j)], s2, Post(k, i));
    RunSnoc(s, [] + [Wait(i)] + [Wait(j)] + [Post(k, i)], s3, Post(k, j));
    RunSnoc(s, [] + [Wait(i)] + [Wait(j)] + [Post(k, i)] + [Post(k, j)], s4, Resume(i));
    trace := [] + [Wait(i)] + [Wait(j)] + [Post(k, i)] + [Post(k, j)] + [Resume(i)];
    assert t.threads[j] == Asleep;
  }

  /** Signalling only on the transition from zero is enough exactly when at most one thread ever
      waits, whatever the number of threads that post, or there are only two threads. */
  lemma {:induction false} CoveredIffOneWaiter(n: nat, ws: set<nat>)
    requires forall i :: i in ws ==> i < n
    ensures AlwaysCovered(n, ws) <==> |ws| <= 1 || n <= 2
  {
    if |ws| <= 1 || n <= 2 {
      forall value, s, trace, t | Init(s, n, value) && Run(s, trace, t) && WaitersAre(trace, ws)
        ensures Covered(t)
      {
        RunJustifies(s, trace, t, ws);
      }
    } else {
      var i, j := PickTwo(ws);
      var s, trace, t := TwoWaitersUncovered(n, i, j, Third(i, j));
      assert Run(s, trace, t) && WaitersAre(trace, ws) && !Covered(t);
    }
  }

  // ---------------------------------------------------------------- the semaphore as an object

  /** mysem_t with, as ghost state, the system of the threads that use it.  Each method is one
      mutex-held section, run by thread i, of the C function named in its comment. */
  class Semaphore {
    var count: nat
    ghost var sys: State

    ghost predicate Valid()
      reads this
    {
      count == sys.count && Counts(sys)
    }

    /** The starting value and the posts so far, less the successful waits. */
    ghost function Balance(): int
      reads this
    {
      sys.initial + sys.posts - sys.takes
    }

    constructor (n: nat, value: nat)
      requires value < UINT
      ensures Valid() && Init(sys, n, value)
    {
      count := value;
      sys := State(value, seq(n, _ => Idle), value, 0, 0, 0);
    }

    /** mysem_post */
    method Post(i: nat, ghost w: nat) returns (signal: bool)
      requires Valid() && Ready(sys, Action.Post(i, w))
      modifies this
      ensures Valid() && sys == Step(old(sys), Action.Post(i, w))
      ensures Balance() == old(Balance()) + 1
      ensures signal <==> old(Balance()) % UINT == 0
      ensures sys.threads == if signal && Asleep in old(sys.threads) then old(sys.threads)[w := Woken] else old(sys.threads)
    {
      BalanceIsCount(sys);
      signal := count == 0;
      count := if count == UINT - 1 then 0 else count + 1;
      sys := Step(sys, Action.Post(i, w));
    }

    /** mysem_wait, from the start or back from pthread_cond_wait; blocks: it waits (again) */
    method Wait(i: nat, resumed: bool) returns (blocks: bool)
      requires Valid() && Ready(sys, if resumed then Resume(i) else Action.Wait(i))
      modifies this
      ensures Valid() && sys == Step(old(sys), if resumed then Resume(i) else Action.Wait(i))
      ensures blocks <==> old(Balance()) % UINT == 0
      ensures Balance() == old(Balance()) - One(!blocks)
      ensures sys.threads == old(sys.threads)[i := if blocks then Asleep else Idle]
    {
      BalanceIsCount(sys);
      blocks := count == 0;
      if !blocks {
        count := count - 1;
      }
      sys := TestCount(sys, i);
    }

    /** mysem_trywait */
    method TryWait(i: nat) returns (again: bool)
      requires Valid() && Ready(sys, Action.TryWait(i))
      modifies this
      ensures Valid() && sys == Step(old(sys), Action.TryWait(i))
      ensures again <==> old(Balance()) % UINT == 0
      ensures Balance() == old(Balance()) - One(!again) && sys.threads == old(sys.threads)
    {
      BalanceIsCount(sys);
      sys := Step(sys, Action.TryWait(i));
      if count > 0 {
        count := count - 1;
        again := false;
      } else {
        again := true;
      }
    }
  }

  lemma {:induction false} BalanceIsCount(s: State)
    requires Counts(s)
    ensures (s.initial + s.posts - s.takes) % UINT == s.count
  {
    assert s.initial + s.posts - s.takes == s.count + UINT * s.wraps;
  }

  /** One step of any thread, carried out on the semaphore.  What becomes of the threads is told
      from the results of the calls alone. */
  method Play(sem: Semaphore, ts: seq<Status>, a: Action) returns (us: seq<Status>)
    requires sem.Valid() && sem.sys.threads == ts && Ready(sem.sys, a)
    modifies sem
    ensures sem.Valid() && sem.sys == Step(old(sem.sys), a) && sem.sys.threads == us
  {
    match a
    case Post(i, w) =>
      var signal := sem.Post(i, w);
      us := if signal && Asleep in ts then ts[w := Woken] else ts;
    case Wait(i) => var blocks := sem.Wait(i, false); us := ts[i := if blocks then Asleep else Idle];
    case Resume(i) => var blocks := sem.Wait(i, true); us := ts[i := if blocks then Asleep else Idle];
    case TryWait(i) => var again := sem.TryWait(i); us := ts;
    case Spurious(i) =>
      us := ts[i := Woken];
      sem.sys := Step(sem.sys, a);
  }

  /** A whole run of n threads on a new semaphore: its field is always the value that the posts
      and the successful waits leave, modulo 2^32, and with one thread that ever waits nobody
      sleeps while the value is positive. */
  method PlayAll(n: nat, value: nat, ghost s: State, trace: seq<Action>, ghost t: State, ghost ws: set<nat>)
    returns (sem: Semaphore, ts: seq<Status>)
    requires Init(s, n, value) && Run(s, trace, t) && WaitersAre(trace, ws)
    ensures sem.Valid() && sem.sys == t && ts == t.threads
    ensures sem.count == (value + t.posts - t.takes) % UINT
    ensures (|ws| <= 1 || n <= 2) && Asleep in ts ==> sem.count == 0
  {
    sem := new Semaphore(n, value);
    ts := seq(n, _ => Idle);
    var k := 0;
    while k < |trace|
      invariant k <= |trace| && fresh(sem) && sem.Valid() && sem.sys.threads == ts
      invariant Run(sem.sys, trace[k..], t)
    {
      assert trace[k..][1..] == trace[k + 1..];
      ts := Play(sem, ts, trace[k]);
      k := k + 1;
    }
    ValueIsConserved(s, n, value, trace, t);
    if |ws| <= 1 || n <= 2 {
      RunJustifies(s, trace, t, ws);
    }
  }
}
