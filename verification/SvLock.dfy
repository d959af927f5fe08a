/**
 Any number of processes running lock/lockmain.c with the System V semaphore lock of
 lock/locksvsem.c: the first process creates the semaphore set and sets it to 1, the others wait
 for sem_otime to become nonzero.  Every system call is one step; no process dies and the
 semaphore set is never removed.
 */
module SvLock {
  import opened Common

  datatype Pc =
    | Top              // loop test of main
    | Create           // semget(IPC_CREAT | IPC_EXCL)
    | SetVal           // semctl(SETVAL)
    | Attach           // semget
    | Poll(tries: nat) // semctl(IPC_STAT)
    | SemWait          // semop(-1)
    | ReadSeq          // read the sequence file
    | WriteSeq         // write back the number plus one
    | SemPost          // semop(+1)
    | Done             // exit(0)
    | Quit             // err_quit: not initialised in time

  /** initflag, the rounds left, and the number last read. */
  datatype Proc = Proc(pc: Pc, init: bool, left: nat, seqno: int)

  /** raw: the value of a newly made semaphore, which the system does not define. */
  datatype Config = Config(nprocs: nat, rounds: nat, raw: nat, start: int)

  /** setvals counts the SETVAL calls made; operated says that sem_otime is nonzero. */
  datatype State = State(exist: bool, val: nat, operated: bool, setvals: nat, seqfile: int, procs: seq<Proc>)

  ghost predicate Init(c: Config, s: State) {
    && !s.exist && s.val == 0 && !s.operated && s.setvals == 0 && s.seqfile == c.start
    && s.procs == seq(c.nprocs, _ => Proc(Top, false, c.rounds, 0))
  }

  predicate Ready(s: State, i: nat) {
    && i < |s.procs|
    && !s.procs[i].pc.Done? && !s.procs[i].pc.Quit?
    && (s.procs[i].pc.SemWait? ==> s.val > 0)
    && (s.procs[i].pc.SemPost? ==> s.procs[i].left > 0)
  }

  function Go(s: State, i: nat, p: Proc): State
    requires i < |s.procs|
  {
    s.(procs := s.procs[i := p])
  }

  function Step(c: Config, s: State, i: nat): State
    requires Ready(s, i)
  {
    var p := s.procs[i];
    match p.pc
    case Top => Go(s, i, p.(pc := if p.left == 0 then Done else if p.init then SemWait else Create))
    case Create =>
      if s.exist then Go(s, i, p.(pc := Attach))
      else Go(s, i, p.(pc := SetVal)).(exist := true, val := c.raw)
    case SetVal => Go(s, i, p.(pc := SemWait, init := true)).(val := 1, setvals := s.setvals + 1)
    case Attach => Go(s, i, p.(pc := Poll(0)))
    case Poll(k) =>
      if k >= MAX_TRIES then Go(s, i, p.(pc := Quit))
      else if s.operated then Go(s, i, p.(pc := SemWait, init := true))
      else Go(s, i, p.(pc := Poll(k + 1)))
    case SemWait => Go(s, i, p.(pc := ReadSeq)).(val := s.val - 1, operated := true)
    case ReadSeq => Go(s, i, p.(pc := WriteSeq, seqno := s.seqfile))
    case WriteSeq => Go(s, i, p.(pc := SemPost)).(seqfile := p.seqno + 1)
    case SemPost => Go(s, i, p.(pc := Top, left := p.left - 1)).(val := s.val + 1, operated := true)
  }

  ghost predicate Run(c: Config, s: State, trace: seq<nat>, t: State)
    decreases |trace|
  {
    if trace == [] then s == t else Ready(s, trace[0]) && Run(c, Step(c, s, trace[0]), trace[1..], t)
  }

  // ---------------------------------------------------------------- invariant

  predicate Uses(pc: Pc) {
    pc.SemWait? || pc.ReadSeq? || pc.WriteSeq? || pc.SemPost?
  }

  function Holds(p: Proc): int {
    if p.pc.ReadSeq? || p.pc.WriteSeq? || p.pc.SemPost? then 1 else 0
  }

  function Setting(p: Proc): int {
    if p.pc.SetVal? then 1 else 0
  }

  /** Rounds left to write, including the one under way. */
  function ToWrite(p: Proc): int {
    if p.pc.SemPost? then p.left - 1 else p.left
  }

  function StepsLeft(p: Proc): int {
    6 * p.left +
    match p.pc
    case Top => if p.init then 5 else 19
    case Create => 18
    case SetVal => 5
    case Attach => 17
    case Poll(k) => if k <= MAX_TRIES then 5 + MAX_TRIES + 1 - k else 5
    case SemWait => 4 case ReadSeq => 3 case WriteSeq => 2 case SemPost => 1
    case Done => 0
    case Quit => 0
  }

  /** One process makes the set and, some time later, sets it. */
  ghost predicate SetOnce(s: State) {
    s.setvals + Total(Setting, s.procs) == if s.exist then 1 else 0
  }

  /** Once set, the value plus the number of holders is one. */
  ghost predicate LockKept(s: State) {
    (s.setvals == 1 ==> s.val + Total(Holds, s.procs) == 1) && (s.setvals == 0 ==> Total(Holds, s.procs) == 0)
  }

  /** The file has been incremented once for every round written. */
  ghost predicate NothingLost(c: Config, s: State) {
    s.seqfile + Total(ToWrite, s.procs) == c.start + c.rounds * c.nprocs
  }

  /** What a process's own state says. */
  ghost predicate Local(c: Config, s: State, p: Proc) {
    && (p.init || Uses(p.pc) ==> s.setvals == 1)
    && (Uses(p.pc) ==> p.init && p.left > 0)
    && (p.pc.Create? || p.pc.SetVal? || p.pc.Attach? || p.pc.Poll? || p.pc.Quit? ==> !p.init && p.left == c.rounds > 0)
    && (p.pc.Attach? || p.pc.Poll? ==> s.exist)
    && (p.pc.Top? && !p.init ==> p.left == c.rounds)
    && (p.pc.WriteSeq? ==> p.seqno == s.seqfile)
    && (p.pc.Done? ==> p.left == 0)
  }

  ghost predicate Inv(c: Config, s: State) {
    && |s.procs| == c.nprocs
    && SetOnce(s) && LockKept(s) && NothingLost(c, s)
    && (s.operated ==> s.setvals == 1)
    && forall i :: 0 <= i < |s.procs| ==> Local(c, s, s.procs[i])
  }

  lemma {:induction false} StepKeepsSetOnce(c: Config, s: State, i: nat)
    requires SetOnce(s) && Ready(s, i)
    ensures SetOnce(Step(c, s, i))
  {
    TotalUpdate(Setting, s.procs, i, Step(c, s, i).procs[i]);
  }

  lemma {:induction false} StepKeepsLock(c: Config, s: State, i: nat)
    requires Inv(c, s) && Ready(s, i)
    ensures LockKept(Step(c, s, i))
  {
    TotalUpdate(Holds, s.procs, i, Step(c, s, i).procs[i]);
    TotalAtLeast(Setting, s.procs, i);
    assert Local(c, s, s.procs[i]);
  }

  lemma {:induction false} StepLosesNothing(c: Config, s: State, i: nat)
    requires Inv(c, s) && Ready(s, i)
    ensures NothingLost(c, Step(c, s, i))
  {
    TotalUpdate(ToWrite, s.procs, i, Step(c, s, i).procs[i]);
    assert Local(c, s, s.procs[i]);
  }

  /** Two processes never hold the lock at once. */
  lemma {:induction false} HolderIsAlone(c: Config, s: State, i: nat, j: nat)
    requires Inv(c, s) && i < |s.procs| && j < |s.procs| && i != j && Holds(s.procs[i]) == 1
    ensures Holds(s.procs[j]) == 0
  {
    assert Local(c, s, s.procs[i]);
    var rest := s.procs[i := s.procs[i].(pc := Top)];
    TotalUpdate(Holds, s.procs, i, rest[i]);
    TotalAtLeast(Holds, rest, j);
  }

  lemma {:induction false} StepKeepsOthers(c: Config, s: State, i: nat, j: nat)
    requires Inv(c, s) && Ready(s, i) && j < |s.procs| && j != i
    ensures Local(c, Step(c, s, i), s.procs[j])
  {
    assert Local(c, s, s.procs[i]) && Local(c, s, s.procs[j]);
    TotalAtLeast(Setting, s.procs, i);
    if s.procs[i].pc.WriteSeq? {
      HolderIsAlone(c, s, i, j);
    }
  }

  lemma {:induction false} StepKeepsLocal(c: Config, s: State, i: nat)
    requires Inv(c, s) && Ready(s, i)
    ensures Local(c, Step(c, s, i), Step(c, s, i).procs[i])
    ensures Step(c, s, i).operated ==> Step(c, s, i).setvals == 1
  {
    assert Local(c, s, s.procs[i]);
    TotalAtLeast(Setting, s.procs, i);
  }

  lemma {:induction false} StepKeepsInv(c: Config, s: State, i: nat)
    requires Inv(c, s) && Ready(s, i)
    ensures Inv(c, Step(c, s, i))
  {
    StepKeepsSetOnce(c, s, i);
    StepKeepsLock(c, s, i);
    StepLosesNothing(c, s, i);
    StepKeepsLocal(c, s, i);
    var t := Step(c, s, i);
    forall j: nat | j < |t.procs|
      ensures Local(c, t, t.procs[j])
    {
      if j != i {
        StepKeepsOthers(c, s, i, j);
      }
    }
  }

  lemma {:induction false} StepLowersWork(c: Config, s: State, i: nat)
    requires Inv(c, s) && Ready(s, i)
    ensures Total(StepsLeft, Step(c, s, i).procs) < Total(StepsLeft, s.procs)
  {
    assert Local(c, s, s.procs[i]);
    TotalUpdate(StepsLeft, s.procs, i, Step(c, s, i).procs[i]);
  }

  lemma {:induction false} InitInv(c: Config, s: State)
    requires Init(c, s)
    ensures Inv(c, s)
    ensures Total(StepsLeft, s.procs) == (6 * c.rounds + 19) * c.nprocs
  {
    TotalUniform(Setting, s.procs, 0);
    TotalUniform(Holds, s.procs, 0);
    TotalUniform(ToWrite, s.procs, c.rounds);
    TotalUniform(StepsLeft, s.procs, 6 * c.rounds + 19);
  }

  lemma {:induction false} RunKeepsInv(c: Config, s: State, trace: seq<nat>, t: State)
    requires Inv(c, s) && Run(c, s, trace, t)
    ensures Inv(c, t)
    ensures Total(StepsLeft, t.procs) + |trace| <= Total(StepsLeft, s.procs)
    decreases |trace|
  {
    if trace != [] {
      StepKeepsInv(c, s, trace[0]);
      StepLowersWork(c, s, trace[0]);
      RunKeepsInv(c, Step(c, s, trace[0]), trace[1..], t);
    }
  }

  // ---------------------------------------------------------------- main results

  /** In every run SETVAL happens at most once and before any process gets as far as a semop;
      from then on the value plus the holders is one, and no increment is ever lost. */
  lemma {:induction false} EveryRunIsSafe(c: Config, s: State, trace: seq<nat>, t: State)
    requires Init(c, s) && Run(c, s, trace, t)
    ensures t.setvals <= 1
    ensures forall i :: 0 <= i < |t.procs| && Uses(t.procs[i].pc) ==> t.setvals == 1
    ensures t.setvals == 1 ==> t.val + Total(Holds, t.procs) == 1
    ensures NothingLost(c, t)
  {
    InitInv(c, s);
    RunKeepsInv(c, s, trace, t);
    TotalAtLeast(Setting, t.procs, 0);
    assert forall i :: 0 <= i < |t.procs| ==> Local(c, t, t.procs[i]);
  }

  ghost predicate Stuck(s: State) {
    forall i: nat :: i < |s.procs| ==> !Ready(s, i)
  }

  function Finished(p: Proc): int {
    if p.pc.Done? then 1 else 0
  }

  /** When the lock is taken, its holder can move. */
  lemma {:induction false} HolderMoves(c: Config, s: State)
    requires Inv(c, s) && s.setvals == 1 && s.val == 0
    ensures exists j: nat :: j < |s.procs| && Ready(s, j)
  {
    TotalPositive(Holds, s.procs);
    var j: nat :| j < |s.procs| && Holds(s.procs[j]) > 0;
    assert Local(c, s, s.procs[j]);
    assert Ready(s, j);
  }

  lemma {:induction false} StuckIsOver(c: Config, s: State)
    requires Inv(c, s) && Stuck(s)
    ensures forall i :: 0 <= i < |s.procs| ==> s.procs[i].pc.Done? || s.procs[i].pc.Quit?
  {
    forall i: nat | i < |s.procs|
      ensures s.procs[i].pc.Done? || s.procs[i].pc.Quit?
    {
      assert !Ready(s, i) && Local(c, s, s.procs[i]);
      if s.procs[i].pc.SemWait? {
        HolderMoves(c, s);
      }
    }
  }

  lemma {:induction false} AtRest(ps: seq<Proc>, rounds: nat)
    requires forall i :: 0 <= i < |ps| ==> (ps[i].pc.Done? && ps[i].left == 0) || (ps[i].pc.Quit? && ps[i].left == rounds)
    ensures Total(ToWrite, ps) + rounds * Total(Finished, ps) == rounds * |ps|
  {
    if ps != [] {
      AtRest(ps[1..], rounds);
    }
  }

  /** Every run is finite; it can stop only with every process finished or timed out, and then
      the file holds its start plus the rounds of every process that was not timed out. */
  lemma {:induction false} EveryRunFinishes(c: Config, s: State, trace: seq<nat>, t: State)
    requires Init(c, s) && Run(c, s, trace, t)
    ensures |trace| <= (6 * c.rounds + 19) * c.nprocs
    ensures Stuck(t) ==>
              && (forall i :: 0 <= i < |t.procs| ==> t.procs[i].pc.Done? || t.procs[i].pc.Quit?)
              && t.seqfile == c.start + c.rounds * Total(Finished, t.procs)
  {
    InitInv(c, s);
    RunKeepsInv(c, s, trace, t);
    TotalAtLeast(StepsLeft, t.procs, 0);
    if Stuck(t) {
      StuckIsOver(c, t);
      assert forall i :: 0 <= i < |t.procs| ==> Local(c, t, t.procs[i]);
      AtRest(t.procs, c.rounds);
    }
  }

  // ---------------------------------------------------------------- who is timed out

  ghost predicate TimedOut(s: State) {
    exists i :: 0 <= i < |s.procs| && s.procs[i].pc.Quit?
  }

  /** No run has a process that gives up waiting for the initialisation. */
  ghost predicate NobodyTimesOut(c: Config) {
    forall s, trace, t :: Init(c, s) && Run(c, s, trace, t) ==> !TimedOut(t)
  }

  /** Whatever run comes to its end, every process has counted all its rounds. */
  ghost predicate AlwaysCountsAll(c: Config) {
    forall s, trace, t :: Init(c, s) && Run(c, s, trace, t) && Stuck(t) ==> t.seqfile == c.start + c.rounds * c.nprocs
  }

  lemma {:induction false} RunCons(c: Config, s: State, i: nat, trace: seq<nat>, t: State)
    requires Ready(s, i) && Run(c, Step(c, s, i), trace, t)
    ensures Run(c, s, [i] + trace, t)
  {
    assert ([i] + trace)[1..] == trace;
  }

  lemma {:induction false} RunConcat(c: Config, s: State, first: seq<nat>, u: State, second: seq<nat>, t: State)
    requires Run(c, s, first, u) && Run(c, u, second, t)
    ensures Run(c, s, first + second, t)
    decreases |first|
  {
    if first == [] {
      assert first + second == second;
    } else {
      assert (first + second)[1..] == first[1..] + second;
      RunConcat(c, Step(c, s, first[0]), first[1..], u, second, t);
    }
  }

  /** A process that polls while nobody operates on the semaphore gives up. */
  lemma {:induction false} PollsInVain(c: Config, s: State, i: nat) returns (trace: seq<nat>, t: State)
    requires i < |s.procs| && s.procs[i].pc.Poll? && !s.operated
    ensures Run(c, s, trace, t) && TimedOut(t)
    decreases MAX_TRIES - s.procs[i].pc.tries
  {
    var u := Step(c, s, i);
    if s.procs[i].pc.tries >= MAX_TRIES {
      trace, t := [], u;
      assert Run(c, u, [], u) && u.procs[i].pc.Quit?;
    } else {
      trace, t := PollsInVain(c, u, i);
    }
    RunCons(c, s, i, trace, t);
    trace := [i] + trace;
  }

  /** Process 0 makes the set and stalls before SETVAL; process 1 waits for it and gives up. */
  lemma {:induction false} CreatorStalls(c: Config) returns (s: State, trace: seq<nat>, t: State)
    requires c.nprocs >= 2 && c.rounds >= 1
    ensures Init(c, s) && Run(c, s, trace, t) && TimedOut(t)
  {
    s := State(false, 0, false, 0, c.start, seq(c.nprocs, _ => Proc(Top, false, c.rounds, 0)));
    var s1 := Step(c, s, 0);
    var s2 := Step(c, s1, 0);
    var s3 := Step(c, s2, 1);
    var s4 := Step(c, s3, 1);
    var s5 := Step(c, s4, 1);
    trace, t := PollsInVain(c, s5, 1);
    RunCons(c, s4, 1, trace, t);
    RunCons(c, s3, 1, [1] + trace, t);
    RunCons(c, s2, 1, [1] + ([1] + trace), t);
    RunCons(c, s1, 0, [1] + ([1] + ([1] + trace)), t);
    RunCons(c, s, 0, [0] + ([1] + ([1] + ([1] + trace))), t);
    trace := [0] + ([0] + ([1] + ([1] + ([1] + trace))));
  }

  /** A process alone that finds the set made has made it itself. */
  ghost predicate MadeItself(s: State) {
    && |s.procs| <= 1
    && forall i :: 0 <= i < |s.procs| ==>
         && !s.procs[i].pc.Attach? && !s.procs[i].pc.Poll? && !s.procs[i].pc.Quit?
         && (s.exist ==> s.procs[i].init || s.procs[i].pc.SetVal?)
  }

  lemma {:induction false} AloneKeeps(c: Config, s: State, trace: seq<nat>, t: State)
    requires Inv(c, s) && MadeItself(s) && Run(c, s, trace, t)
    ensures MadeItself(t)
    decreases |trace|
  {
    if trace != [] {
      assert Local(c, s, s.procs[trace[0]]);
      StepKeepsInv(c, s, trace[0]);
      AloneKeeps(c, Step(c, s, trace[0]), trace[1..], t);
    }
  }

  /** A process can be timed out exactly when there are two of them and something to do. */
  lemma {:induction false} TimesOutIffTwo(c: Config)
    ensures NobodyTimesOut(c) <==> c.nprocs <= 1 || c.rounds == 0
  {
    if c.nprocs <= 1 || c.rounds == 0 {
      forall s, trace, t | Init(c, s) && Run(c, s, trace, t)
        ensures !TimedOut(t)
      {
        InitInv(c, s);
        RunKeepsInv(c, s, trace, t);
        if c.rounds == 0 {
          assert forall i :: 0 <= i < |t.procs| ==> Local(c, t, t.procs[i]);
        } else {
          AloneKeeps(c, s, trace, t);
        }
      }
    } else {
      var s, trace, t := CreatorStalls(c);
      assert Run(c, s, trace, t) && TimedOut(t);
    }
  }

  lemma {:induction false} StaysTimedOut(c: Config, s: State, i: nat)
    requires Ready(s, i)
    ensures TimedOut(s) ==> TimedOut(Step(c, s, i))
  {
    if k :| 0 <= k < |s.procs| && s.procs[k].pc.Quit? {
      assert Step(c, s, i).procs[k].pc.Quit?;
    }
  }

  /** Every run can be carried on to an end, and whoever has given up stays that way. */
  lemma {:induction false} CarryOn(c: Config, s: State) returns (trace: seq<nat>, t: State)
    requires Inv(c, s)
    ensures Run(c, s, trace, t) && Stuck(t) && (TimedOut(s) ==> TimedOut(t))
    decreases Total(StepsLeft, s.procs)
  {
    if i: nat :| i < |s.procs| && Ready(s, i) {
      StepKeepsInv(c, s, i);
      StepLowersWork(c, s, i);
      TotalAtLeast(StepsLeft, s.procs, 0);
      StaysTimedOut(c, s, i);
      trace, t := CarryOn(c, Step(c, s, i));
      RunCons(c, s, i, trace, t);
      trace := [i] + trace;
    } else {
      trace, t := [], s;
    }
  }

  /** A process that has given up leaves its rounds uncounted. */
  lemma {:induction false} TimedOutLosesRounds(c: Config, s: State)
    requires Inv(c, s) && Stuck(s) && TimedOut(s)
    ensures s.seqfile < c.start + c.rounds * c.nprocs
  {
    StuckIsOver(c, s);
    var i: nat :| i < |s.procs| && s.procs[i].pc.Quit?;
    assert forall k :: 0 <= k < |s.procs| ==> Local(c, s, s.procs[k]);
    TotalAtLeast(ToWrite, s.procs, i);
  }

  /** The sequence file ends at its start plus all the rounds of all the processes, whatever the
      schedule, exactly when there is at most one process or nothing to do. */
  lemma {:induction false} CountsAllIffAlone(c: Config)
    ensures AlwaysCountsAll(c) <==> c.nprocs <= 1 || c.rounds == 0
  {
    TimesOutIffTwo(c);
    if c.nprocs <= 1 || c.rounds == 0 {
      forall s, trace, t | Init(c, s) && Run(c, s, trace, t) && Stuck(t)
        ensures t.seqfile == c.start + c.rounds * c.nprocs
      {
        CountsAllUnlessTimedOut(c, s, trace, t);
        assert !TimedOut(t);
      }
    } else {
      var s, first, u := CreatorStalls(c);
      InitInv(c, s);
      RunKeepsInv(c, s, first, u);
      var second, t := CarryOn(c, u);
      RunKeepsInv(c, u, second, t);
      RunConcat(c, s, first, u, second, t);
      TimedOutLosesRounds(c, t);
    }
  }

  /** At its end a run has counted every round exactly when nobody was timed out. */
  lemma {:induction false} CountsAllUnlessTimedOut(c: Config, s: State, trace: seq<nat>, t: State)
    requires Init(c, s) && Run(c, s, trace, t) && Stuck(t)
    ensures t.seqfile == c.start + c.rounds * c.nprocs <==> !TimedOut(t)
  {
    InitInv(c, s);
    RunKeepsInv(c, s, trace, t);
    if TimedOut(t) {
      TimedOutLosesRounds(c, t);
    } else {
      StuckIsOver(c, t);
      assert forall k :: 0 <= k < |t.procs| ==> Local(c, t, t.procs[k]);
      TotalUniform(ToWrite, t.procs, 0);
    }
  }

  // ---------------------------------------------------------------- what a process saw

  /** The semop calls made by anybody so far, and for each look that one process has taken at
      sem_otime whether a semop had been made before it. */
  datatype Record = Record(semops: nat, looks: seq<bool>)

  /** The record for process i after a step of process j. */
  function Noted(s: State, j: nat, i: nat, r: Record): Record
    requires Ready(s, j)
  {
    var pc := s.procs[j].pc;
    Record(r.semops + One(pc.SemWait? || pc.SemPost?),
           if j == i && pc.Poll? && pc.tries < MAX_TRIES then r.looks + [r.semops > 0] else r.looks)
  }

  function History(c: Config, s: State, trace: seq<nat>, i: nat, r: Record): Record
    decreases |trace|
  {
    if trace == [] || !Ready(s, trace[0]) then r
    else History(c, Step(c, s, trace[0]), trace[1..], i, Noted(s, trace[0], i, r))
  }

  /** All the looks were taken, and all too early. */
  predicate InVain(looks: seq<bool>) {
    |looks| == MAX_TRIES && true !in looks
  }

  /** The looks of process i explain where it stands. */
  ghost predicate Told(s: State, i: nat, r: Record)
    requires i < |s.procs|
  {
    var p, looks := s.procs[i], r.looks;
    && (s.operated <==> r.semops > 0)
    && (p.pc.Poll? ==> |looks| == p.pc.tries <= MAX_TRIES && true !in looks)
    && (p.pc.Quit? ==> InVain(looks))
    && (!p.init && !p.pc.Poll? && !p.pc.Quit? ==> looks == [])
    && (p.init ==> looks == [] || (|looks| <= MAX_TRIES && looks[|looks| - 1] && true !in looks[..|looks| - 1]))
  }

  lemma {:induction false} StepTells(c: Config, s: State, j: nat, i: nat, r: Record)
    requires Inv(c, s) && Ready(s, j) && i < |s.procs| && Told(s, i, r)
    ensures Told(Step(c, s, j), i, Noted(s, j, i, r))
  {
    assert Local(c, s, s.procs[j]);
  }

  lemma {:induction false} RunTells(c: Config, s: State, trace: seq<nat>, t: State, i: nat, r: Record)
    requires Inv(c, s) && Run(c, s, trace, t) && i < |s.procs| && Told(s, i, r)
    ensures i < |t.procs| && Told(t, i, History(c, s, trace, i, r))
    decreases |trace|
  {
    if trace != [] {
      StepTells(c, s, trace[0], i, r);
      StepKeepsInv(c, s, trace[0]);
      RunTells(c, Step(c, s, trace[0]), trace[1..], t, i, Noted(s, trace[0], i, r));
    }
  }

  ghost function LooksOf(c: Config, s: State, trace: seq<nat>, i: nat): seq<bool> {
    History(c, s, trace, i, Record(0, [])).looks
  }

  /** In every run a process gives up exactly when it has taken MAX_TRIES looks and all of them
      before the first semop of anybody; a single later look lets it in. */
  lemma {:induction false} TimedOutIffInVain(c: Config, s: State, trace: seq<nat>, t: State, i: nat)
    requires Init(c, s) && Run(c, s, trace, t) && i < c.nprocs
    ensures i < |t.procs|
    ensures t.procs[i].pc.Quit? || t.procs[i].pc == Poll(MAX_TRIES) <==> InVain(LooksOf(c, s, trace, i))
    ensures true in LooksOf(c, s, trace, i) ==> t.procs[i].init
  {
    InitInv(c, s);
    RunTells(c, s, trace, t, i, Record(0, []));
    RunKeepsInv(c, s, trace, t);
    assert Local(c, t, t.procs[i]);
  }

  /** At the end of a run, of any number of processes, the file has counted every round of every
      process exactly when none of them looked in vain. */
  lemma {:induction false} CountsAllIffLooked(c: Config, s: State, trace: seq<nat>, t: State)
    requires Init(c, s) && Run(c, s, trace, t) && Stuck(t)
    ensures t.seqfile == c.start + c.rounds * c.nprocs <==>
            forall i: nat :: i < c.nprocs ==> !InVain(LooksOf(c, s, trace, i))
  {
    InitInv(c, s);
    RunKeepsInv(c, s, trace, t);
    StuckIsOver(c, t);
    CountsAllUnlessTimedOut(c, s, trace, t);
    forall i: nat | i < c.nprocs
      ensures t.procs[i].pc.Quit? <==> InVain(LooksOf(c, s, trace, i))
    {
      TimedOutIffInVain(c, s, trace, t, i);
    }
  }
}
