/**
 Any number of callers racing through mymq_open (QueueFile) or mysem_open (SemFile) on one path
 name.  The user-execute bit of the new file is the "not ready" flag.  Every system call and
 every piece of the initialisation is one step.  The name is never unlinked: openers may give
 up at any time, the creator does not fail.
 */
module OpenRace {
  import opened Common

  datatype Kind = QueueFile | SemFile

  /** One caller's flags and, for a queue, the file size its attributes ask for. */
  datatype Args = Args(creat: bool, excl: bool, size: nat)

  /** keepsX: the umask leaves the user-execute bit of new files alone. */
  datatype Config = Config(kind: Kind, keepsX: bool, semSize: nat, args: seq<Args>)

  /** The file behind the name and what has been initialised in it. */
  datatype File = File(present: bool, notReady: bool, size: nat, header: bool, mutex: bool, cond: bool, magic: bool)

  const NoFile := File(false, false, 0, false, false, false, false)

  datatype Pc =
    | Start
    // created = 1
    | Sizing          // set the file size
    | Header          // queue: attributes and free list; semaphore: the count
    | Mutex
    | Cond
    | Publish         // fchmod: turn off user-execute
    | Sign            // semaphore: sem_magic, after fchmod
    // the file exists
    | Exists          // open(pathname, O_RDWR); a semaphore is mapped at once
    | Poll(tries: nat)
    | MapIt(size: nat) // queue: map the size that stat reported
    | SignToo         // semaphore: sem_magic
    | Returned(size: nat)
    | Failed

  datatype State = State(file: File, creator: Option<nat>, pcs: seq<Pc>)

  datatype Action = Go(i: nat) | GiveUp(i: nat)

  ghost predicate Init(c: Config, s: State) {
    && s.file == NoFile && s.creator.None?
    && s.pcs == seq(|c.args|, _ => Start)
  }

  predicate Opening(pc: Pc) {
    pc.Exists? || pc.Poll? || pc.MapIt? || pc.SignToo?
  }

  predicate Creating(pc: Pc) {
    pc.Sizing? || pc.Header? || pc.Mutex? || pc.Cond? || pc.Publish? || pc.Sign?
  }

  predicate Ready(c: Config, s: State, a: Action) {
    && |s.pcs| == |c.args| && a.i < |s.pcs|
    && match a
       case Go(i) => !s.pcs[i].Returned? && !s.pcs[i].Failed?
       case GiveUp(i) => Opening(s.pcs[i])
  }

  function SizeFor(c: Config, i: nat): nat
    requires i < |c.args|
  {
    if c.kind == SemFile then c.semSize else c.args[i].size
  }

  function To(s: State, i: nat, pc: Pc): State
    requires i < |s.pcs|
  {
    s.(pcs := s.pcs[i := pc])
  }

  function Step(c: Config, s: State, a: Action): State
    requires Ready(c, s, a)
  {
    match a
    case GiveUp(i) => To(s, i, Failed)
    case Go(i) =>
      var f, args := s.file, c.args[i];
      match s.pcs[i]
      case Start =>
        if !args.creat then To(s, i, Exists)
        else if !f.present then
          To(s, i, Sizing).(file := f.(present := true, notReady := c.keepsX), creator := Some(i))
        else if args.excl then To(s, i, Failed)
        else To(s, i, Exists)
      case Sizing => To(s, i, if c.kind == QueueFile then Header else Mutex).(file := f.(size := SizeFor(c, i)))
      case Header => To(s, i, if c.kind == QueueFile then Mutex else Publish).(file := f.(header := true))
      case Mutex => To(s, i, Cond).(file := f.(mutex := true))
      case Cond => To(s, i, if c.kind == QueueFile then Publish else Header).(file := f.(cond := true))
      case Publish =>
        To(s, i, if c.kind == QueueFile then Returned(SizeFor(c, i)) else Sign).(file := f.(notReady := false))
      case Sign => To(s, i, Returned(SizeFor(c, i))).(file := f.(magic := true))
      case Exists =>
        if f.present then To(s, i, Poll(0)) else if args.creat then To(s, i, Start) else To(s, i, Failed)
      case Poll(k) =>
        if k >= MAX_TRIES then To(s, i, Failed)
        else if !f.present then To(s, i, if args.creat then Start else Failed)
        else if f.notReady then To(s, i, Poll(k + 1))
        else To(s, i, if c.kind == QueueFile then MapIt(f.size) else SignToo)
      case MapIt(n) => To(s, i, Returned(n))
      case SignToo => To(s, i, Returned(SizeFor(c, i))).(file := f.(magic := true))
  }

  ghost predicate Run(c: Config, s: State, trace: seq<Action>, t: State)
    decreases |trace|
  {
    if trace == [] then s == t else Ready(c, s, trace[0]) && Run(c, Step(c, s, trace[0]), trace[1..], t)
  }

  // ---------------------------------------------------------------- invariant

  /** How far the creator has come. */
  function Stage(kind: Kind, pc: Pc): nat {
    match pc
    case Sizing => 0
    case Header => if kind == QueueFile then 1 else 3
    case Mutex => if kind == QueueFile then 2 else 1
    case Cond => if kind == QueueFile then 3 else 2
    case Publish => 4
    case Sign => 5
    case _ => 6
  }

  /** The file holds exactly what the creator has done to it. */
  ghost predicate Written(c: Config, s: State, i: nat)
    requires i < |s.pcs| == |c.args|
  {
    var f, k := s.file, Stage(c.kind, s.pcs[i]);
    && (k > 0 ==> f.size == SizeFor(c, i))
    && (f.header <==> k > Stage(c.kind, Header))
    && (f.mutex <==> k > Stage(c.kind, Mutex))
    && (f.cond <==> k > Stage(c.kind, Cond))
    && (f.notReady <==> c.keepsX && k <= 4)
    && (s.pcs[i].Sign? ==> c.kind == SemFile)
    && (c.kind == SemFile && k == 6 ==> f.magic)
  }

  ghost predicate Created(c: Config, s: State) {
    && (s.file.present <==> s.creator.Some?)
    && (s.creator.None? ==> s.file == NoFile)
    && (c.kind == QueueFile ==> !s.file.magic)
    && (s.creator.Some? ==>
          && s.creator.value < |s.pcs| == |c.args|
          && c.args[s.creator.value].creat
          && (Creating(s.pcs[s.creator.value]) || s.pcs[s.creator.value] == Returned(SizeFor(c, s.creator.value)))
          && Written(c, s, s.creator.value))
  }

  /** What the pc of a caller other than the creator says about the file. */
  ghost predicate Observed(c: Config, s: State, i: nat)
    requires i < |s.pcs| == |c.args|
  {
    var pc, f := s.pcs[i], s.file;
    && !Creating(pc)
    && (Opening(pc) || pc.Returned? ==> !c.args[i].creat || !c.args[i].excl)
    && (pc.Exists? && c.args[i].creat ==> f.present)
    && (pc.Poll? || pc.MapIt? || pc.SignToo? || pc.Returned? ==> f.present)
    && (pc.MapIt? || pc.SignToo? || pc.Returned? ==> !f.notReady)
    && (pc.MapIt? ==> c.kind == QueueFile) && (pc.SignToo? ==> c.kind == SemFile)
    && (pc.MapIt? && c.keepsX ==> pc.size == f.size)
    && (pc.Returned? && c.keepsX ==> pc.size == f.size && (c.kind == SemFile ==> f.magic))
  }

  ghost predicate Inv(c: Config, s: State) {
    && |s.pcs| == |c.args|
    && Created(c, s)
    && forall i :: 0 <= i < |s.pcs| && s.creator != Some(i) ==> Observed(c, s, i)
  }

  /** A step leaves a file that somebody has seen, and a published one altogether except for
      sem_magic. */
  lemma {:induction false} StepKeepsFile(c: Config, s: State, a: Action)
    requires Inv(c, s) && Ready(c, s, a)
    ensures s.file.present ==> Step(c, s, a).file.present && Step(c, s, a).creator == s.creator
    ensures s.file.present && !s.file.notReady ==> !Step(c, s, a).file.notReady
    ensures s.file.present && !s.file.notReady && c.keepsX ==>
              Step(c, s, a).file == s.file.(magic := Step(c, s, a).file.magic)
    ensures s.file.magic ==> Step(c, s, a).file.magic
    ensures c.kind == QueueFile ==> Step(c, s, a).file.magic == s.file.magic
  {
    assert s.creator != Some(a.i) ==> Observed(c, s, a.i);
  }

  lemma {:induction false} QueueCreatorKeepsCreated(c: Config, s: State, i: nat)
    requires Created(c, s) && Ready(c, s, Go(i)) && s.creator == Some(i) && c.kind == QueueFile
    ensures Created(c, Step(c, s, Go(i)))
  {
  }

  lemma {:induction false} SemCreatorKeepsCreated(c: Config, s: State, i: nat)
    requires Created(c, s) && Ready(c, s, Go(i)) && s.creator == Some(i) && c.kind == SemFile
    ensures Created(c, Step(c, s, Go(i)))
  {
  }

  lemma {:induction false} StarterKeepsCreated(c: Config, s: State, i: nat)
    requires Created(c, s) && Ready(c, s, Go(i)) && s.creator != Some(i) && s.pcs[i] == Start
    ensures Created(c, Step(c, s, Go(i)))
  {
  }

  lemma {:induction false} OpenerKeepsCreated(c: Config, s: State, a: Action)
    requires Created(c, s) && Ready(c, s, a) && s.creator != Some(a.i) && Opening(s.pcs[a.i])
    requires Observed(c, s, a.i)
    ensures Created(c, Step(c, s, a))
  {
  }

  lemma {:induction false} StepObserves(c: Config, s: State, a: Action)
    requires Inv(c, s) && Ready(c, s, a) && Step(c, s, a).creator != Some(a.i)
    ensures Observed(c, Step(c, s, a), a.i)
  {
    assert s.creator != Some(a.i) ==> Observed(c, s, a.i);
  }

  lemma {:induction false} StepKeepsObserved(c: Config, s: State, a: Action, j: nat)
    requires Inv(c, s) && Ready(c, s, a) && j < |s.pcs| && j != a.i && s.creator != Some(j)
    ensures Observed(c, Step(c, s, a), j)
  {
    assert Observed(c, s, j);
    StepKeepsFile(c, s, a);
    assert Step(c, s, a).pcs[j] == s.pcs[j];
  }

  lemma {:induction false} StepKeepsInv(c: Config, s: State, a: Action)
    requires Inv(c, s) && Ready(c, s, a)
    ensures Inv(c, Step(c, s, a))
  {
    if s.creator == Some(a.i) {
      match c.kind {
        case QueueFile => QueueCreatorKeepsCreated(c, s, a.i);
        case SemFile => SemCreatorKeepsCreated(c, s, a.i);
      }
    } else {
      assert Observed(c, s, a.i);
      if s.pcs[a.i] == Start {
        StarterKeepsCreated(c, s, a.i);
      } else {
        OpenerKeepsCreated(c, s, a);
      }
    }
    var t := Step(c, s, a);
    forall j: nat | j < |t.pcs| && t.creator != Some(j)
      ensures Observed(c, t, j)
    {
      if j == a.i {
        StepObserves(c, s, a);
      } else {
        assert s.creator != Some(j) by { StepKeepsFile(c, s, a); }
        StepKeepsObserved(c, s, a, j);
      }
    }
  }

  lemma {:induction false} RunKeepsInv(c: Config, s: State, trace: seq<Action>, t: State)
    requires Inv(c, s) && Run(c, s, trace, t)
    ensures Inv(c, t)
    decreases |trace|
  {
    if trace != [] {
      StepKeepsInv(c, s, trace[0]);
      RunKeepsInv(c, Step(c, s, trace[0]), trace[1..], t);
    }
  }

  // ---------------------------------------------------------------- main results

  ghost predicate Complete(f: File) {
    f.present && f.header && f.mutex && f.cond
  }

  /** Nobody has returned successfully before the initialisation was complete. */
  ghost predicate Published(s: State) {
    forall i :: 0 <= i < |s.pcs| && s.pcs[i].Returned? ==> Complete(s.file)
  }

  /** Whoever returned finds a complete object and mapped the size the creator gave it. */
  lemma {:induction false} ReturnedIsComplete(c: Config, s: State, i: nat)
    requires Inv(c, s) && c.keepsX && i < |s.pcs| && s.pcs[i].Returned?
    ensures Complete(s.file) && s.creator.Some? && s.creator.value < |c.args|
    ensures s.pcs[i].size == s.file.size == SizeFor(c, s.creator.value)
    ensures !s.file.notReady && (c.kind == SemFile ==> s.file.magic)
  {
    assert s.creator != Some(i) ==> Observed(c, s, i);
  }

  lemma {:induction false} InitInv(c: Config, s: State)
    requires Init(c, s)
    ensures Inv(c, s)
  {
    assert forall i: nat :: i < |s.pcs| ==> s.pcs[i] == Start;
  }

  /** With a umask that keeps owner-execute, in every run at most one caller creates and
      initialises the object; whoever returns success finds it complete and maps the size the
      creator gave it; and from then on no step initialises anything again. */
  lemma {:induction false} EveryOpenIsSafe(c: Config, s: State, trace: seq<Action>, t: State, i: nat)
    requires Init(c, s) && Run(c, s, trace, t) && c.keepsX
    requires i < |t.pcs| && (t.pcs[i].Returned? || Creating(t.pcs[i]))
    ensures t.creator.Some? && t.creator.value < |c.args|
    ensures Creating(t.pcs[i]) ==> t.creator == Some(i)
    ensures t.pcs[i].Returned? ==>
              && Complete(t.file)
              && t.pcs[i].size == t.file.size
              && t.file.size == (if c.kind == QueueFile then c.args[t.creator.value].size else c.semSize)
              && (c.kind == SemFile ==> t.file.magic)
              && forall a :: Ready(c, t, a) ==> Step(c, t, a).file == t.file && Step(c, t, a).creator == t.creator
  {
    InitInv(c, s);
    RunKeepsInv(c, s, trace, t);
    assert t.creator != Some(i) ==> Observed(c, t, i);
    if t.pcs[i].Returned? {
      ReturnedIsComplete(c, t, i);
      forall a | Ready(c, t, a)
        ensures Step(c, t, a).file == t.file && Step(c, t, a).creator == t.creator
      {
        StepKeepsFile(c, t, a);
      }
    }
  }

  // ---------------------------------------------------------------- every call ends

  /** Steps a caller can still take; the polls are what MAX_TRIES bounds. */
  function StepsOf(kind: Kind, pc: Pc): int {
    match pc
    case Start => MAX_TRIES + 5
    case Exists => MAX_TRIES + 4
    case Poll(k) => if k <= MAX_TRIES then MAX_TRIES + 3 - k else 3
    case MapIt(n) => 1
    case SignToo => 1
    case Returned(n) => 0
    case Failed => 0
    case _ => 6 - Stage(kind, pc)
  }

  function StepsLeft(kind: Kind): Pc -> int {
    (pc: Pc) => StepsOf(kind, pc)
  }

  /** Every step brings its caller closer to the end of its call. */
  lemma {:induction false} StepAdvances(c: Config, s: State, a: Action)
    requires Inv(c, s) && Ready(c, s, a)
    ensures StepsOf(c.kind, Step(c, s, a).pcs[a.i]) < StepsOf(c.kind, s.pcs[a.i])
    ensures Step(c, s, a).pcs == s.pcs[a.i := Step(c, s, a).pcs[a.i]]
  {
    if s.creator != Some(a.i) {
      assert Observed(c, s, a.i);
    }
  }

  lemma {:induction false} StepLowersWork(c: Config, s: State, a: Action)
    requires Inv(c, s) && Ready(c, s, a)
    ensures Total(StepsLeft(c.kind), Step(c, s, a).pcs) < Total(StepsLeft(c.kind), s.pcs)
  {
    StepAdvances(c, s, a);
    TotalUpdate(StepsLeft(c.kind), s.pcs, a.i, Step(c, s, a).pcs[a.i]);
  }

  lemma {:induction false} RunEnds(c: Config, s: State, trace: seq<Action>, t: State)
    requires Inv(c, s) && Run(c, s, trace, t)
    ensures Total(StepsLeft(c.kind), t.pcs) + |trace| <= Total(StepsLeft(c.kind), s.pcs)
    decreases |trace|
  {
    if trace != [] {
      StepKeepsInv(c, s, trace[0]);
      StepLowersWork(c, s, trace[0]);
      RunEnds(c, Step(c, s, trace[0]), trace[1..], t);
    }
  }

  /** In every run the callers together take at most MAX_TRIES + 5 steps each, and whoever has
      not returned or failed can still move. */
  lemma {:induction false} EveryOpenEnds(c: Config, s: State, trace: seq<Action>, t: State)
    requires Init(c, s) && Run(c, s, trace, t)
    ensures |trace| <= (MAX_TRIES + 5) * |c.args|
    ensures |t.pcs| == |c.args|
    ensures forall i: nat :: i < |t.pcs| ==> t.pcs[i].Returned? || t.pcs[i].Failed? || Ready(c, t, Go(i))
  {
    InitInv(c, s);
    RunKeepsInv(c, s, trace, t);
    RunEnds(c, s, trace, t);
    TotalUniform(StepsLeft(c.kind), s.pcs, MAX_TRIES + 5);
    TotalAtLeast(StepsLeft(c.kind), t.pcs, 0);
  }

  // ---------------------------------------------------------------- which calls fail

  /** What the system calls of one caller have told it: whether the open with O_EXCL found the
      file, whether the plain open found it, and for each stat whether user-execute was on. */
  datatype Record = Record(excl: Option<bool>, plain: Option<bool>, looks: seq<bool>)

  /** The record for caller i after step a. */
  function Noted(c: Config, s: State, a: Action, i: nat, r: Record): Record
    requires Ready(c, s, a)
  {
    if a != Go(i) then r
    else
      match s.pcs[i]
      case Start => if c.args[i].creat then r.(excl := Some(s.file.present)) else r
      case Exists => r.(plain := Some(s.file.present))
      case Poll(k) => if k < MAX_TRIES then r.(looks := r.looks + [s.file.notReady]) else r
      case _ => r
  }

  function History(c: Config, s: State, trace: seq<Action>, i: nat, r: Record): Record
    decreases |trace|
  {
    if trace == [] || !Ready(c, s, trace[0]) then r
    else History(c, Step(c, s, trace[0]), trace[1..], i, Noted(c, s, trace[0], i, r))
  }

  ghost function Seen(c: Config, s: State, trace: seq<Action>, i: nat): Record {
    History(c, s, trace, i, Record(None, None, []))
  }

  /** Why the documentation lets a call fail: the file was to be new and exists, it was to exist
      and does not, or it was looked at MAX_TRIES times and never found ready. */
  ghost predicate MayFail(args: Args, r: Record) {
    || (args.creat && args.excl && r.excl == Some(true))
    || (!args.creat && r.plain == Some(false))
    || (|r.looks| == MAX_TRIES && false !in r.looks)
  }

  /** Past the plain open: both opens that the flags ask for have found the file. */
  predicate Found(args: Args, r: Record) {
    r.plain == Some(true) && r.excl == (if args.creat then Some(true) else None) && !(args.creat && args.excl)
  }

  /** What caller i has been told explains where it stands. */
  ghost predicate Told(c: Config, s: State, i: nat, r: Record)
    requires i < |s.pcs| == |c.args|
  {
    var args, looks := c.args[i], r.looks;
    match s.pcs[i]
    case Start => r == Record(None, None, [])
    case Exists => r == Record(if args.creat then Some(true) else None, None, []) && !(args.creat && args.excl)
    case Poll(k) => Found(args, r) && |looks| == k <= MAX_TRIES && false !in looks
    case MapIt(n) => Found(args, r) && ReadyLast(looks)
    case SignToo => Found(args, r) && ReadyLast(looks)
    case Failed => MayFail(args, r) && (r.plain == Some(true) ==> Found(args, r))
    case Returned(n) => (Found(args, r) && ReadyLast(looks)) || (args.creat && r == Record(Some(false), None, []))
    case _ => args.creat && r == Record(Some(false), None, [])
  }

  /** The last look, within MAX_TRIES, found the file ready. */
  predicate ReadyLast(looks: seq<bool>) {
    0 < |looks| <= MAX_TRIES && !looks[|looks| - 1]
  }

  lemma {:induction false} StepTells(c: Config, s: State, a: Action, i: nat, r: Record)
    requires Inv(c, s) && Ready(c, s, a) && a != GiveUp(i) && i < |s.pcs| && Told(c, s, i, r)
    ensures Told(c, Step(c, s, a), i, Noted(c, s, a, i, r))
  {
    if a == Go(i) {
      assert s.creator != Some(i) ==> Observed(c, s, i);
    } else {
      assert Step(c, s, a).pcs[i] == s.pcs[i];
    }
  }

  lemma {:induction false} RunTells(c: Config, s: State, trace: seq<Action>, t: State, i: nat, r: Record)
    requires Inv(c, s) && Run(c, s, trace, t) && GiveUp(i) !in trace && i < |s.pcs| && Told(c, s, i, r)
    ensures Inv(c, t) && i < |t.pcs| && Told(c, t, i, History(c, s, trace, i, r))
    decreases |trace|
  {
    if trace != [] {
      StepTells(c, s, trace[0], i, r);
      StepKeepsInv(c, s, trace[0]);
      RunTells(c, Step(c, s, trace[0]), trace[1..], t, i, Noted(c, s, trace[0], i, r));
    }
  }

  /** In every run a call that has ended, and was not given up for another reason, has failed
      exactly for one of the documented reasons; otherwise it has succeeded. */
  lemma {:induction false} FailsIffMayFail(c: Config, s: State, trace: seq<Action>, t: State, i: nat)
    requires Init(c, s) && Run(c, s, trace, t) && i < |c.args| && GiveUp(i) !in trace
    ensures i < |t.pcs|
    ensures t.pcs[i].Failed? ==> MayFail(c.args[i], Seen(c, s, trace, i))
    ensures t.pcs[i].Returned? ==> !MayFail(c.args[i], Seen(c, s, trace, i))
    ensures !Ready(c, t, Go(i)) ==> (t.pcs[i].Failed? <==> MayFail(c.args[i], Seen(c, s, trace, i)))
  {
    InitInv(c, s);
    RunTells(c, s, trace, t, i, Record(None, None, []));
  }

  /** On the way to success once the file is published. */
  predicate WillReturn(pc: Pc) {
    pc.Start? || pc.Exists? || (pc.Poll? && pc.tries < MAX_TRIES) || pc.MapIt? || pc.SignToo? || pc.Returned?
  }

  /** Once the file is published, every call that is not exclusive and has a look left returns,
      and maps the size the creator gave the file. */
  lemma {:induction false} PublishedIsOpened(c: Config, s: State, trace: seq<Action>, t: State, i: nat)
    requires Inv(c, s) && c.keepsX && s.file.present && !s.file.notReady
    requires i < |s.pcs| && !(c.args[i].creat && c.args[i].excl) && WillReturn(s.pcs[i])
    requires Run(c, s, trace, t) && GiveUp(i) !in trace
    ensures i < |t.pcs| && WillReturn(t.pcs[i])
    ensures !Ready(c, t, Go(i)) ==>
              && s.creator.Some? && s.creator.value < |c.args|
              && t.pcs[i] == Returned(if c.kind == QueueFile then c.args[s.creator.value].size else c.semSize)
    decreases |trace|
  {
    if trace == [] {
      if t.pcs[i].Returned? {
        ReturnedIsComplete(c, t, i);
      }
    } else {
      StepKeepsFile(c, s, trace[0]);
      StepKeepsInv(c, s, trace[0]);
      StaysOnTheWay(c, s, trace[0], i);
      PublishedIsOpened(c, Step(c, s, trace[0]), trace[1..], t, i);
    }
  }

  lemma {:induction false} StaysOnTheWay(c: Config, s: State, a: Action, i: nat)
    requires Ready(c, s, a) && a != GiveUp(i) && s.file.present && !s.file.notReady
    requires i < |s.pcs| && !(c.args[i].creat && c.args[i].excl) && WillReturn(s.pcs[i])
    ensures i < |Step(c, s, a).pcs| && WillReturn(Step(c, s, a).pcs[i])
  {
  }

  // ---------------------------------------------------------------- the umask assumption

  ghost predicate AlwaysPublished(c: Config) {
    forall s, trace, t :: Init(c, s) && Run(c, s, trace, t) ==> Published(t)
  }

  /** Caller i may create the file and caller j may find it. */
  ghost predicate MayRace(c: Config, i: nat, j: nat) {
    i < |c.args| && j < |c.args| && i != j && c.args[i].creat && !(c.args[j].creat && c.args[j].excl)
  }

  lemma {:induction false} RunSnoc(c: Config, s: State, trace: seq<Action>, t: State, a: Action)
    requires Run(c, s, trace, t) && Ready(c, t, a)
    ensures Run(c, s, trace + [a], Step(c, t, a))
    decreases |trace|
  {
    if trace == [] {
      assert Run(c, Step(c, t, a), [], Step(c, t, a));
    } else {
      assert (trace + [a])[1..] == trace[1..] + [a];
      RunSnoc(c, Step(c, s, trace[0]), trace[1..], t, a);
    }
  }

  /** Without the bit, j finds the file ready as soon as i has made it. */
  lemma {:induction false} ReturnsTooEarly(c: Config, i: nat, j: nat) returns (s: State, trace: seq<Action>, t: State)
    requires !c.keepsX && MayRace(c, i, j)
    ensures Init(c, s) && Run(c, s, trace, t) && !Published(t)
  {
    s := State(NoFile, None, seq(|c.args|, _ => Start));
    var s1 := Step(c, s, Go(i));
    var s2 := Step(c, s1, Go(j));
    var s3 := Step(c, s2, Go(j));
    var s4 := Step(c, s3, Go(j));
    t := Step(c, s4, Go(j));
    RunSnoc(c, s, [], s, Go(i));
    RunSnoc(c, s, [] + [Go(i)], s1, Go(j));
    RunSnoc(c, s, [] + [Go(i)] + [Go(j)], s2, Go(j));
    RunSnoc(c, s, [] + [Go(i)] + [Go(j)] + [Go(j)], s3, Go(j));
    RunSnoc(c, s, [] + [Go(i)] + [Go(j)] + [Go(j)] + [Go(j)], s4, Go(j));
    trace := [] + [Go(i)] + [Go(j)] + [Go(j)] + [Go(j)] + [Go(j)];
    assert t.pcs[j].Returned? && !t.file.header;
  }

  /** Nobody ever returns too early exactly when the umask keeps owner-execute or no two of the
      callers can race. */
  lemma {:induction false} PublishedIffUmaskOrNoRace(c: Config)
    ensures AlwaysPublished(c) <==> c.keepsX || !exists i, j :: MayRace(c, i, j)
  {
    if !c.keepsX && exists i, j :: MayRace(c, i, j) {
      var i, j :| MayRace(c, i, j);
      var s, trace, t := ReturnsTooEarly(c, i, j);
      assert Run(c, s, trace, t) && !Published(t);
    } else {
      forall s, trace, t | Init(c, s) && Run(c, s, trace, t)
        ensures Published(t)
      {
        InitInv(c, s);
        RunKeepsInv(c, s, trace, t);
        forall i: nat | i < |t.pcs| && t.pcs[i].Returned?
          ensures Complete(t.file)
        {
          ReturnedIsCompleteOrRaced(c, t, i);
        }
      }
    }
  }

  lemma {:induction false} ReturnedIsCompleteOrRaced(c: Config, s: State, i: nat)
    requires Inv(c, s) && i < |s.pcs| && s.pcs[i].Returned?
    ensures Complete(s.file) || (!c.keepsX && s.creator.Some? && MayRace(c, s.creator.value, i))
  {
    assert s.creator != Some(i) ==> Observed(c, s, i);
  }
}
