/**
 The two-thread file copy pxsem/mycat2.c: one thread reads the input into a circular array of
 buffers, the other writes them out; a buffer of length zero marks the end of the file.  Every
 semaphore operation, Read and Write is one step.
 */
module FileCopy {
  import opened Common

  // The statement each thread executes next.
  datatype Reader = WaitEmpty | RLock | RUnlock | ReadIn | PostStored | PostLast | ReaderDone
  datatype Writer = WaitStored | WLock | WUnlock | WriteOut | PostEmpty | WriterDone

  datatype Config = Config(input: seq<byte>, nbuff: nat, buffsize: nat)

  /** slots[k]: the first n bytes of buffer k.  nread and nwritten, the numbers of buffers filled
      and written out so far, are history; pi and ci are the program's circular indices. */
  datatype State = State(
    rest: seq<byte>, out: seq<byte>, slots: seq<seq<byte>>,
    mutex: nat, nempty: nat, nstored: nat,
    reader: Reader, pi: nat, nread: nat,
    writer: Writer, ci: nat, nwritten: nat)

  /** ReaderStep(n): n is the byte count if the step is a Read. */
  datatype Action = ReaderStep(n: nat) | WriterStep

  ghost predicate Init(c: Config, s: State) {
    && c.nbuff > 0 && c.buffsize > 0
    && s.rest == c.input && s.out == [] && |s.slots| == c.nbuff
    && s.mutex == 1 && s.nempty == c.nbuff && s.nstored == 0
    && s.reader == WaitEmpty && s.pi == 0 && s.nread == 0
    && s.writer == WaitStored && s.ci == 0 && s.nwritten == 0
  }

  /** Read returns some of the remaining bytes, and zero bytes only at the end of the file. */
  predicate Ready(c: Config, s: State, a: Action) {
    match a
    case ReaderStep(n) => (
      match s.reader
      case WaitEmpty => s.nempty > 0
      case RLock => s.mutex > 0
      case ReadIn => s.pi < |s.slots| && n <= c.buffsize && n <= |s.rest| && (n == 0 <==> s.rest == [])
      case ReaderDone => false
      case _ => true)
    case WriterStep =>
      match s.writer
      case WaitStored => s.nstored > 0
      case WLock => s.mutex > 0
      case WriteOut => s.ci < |s.slots|
      case WriterDone => false
      case _ => true
  }

  /** if (++i >= NBUFF) i = 0 */
  function Advance(c: Config, i: nat): nat {
    if i + 1 >= c.nbuff then 0 else i + 1
  }

  function StepReader(c: Config, s: State, n: nat): State
    requires Ready(c, s, ReaderStep(n))
  {
    match s.reader
    case WaitEmpty => s.(reader := RLock, nempty := s.nempty - 1)
    case RLock => s.(reader := RUnlock, mutex := s.mutex - 1)
    case RUnlock => s.(reader := ReadIn, mutex := s.mutex + 1)
    case ReadIn =>
      var filled := s.(slots := s.slots[s.pi := s.rest[..n]], rest := s.rest[n..]);
      if n == 0 then filled.(reader := PostLast)
      else filled.(reader := PostStored, pi := Advance(c, s.pi), nread := s.nread + 1)
    case PostLast => s.(reader := ReaderDone, nstored := s.nstored + 1)
    case PostStored => s.(reader := WaitEmpty, nstored := s.nstored + 1)
  }

  function StepWriter(c: Config, s: State): State
    requires Ready(c, s, WriterStep)
  {
    match s.writer
    case WaitStored => s.(writer := WLock, nstored := s.nstored - 1)
    case WLock => s.(writer := WUnlock, mutex := s.mutex - 1)
    case WUnlock => s.(writer := WriteOut, mutex := s.mutex + 1)
    case WriteOut =>
      if s.slots[s.ci] == [] then s.(writer := WriterDone)
      else s.(writer := PostEmpty, out := s.out + s.slots[s.ci], ci := Advance(c, s.ci), nwritten := s.nwritten + 1)
    case PostEmpty => s.(writer := WaitStored, nempty := s.nempty + 1)
  }

  function Step(c: Config, s: State, a: Action): State
    requires Ready(c, s, a)
  {
    match a
    case ReaderStep(n) => StepReader(c, s, n)
    case WriterStep => StepWriter(c, s)
  }

  ghost predicate Run(c: Config, s: State, trace: seq<Action>, t: State)
    decreases |trace|
  {
    if trace == [] then s == t
    else Ready(c, s, trace[0]) && Run(c, Step(c, s, trace[0]), trace[1..], t)
  }

  // ---------------------------------------------------------------- invariant

  /** Read has returned zero. */
  predicate AtEof(s: State) {
    s.reader == PostLast || s.reader == ReaderDone
  }

  ghost predicate TokensKept(c: Config, s: State) {
    && s.mutex + One(s.reader == RUnlock) + One(s.writer == WUnlock) == 1
    && s.nempty + One(s.reader == RLock || s.reader == RUnlock || s.reader == ReadIn || AtEof(s))
       + (s.nread - s.nwritten) + One(s.writer == PostEmpty) == c.nbuff
    && s.nstored + One(s.reader == PostStored || s.reader == PostLast)
       + One(s.writer == WLock || s.writer == WUnlock || s.writer == WriteOut || s.writer == WriterDone)
       == (s.nread - s.nwritten) + One(AtEof(s))
  }

  /** The bytes in the buffers filled but not yet written out, in order. */
  function Flow(slots: seq<seq<byte>>, lo: int, hi: int): seq<byte>
    requires |slots| > 0 && 0 <= lo <= hi
    decreases hi - lo
  {
    if lo == hi then [] else slots[lo % |slots|] + Flow(slots, lo + 1, hi)
  }

  ghost predicate Stored(c: Config, s: State)
    requires |s.slots| > 0
  {
    && s.pi == s.nread % |s.slots| && s.ci == s.nwritten % |s.slots|
    && s.nwritten <= s.nread
    && (forall k :: s.nwritten <= k < s.nread ==> s.slots[k % |s.slots|] != [])
    && (AtEof(s) ==> s.rest == [] && s.slots[s.nread % |s.slots|] == [])
    && (s.writer == WriterDone ==> AtEof(s) && s.nwritten == s.nread)
    && s.out + Flow(s.slots, s.nwritten, s.nread) + s.rest == c.input
  }

  ghost predicate Inv(c: Config, s: State) {
    && |s.slots| == c.nbuff > 0 && c.buffsize > 0
    && TokensKept(c, s)
    && Stored(c, s)
  }

  function StepsLeft(s: State): int {
    (match s.reader
     case PostStored => 6 case WaitEmpty => 5 case RLock => 4 case RUnlock => 3 case ReadIn => 2
     case PostLast => 1 case ReaderDone => 0)
    + (match s.writer
       case PostEmpty => 5 case WaitStored => 4 case WLock => 3 case WUnlock => 2 case WriteOut => 1
       case WriterDone => 0)
  }

  function Work(s: State): int {
    10 * |s.rest| + 5 * (s.nread - s.nwritten) + StepsLeft(s)
  }

  lemma AdvanceIsModulo(c: Config, n: nat)
    requires c.nbuff > 0
    ensures Advance(c, n % c.nbuff) == (n + 1) % c.nbuff
  {
    var q, r := n / c.nbuff, n % c.nbuff;
    assert n + 1 == c.nbuff * q + (r + 1);
    if r + 1 == c.nbuff {
      assert n + 1 == c.nbuff * (q + 1) + 0;
      ModuloUnique(n + 1, c.nbuff, q + 1, 0);
    } else {
      ModuloUnique(n + 1, c.nbuff, q, r + 1);
    }
  }

  lemma ModuloUnique(x: nat, n: nat, q: nat, r: nat)
    requires n > 0 && x == n * q + r && r < n
    ensures x % n == r
  {
    var d := x / n - q;
    assert r - x % n == n * d;
    assert d >= 1 ==> n * d >= n * 1;
    assert d <= -1 ==> n * d <= n * -1;
  }

  /** Refilling the slot after the last full one leaves the full ones alone. */
  lemma {:induction false} FlowUntouched(slots: seq<seq<byte>>, lo: int, hi: int, chunk: seq<byte>, end: int)
    requires |slots| > 0 && 0 <= lo <= hi <= end < lo + |slots|
    ensures Flow(slots[end % |slots| := chunk], lo, hi) == Flow(slots, lo, hi)
    decreases hi - lo
  {
    if lo < hi {
      SlotsDiffer(|slots|, lo, end);
      FlowUntouched(slots, lo + 1, hi, chunk, end);
    }
  }

  lemma {:induction false} FlowAppend(slots: seq<seq<byte>>, lo: int, hi: int)
    requires |slots| > 0 && 0 <= lo <= hi
    ensures Flow(slots, lo, hi + 1) == Flow(slots, lo, hi) + slots[hi % |slots|]
    decreases hi - lo
  {
    if lo == hi {
      assert Flow(slots, lo + 1, hi + 1) == [];
    } else {
      FlowAppend(slots, lo + 1, hi);
    }
  }

  /** The buffers still to be written out keep their contents when the next one is filled. */
  lemma ReadKeepsSlots(c: Config, s: State, n: nat)
    requires Inv(c, s) && Ready(c, s, ReaderStep(n)) && s.reader == ReadIn
    ensures forall k :: s.nwritten <= k < s.nread ==> StepReader(c, s, n).slots[k % |s.slots|] == s.slots[k % |s.slots|]
  {
    forall k | s.nwritten <= k < s.nread
      ensures StepReader(c, s, n).slots[k % |s.slots|] == s.slots[k % |s.slots|]
    {
      SlotsDiffer(|s.slots|, k, s.nread);
    }
  }

  lemma ReadKeepsBytes(c: Config, s: State, n: nat)
    requires Inv(c, s) && Ready(c, s, ReaderStep(n)) && s.reader == ReadIn
    ensures var t := StepReader(c, s, n);
            t.out + Flow(t.slots, t.nwritten, t.nread) + t.rest == c.input
  {
    FlowUntouched(s.slots, s.nwritten, s.nread, s.rest[..n], s.nread);
    FlowAppend(StepReader(c, s, n).slots, s.nwritten, s.nread);
    assert s.rest == s.rest[..n] + s.rest[n..];
  }

  lemma ReadKeepsStored(c: Config, s: State, n: nat)
    requires Inv(c, s) && Ready(c, s, ReaderStep(n)) && s.reader == ReadIn
    ensures Stored(c, StepReader(c, s, n))
  {
    AdvanceIsModulo(c, s.nread);
    ReadKeepsSlots(c, s, n);
    ReadKeepsBytes(c, s, n);
  }

  lemma WriteKeepsStored(c: Config, s: State)
    requires Inv(c, s) && Ready(c, s, WriterStep) && s.writer == WriteOut
    ensures Stored(c, StepWriter(c, s))
    ensures s.slots[s.ci] == [] <==> s.nwritten == s.nread
  {
    AdvanceIsModulo(c, s.nwritten);
  }

  lemma ReaderKeepsInv(c: Config, s: State, n: nat)
    requires Inv(c, s) && Ready(c, s, ReaderStep(n))
    ensures Inv(c, StepReader(c, s, n)) && Work(StepReader(c, s, n)) < Work(s)
  {
    if s.reader == ReadIn {
      ReadKeepsStored(c, s, n);
    }
  }

  lemma WriterKeepsInv(c: Config, s: State)
    requires Inv(c, s) && Ready(c, s, WriterStep)
    ensures Inv(c, StepWriter(c, s)) && Work(StepWriter(c, s)) < Work(s)
  {
    if s.writer == WriteOut {
      WriteKeepsStored(c, s);
    }
  }

  lemma StepKeepsInv(c: Config, s: State, a: Action)
    requires Inv(c, s) && Ready(c, s, a)
    ensures Inv(c, Step(c, s, a)) && Work(Step(c, s, a)) < Work(s)
  {
    match a
    case ReaderStep(n) => ReaderKeepsInv(c, s, n);
    case WriterStep => WriterKeepsInv(c, s);
  }

  lemma {:induction false} RunKeepsInv(c: Config, s: State, trace: seq<Action>, t: State)
    requires Inv(c, s) && Run(c, s, trace, t)
    ensures Inv(c, t) && Work(t) + |trace| <= Work(s)
    decreases |trace|
  {
    if trace != [] {
      StepKeepsInv(c, s, trace[0]);
      RunKeepsInv(c, Step(c, s, trace[0]), trace[1..], t);
    }
  }

  // ---------------------------------------------------------------- main results

  lemma PrefixOfWhole(a: seq<byte>, b: seq<byte>, c: seq<byte>)
    ensures a <= a + b + c
  {
    assert a + b + c == a + (b + c);
  }

  /** The reader and the writer never work on the same buffer. */
  lemma BuffersApart(c: Config, s: State)
    requires Inv(c, s) && s.reader == ReadIn && s.writer == WriteOut
    ensures s.pi != s.ci
  {
    SlotsDiffer(|s.slots|, s.nwritten, s.nread);
  }

  /** Under every interleaving and every splitting of the input by Read, what has been written
      is a prefix of the input, and no buffer is filled while it is being written out. */
  lemma EveryRunCopies(c: Config, s: State, trace: seq<Action>, t: State)
    requires Init(c, s) && Run(c, s, trace, t)
    ensures t.out <= c.input
    ensures t.reader == ReadIn && t.writer == WriteOut ==> t.pi != t.ci
  {
    RunKeepsInv(c, s, trace, t);
    PrefixOfWhole(t.out, Flow(t.slots, t.nwritten, t.nread), t.rest);
    if t.reader == ReadIn && t.writer == WriteOut {
      BuffersApart(c, t);
    }
  }

  ghost predicate Stuck(c: Config, s: State) {
    forall a :: !Ready(c, s, a)
  }

  lemma StuckIsDone(c: Config, s: State)
    requires Inv(c, s) && Stuck(c, s)
    ensures s.reader == ReaderDone && s.writer == WriterDone
  {
    assert !Ready(c, s, WriterStep);
    assert !Ready(c, s, ReaderStep(if s.rest == [] then 0 else 1));
  }

  /** Every run is finite, and it can stop only with both threads returned and the output equal
      to the input. */
  lemma EveryRunFinishes(c: Config, s: State, trace: seq<Action>, t: State)
    requires Init(c, s) && Run(c, s, trace, t)
    ensures |trace| <= 10 * |c.input| + 9
    ensures Stuck(c, t) ==> t.reader == ReaderDone && t.writer == WriterDone && t.out == c.input
  {
    RunKeepsInv(c, s, trace, t);
    if Stuck(c, t) {
      StuckIsDone(c, t);
    }
  }
}
