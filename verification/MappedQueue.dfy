/**
 The message queue as it lies in the mapped file (my_pxmsg_mmap): a header followed by maxmsg
 slots addressed by byte offset, a free list and a priority-ordered message list threaded
 through msg_next, and 0 as the end marker.
 */
module MappedQueue {
  import opened Common
  import opened QueueSpec

  const SIZEOF_LONG := 8
  const SIZEOF_MSG_HDR := 24          // struct mymsg_hdr: two longs and an unsigned int, padded
  const HEAD := 32                    // offset of mqh_head: the four longs of mqh_attr come first
  const MQI_MAGIC := 0x98765432

  /** MSGSIZE: the least multiple of sizeof(long) that holds i bytes. */
  function MsgSize(i: int): (r: int)
    requires i >= 0
    ensures r % SIZEOF_LONG == 0 && i <= r < i + SIZEOF_LONG
  {
    (i + SIZEOF_LONG - 1) / SIZEOF_LONG * SIZEOF_LONG
  }

  datatype MsgHdr = MsgHdr(next: int, len: int, prio: nat)

  // ---------------------------------------------------------------- chains of offsets

  /** The offset at place k of a chain, or the end marker behind its last place. */
  function At(offs: seq<int>, k: nat): int {
    if k < |offs| then offs[k] else 0
  }

  /** first and the next fields visit exactly offs and then end. */
  ghost predicate Chain(hdrs: seq<MsgHdr>, first: int, offs: seq<int>) {
    && first == At(offs, 0)
    && (forall k :: 0 <= k < |offs| ==> 0 < offs[k] < |hdrs|)
    && (forall k :: 0 <= k < |offs| ==> Linked(hdrs, offs, k))
  }

  ghost predicate Linked(hdrs: seq<MsgHdr>, offs: seq<int>, k: int) {
    0 <= k < |offs| && 0 < offs[k] < |hdrs| && hdrs[offs[k]].next == At(offs, k + 1)
  }

  ghost predicate Distinct(offs: seq<int>) {
    forall i, j :: 0 <= i < j < |offs| ==> offs[i] != offs[j]
  }

  /** The two chains share out the slots: every slot is on exactly one of them, once. */
  ghost predicate Partition(queued: seq<int>, avail: seq<int>, slots: seq<int>) {
    Distinct(slots) && multiset(queued) + multiset(avail) == multiset(slots)
  }

  lemma {:induction false} DistinctCounts(offs: seq<int>, x: int)
    requires Distinct(offs)
    ensures multiset(offs)[x] <= 1
  {
    if offs != [] {
      DistinctCounts(offs[1..], x);
      assert offs == [offs[0]] + offs[1..];
    }
  }

  lemma PartitionApart(queued: seq<int>, avail: seq<int>, slots: seq<int>)
    requires Partition(queued, avail, slots)
    ensures Distinct(queued) && Distinct(avail)
    ensures forall o :: o in queued ==> o !in avail
    ensures forall o :: o in queued || o in avail <==> o in slots
    ensures |queued| + |avail| == |slots|
  {
    forall i, j | 0 <= i < j < |queued| ensures queued[i] != queued[j] {
      OnceOnly(queued, avail, slots, i, j);
    }
    forall i, j | 0 <= i < j < |avail| ensures avail[i] != avail[j] {
      OnceOnly(avail, queued, slots, i, j);
    }
    forall o | o in queued ensures o !in avail {
      DistinctCounts(slots, o);
      assert o in multiset(queued);
      assert multiset(slots)[o] == multiset(queued)[o] + multiset(avail)[o];
    }
    forall o ensures o in queued || o in avail <==> o in slots {
      assert o in multiset(slots) <==> o in multiset(queued) || o in multiset(avail);
    }
    assert |multiset(queued) + multiset(avail)| == |multiset(slots)|;
  }

  lemma OnceOnly(xs: seq<int>, ys: seq<int>, slots: seq<int>, i: int, j: int)
    requires Distinct(slots) && multiset(xs) + multiset(ys) == multiset(slots)
    requires 0 <= i < j < |xs|
    ensures xs[i] != xs[j]
  {
    DistinctCounts(slots, xs[i]);
    assert xs == xs[..i] + [xs[i]] + xs[i + 1..j] + [xs[j]] + xs[j + 1..];
    assert multiset(slots)[xs[i]] == multiset(xs)[xs[i]] + multiset(ys)[xs[i]];
  }

  function InsertAt<T>(s: seq<T>, k: nat, x: T): (r: seq<T>)
    requires k <= |s|
    ensures |r| == |s| + 1
    ensures forall j :: 0 <= j < |r| ==> r[j] == if j < k then s[j] else if j == k then x else s[j - 1]
  {
    s[..k] + [x] + s[k..]
  }

  /** A send moves the first free slot into the message list. */
  lemma PartitionSend(queued: seq<int>, avail: seq<int>, slots: seq<int>, k: nat)
    requires Partition(queued, avail, slots) && avail != [] && k <= |queued|
    ensures Partition(InsertAt(queued, k, avail[0]), avail[1..], slots)
  {
    assert queued == queued[..k] + queued[k..];
    assert avail == [avail[0]] + avail[1..];
  }

  /** A receive moves the first message slot to the front of the free list. */
  lemma PartitionReceive(queued: seq<int>, avail: seq<int>, slots: seq<int>)
    requires Partition(queued, avail, slots) && queued != []
    ensures Partition(queued[1..], [queued[0]] + avail, slots)
  {
    assert queued == [queued[0]] + queued[1..];
  }

  /** Storing the new slot's offset in the next field of its predecessor, which may be the
      mqh_head field seen as a message header, splices the slot into the chain. */
  lemma {:induction false} ChainInsert(hdrs: seq<MsgHdr>, queued: seq<int>, k: nat, f: int, m: MsgHdr)
    requires HEAD < |hdrs| && Chain(hdrs, hdrs[HEAD].next, queued)
    requires k <= |queued| && 0 < f < |hdrs| && f != HEAD
    requires Distinct(queued) && f !in queued && HEAD !in queued
    requires m.next == At(queued, k)
    ensures var p := if k == 0 then HEAD else queued[k - 1];
            var hdrs' := hdrs[f := m][p := hdrs[p].(next := f)];
            Chain(hdrs', hdrs'[HEAD].next, InsertAt(queued, k, f))
  {
    var p := if k == 0 then HEAD else queued[k - 1];
    var hdrs' := hdrs[f := m][p := hdrs[p].(next := f)];
    var all := InsertAt(queued, k, f);
    forall j | 0 <= j < |all|
      ensures Linked(hdrs', all, j)
    {
      if j < k {
        assert Linked(hdrs, queued, j);
      } else if j > k {
        assert Linked(hdrs, queued, j - 1);
      }
    }
  }

  lemma ChainUpdateElsewhere(hdrs: seq<MsgHdr>, first: int, offs: seq<int>, o: int, m: MsgHdr)
    requires Chain(hdrs, first, offs) && 0 <= o < |hdrs| && o !in offs
    ensures Chain(hdrs[o := m], first, offs)
  {
    var hdrs' := hdrs[o := m];
    forall k | 0 <= k < |offs|
      ensures Linked(hdrs', offs, k)
    {
      assert Linked(hdrs, offs, k);
    }
  }

  // ---------------------------------------------------------------- the messages on a chain

  /** Every slot has room for its header and msgsize bytes, behind the queue header, and clear
      of the other slots. */
  ghost predicate Spaced(slots: seq<int>, start: int, stride: int, end: int) {
    && (forall i :: 0 <= i < |slots| ==> start <= slots[i] && slots[i] + stride <= end)
    && (forall i, j :: 0 <= i < j < |slots| ==> slots[i] + stride <= slots[j])
  }

  function MessageAt(hdrs: seq<MsgHdr>, data: seq<byte>, o: int): Message
    requires 0 <= o < |hdrs| && 0 <= hdrs[o].len && o + SIZEOF_MSG_HDR + hdrs[o].len <= |data|
  {
    Message(data[o + SIZEOF_MSG_HDR..o + SIZEOF_MSG_HDR + hdrs[o].len], hdrs[o].prio)
  }

  ghost predicate Fits(hdrs: seq<MsgHdr>, data: seq<byte>, offs: seq<int>, msgsize: int) {
    forall k :: 0 <= k < |offs| ==>
      && 0 <= offs[k] < |hdrs| && 0 <= hdrs[offs[k]].len <= msgsize
      && offs[k] + SIZEOF_MSG_HDR + msgsize <= |data|
  }

  function Messages(hdrs: seq<MsgHdr>, data: seq<byte>, offs: seq<int>, msgsize: int): (r: seq<Message>)
    requires Fits(hdrs, data, offs, msgsize)
    ensures |r| == |offs|
  {
    seq(|offs|, k requires 0 <= k < |offs| => MessageAt(hdrs, data, offs[k]))
  }

  /** Where Insert puts a message. */
  lemma {:induction false} InsertPlace(q: seq<Message>, m: Message, k: nat)
    requires k <= |q|
    requires forall j :: 0 <= j < k ==> q[j].prio >= m.prio
    requires k < |q| ==> m.prio > q[k].prio
    ensures Insert(q, m) == InsertAt(q, k, m)
  {
    if k > 0 {
      InsertPlace(q[1..], m, k - 1);
      assert InsertAt(q, k, m) == [q[0]] + InsertAt(q[1..], k - 1, m);
    }
  }

  lemma SpacedApart(slots: seq<int>, start: int, stride: int, end: int, o: int, f: int)
    requires Spaced(slots, start, stride, end) && o in slots && f in slots && o != f
    ensures start <= o && o + stride <= end
    ensures o + stride <= f || f + stride <= o
  {
    var i :| 0 <= i < |slots| && slots[i] == o;
    var j :| 0 <= j < |slots| && slots[j] == f;
    assert i < j || j < i;
  }

  /** data with body stored from offset a on. */
  function Stored(data: seq<byte>, a: int, body: seq<byte>): (r: seq<byte>)
    requires 0 <= a && a + |body| <= |data|
    ensures |r| == |data|
    ensures forall i :: 0 <= i < |r| ==> r[i] == if a <= i < a + |body| then body[i - a] else data[i]
  {
    data[..a] + body + data[a + |body|..]
  }

  /** A stored body can be read back, and leaves every range clear of it alone. */
  lemma StoredReads(data: seq<byte>, a: int, body: seq<byte>, lo: int, hi: int)
    requires 0 <= a && a + |body| <= |data| && 0 <= lo <= hi <= |data|
    ensures Stored(data, a, body)[a..a + |body|] == body
    ensures hi <= a || a + |body| <= lo ==> Stored(data, a, body)[lo..hi] == data[lo..hi]
  {
  }

  /** The two headers written by a send: the new slot's, and its predecessor's next field. */
  function Spliced(hdrs: seq<MsgHdr>, p: int, f: int, m: MsgHdr): (r: seq<MsgHdr>)
    requires 0 <= p < |hdrs| && 0 <= f < |hdrs|
    ensures |r| == |hdrs|
  {
    hdrs[f := m][p := hdrs[p].(next := f)]
  }

  /** The messages of the other slots survive a send into slot f. */
  lemma MessageSurvives(hdrs: seq<MsgHdr>, data: seq<byte>, o: int, p: int, f: int, m: MsgHdr, body: seq<byte>, stride: int)
    requires 0 <= o < |hdrs| && 0 <= p < |hdrs| && 0 <= f < |hdrs| && o != f
    requires 0 <= hdrs[o].len && SIZEOF_MSG_HDR + hdrs[o].len <= stride && SIZEOF_MSG_HDR + |body| <= stride
    requires o + stride <= |data| && f + stride <= |data|
    requires o + stride <= f || f + stride <= o
    ensures MessageAt(Spliced(hdrs, p, f, m), Stored(data, f + SIZEOF_MSG_HDR, body), o) == MessageAt(hdrs, data, o)
  {
    StoredReads(data, f + SIZEOF_MSG_HDR, body, o + SIZEOF_MSG_HDR, o + SIZEOF_MSG_HDR + hdrs[o].len);
  }

  /** After a send the messages are those before it with the new one at place k. */
  lemma {:induction false} MessagesSend(hdrs: seq<MsgHdr>, data: seq<byte>, queued: seq<int>, msgsize: int,
                     slots: seq<int>, start: int, stride: int, k: nat, f: int, p: int, m: MsgHdr, body: seq<byte>)
    requires Fits(hdrs, data, queued, msgsize) && Spaced(slots, start, stride, |data|)
    requires 0 <= start && stride >= SIZEOF_MSG_HDR + msgsize && |hdrs| == |data|
    requires f in slots && f !in queued && (forall o :: o in queued ==> o in slots)
    requires 0 <= p < |hdrs| && p != f && k <= |queued| && m.len == |body| <= msgsize && 0 <= f < |hdrs|
    requires f + SIZEOF_MSG_HDR + |body| <= |data|
    ensures var hdrs', data' := Spliced(hdrs, p, f, m), Stored(data, f + SIZEOF_MSG_HDR, body);
            && Fits(hdrs', data', InsertAt(queued, k, f), msgsize)
            && Messages(hdrs', data', InsertAt(queued, k, f), msgsize)
               == InsertAt(Messages(hdrs, data, queued, msgsize), k, Message(body, m.prio))
  {
    var hdrs', data' := Spliced(hdrs, p, f, m), Stored(data, f + SIZEOF_MSG_HDR, body);
    var all := InsertAt(queued, k, f);
    forall j | 0 <= j < |queued|
      ensures MessageAt(hdrs', data', queued[j]) == MessageAt(hdrs, data, queued[j])
    {
      SpacedApart(slots, start, stride, |data|, queued[j], f);
      SpacedApart(slots, start, stride, |data|, f, queued[j]);
      MessageSurvives(hdrs, data, queued[j], p, f, m, body, stride);
    }
    StoredReads(data, f + SIZEOF_MSG_HDR, body, 0, 0);
    assert f in slots;
    assert Fits(hdrs', data', all, msgsize);
  }

  // ---------------------------------------------------------------- the mapped region

  /** What mq_open fixes: the attributes and where the slots lie. */
  datatype Layout = Layout(maxmsg: int, msgsize: int, start: int, stride: int, slots: seq<int>)

  /** The lists and the slots of the region never disagree: both chains are acyclic and end at 0,
      and together they visit every slot exactly once. */
  ghost predicate Sound(y: Layout, hdrs: seq<MsgHdr>, data: seq<byte>, free: int, queued: seq<int>, avail: seq<int>) {
    && 0 < y.msgsize && 0 < y.maxmsg == |y.slots|
    && HEAD + SIZEOF_LONG <= y.start && y.stride == SIZEOF_MSG_HDR + MsgSize(y.msgsize)
    && |hdrs| == |data| && HEAD < |hdrs|
    && Spaced(y.slots, y.start, y.stride, |data|)
    && Partition(queued, avail, y.slots)
    && Chain(hdrs, hdrs[HEAD].next, queued)
    && Chain(hdrs, free, avail)
    && Fits(hdrs, data, queued, y.msgsize)
  }

  lemma ChainTail(hdrs: seq<MsgHdr>, first: int, offs: seq<int>)
    requires Chain(hdrs, first, offs) && offs != []
    ensures Chain(hdrs, hdrs[offs[0]].next, offs[1..])
  {
    assert Linked(hdrs, offs, 0);
    var rest := offs[1..];
    forall k | 0 <= k < |rest|
      ensures Linked(hdrs, rest, k)
    {
      assert Linked(hdrs, offs, k + 1);
    }
  }

  lemma ChainCons(hdrs: seq<MsgHdr>, first: int, offs: seq<int>, o: int)
    requires Chain(hdrs, first, offs) && 0 < o < |hdrs| && hdrs[o].next == first
    ensures Chain(hdrs, o, [o] + offs)
  {
    var all := [o] + offs;
    forall k | 0 <= k < |all|
      ensures Linked(hdrs, all, k)
    {
      assert k > 0 ==> Linked(hdrs, offs, k - 1);
    }
  }

  /** Slots lie behind mqh_head and inside the region. */
  lemma SlotBounds(y: Layout, hdrs: seq<MsgHdr>, data: seq<byte>, free: int, queued: seq<int>, avail: seq<int>, o: int)
    requires Sound(y, hdrs, data, free, queued, avail) && (o in queued || o in avail)
    ensures o in y.slots && HEAD < o && o + y.stride <= |data|
  {
    PartitionApart(queued, avail, y.slots);
  }

  /** With fewer than maxmsg messages the free list is not empty, so its head is a slot off the
      message list. */
  lemma FirstFree(y: Layout, hdrs: seq<MsgHdr>, data: seq<byte>, free: int, queued: seq<int>, avail: seq<int>)
    requires Sound(y, hdrs, data, free, queued, avail) && |queued| < y.maxmsg
    ensures avail != [] && free == avail[0] && free !in queued
    ensures HEAD < free && free + y.stride <= |data| == |hdrs|
    ensures y.stride >= SIZEOF_MSG_HDR + y.msgsize
    ensures Chain(hdrs, hdrs[HEAD].next, queued)
  {
    PartitionApart(queued, avail, y.slots);
    SlotBounds(y, hdrs, data, free, queued, avail, avail[0]);
  }

  /** Linking the first free slot in at place k keeps the region sound and inserts the message. */
  lemma {:induction false} SendKeepsSound(y: Layout, hdrs: seq<MsgHdr>, data: seq<byte>, free: int, queued: seq<int>, avail: seq<int>,
                                          k: nat, m: MsgHdr, body: seq<byte>)
    requires Sound(y, hdrs, data, free, queued, avail) && avail != [] && k <= |queued|
    requires m.next == At(queued, k) && m.len == |body| <= y.msgsize
    ensures var f, p := avail[0], if k == 0 then HEAD else queued[k - 1];
            && 0 <= f && f + SIZEOF_MSG_HDR + |body| <= |data| && 0 <= p < |hdrs| && f != p
            && var hdrs', data' := Spliced(hdrs, p, f, m), Stored(data, f + SIZEOF_MSG_HDR, body);
               && Sound(y, hdrs', data', hdrs[f].next, InsertAt(queued, k, f), avail[1..])
               && Messages(hdrs', data', InsertAt(queued, k, f), y.msgsize)
                  == InsertAt(Messages(hdrs, data, queued, y.msgsize), k, Message(body, m.prio))
  {
    var f, p := avail[0], if k == 0 then HEAD else queued[k - 1];
    PartitionApart(queued, avail, y.slots);
    SlotBounds(y, hdrs, data, free, queued, avail, f);
    assert k > 0 ==> queued[k - 1] in queued;
    assert HEAD !in y.slots;
    ChainInsert(hdrs, queued, k, f, m);
    PartitionSend(queued, avail, y.slots, k);
    MessagesSend(hdrs, data, queued, y.msgsize, y.slots, y.start, y.stride, k, f, p, m, body);
    ChainTail(hdrs, free, avail);
    ChainUpdateElsewhere(hdrs, hdrs[f].next, avail[1..], f, m);
    ChainUpdateElsewhere(hdrs[f := m], hdrs[f].next, avail[1..], p, hdrs[p].(next := f));
  }

  /** k is where a message of priority prio belongs in the list. */
  ghost predicate Place(hdrs: seq<MsgHdr>, queued: seq<int>, prio: nat, k: nat) {
    && k <= |queued|
    && (forall j :: 0 <= j < |queued| ==> 0 <= queued[j] < |hdrs|)
    && (forall j :: 0 <= j < k ==> hdrs[queued[j]].prio >= prio)
    && (k < |queued| ==> prio > hdrs[queued[k]].prio)
  }

  /** The region after a send that links the first free slot in at place k. */
  ghost predicate Sent(hdrs: seq<MsgHdr>, data: seq<byte>, queued: seq<int>, f: int, k: nat, prio: nat, body: seq<byte>,
                       hdrs': seq<MsgHdr>, data': seq<byte>)
  {
    && k <= |queued| && 0 <= f && f + SIZEOF_MSG_HDR + |body| <= |data| == |hdrs|
    && var p := if k == 0 then HEAD else queued[k - 1];
       && 0 <= p < |hdrs|
       && hdrs' == Spliced(hdrs, p, f, MsgHdr(At(queued, k), |body|, prio))
       && data' == Stored(data, f + SIZEOF_MSG_HDR, body)
  }

  /** A send at the right place refines Insert. */
  lemma {:induction false} SendRefines(y: Layout, hdrs: seq<MsgHdr>, data: seq<byte>, free: int, queued: seq<int>, avail: seq<int>,
                                       k: nat, prio: nat, body: seq<byte>, hdrs': seq<MsgHdr>, data': seq<byte>)
    requires Sound(y, hdrs, data, free, queued, avail) && avail != [] && |body| <= y.msgsize
    requires Place(hdrs, queued, prio, k) && Sent(hdrs, data, queued, avail[0], k, prio, body, hdrs', data')
    ensures Sound(y, hdrs', data', hdrs[avail[0]].next, InsertAt(queued, k, avail[0]), avail[1..])
    ensures Messages(hdrs', data', InsertAt(queued, k, avail[0]), y.msgsize)
            == Insert(Messages(hdrs, data, queued, y.msgsize), Message(body, prio))
  {
    SendKeepsSound(y, hdrs, data, free, queued, avail, k, MsgHdr(At(queued, k), |body|, prio), body);
    InsertPlace(Messages(hdrs, data, queued, y.msgsize), Message(body, prio), k);
  }

  /** The two headers written by a receive: mqh_head and the freed slot's next field. */
  function Unlinked(hdrs: seq<MsgHdr>, f: int, free: int): (r: seq<MsgHdr>)
    requires HEAD < |hdrs| && 0 <= f < |hdrs|
    ensures |r| == |hdrs|
  {
    hdrs[HEAD := hdrs[HEAD].(next := hdrs[f].next)][f := hdrs[f].(next := free)]
  }

  lemma {:induction false} ReceiveKeepsSound(y: Layout, hdrs: seq<MsgHdr>, data: seq<byte>, free: int, queued: seq<int>, avail: seq<int>)
    requires Sound(y, hdrs, data, free, queued, avail) && queued != []
    ensures var f := queued[0];
            && Sound(y, Unlinked(hdrs, f, free), data, f, queued[1..], [f] + avail)
            && Messages(Unlinked(hdrs, f, free), data, queued[1..], y.msgsize)
               == Messages(hdrs, data, queued, y.msgsize)[1..]
  {
    var f := queued[0];
    PartitionApart(queued, avail, y.slots);
    SlotBounds(y, hdrs, data, free, queued, avail, f);
    assert HEAD !in y.slots;
    var h1 := hdrs[HEAD := hdrs[HEAD].(next := hdrs[f].next)];
    var h2 := Unlinked(hdrs, f, free);
    ChainTail(hdrs, hdrs[HEAD].next, queued);
    ChainUpdateElsewhere(hdrs, hdrs[f].next, queued[1..], HEAD, h1[HEAD]);
    ChainUpdateElsewhere(h1, hdrs[f].next, queued[1..], f, h2[f]);
    ChainUpdateElsewhere(hdrs, free, avail, HEAD, h1[HEAD]);
    ChainUpdateElsewhere(h1, free, avail, f, h2[f]);
    ChainCons(h2, free, avail, f);
    PartitionReceive(queued, avail, y.slots);
  }

  // ---------------------------------------------------------------- opening

  function SlotOffsets(start: int, stride: int, n: nat): (r: seq<int>)
    ensures |r| == n
  {
    seq(n, k requires 0 <= k < n => start + k * stride)
  }

  lemma {:induction false} StrideApart(stride: int, i: int, j: int)
    requires stride > 0 && i < j
    ensures i * stride + stride <= j * stride
    decreases j - i
  {
    assert j * stride == (j - 1) * stride + stride;
    if i < j - 1 {
      StrideApart(stride, i, j - 1);
    }
  }

  /** The slots of a new file are disjoint, in order, and fill it exactly. */
  lemma SlotsAreSpaced(start: int, stride: int, n: nat)
    requires stride > 0
    ensures Spaced(SlotOffsets(start, stride, n), start, stride, start + n * stride)
    ensures Distinct(SlotOffsets(start, stride, n))
  {
    var r := SlotOffsets(start, stride, n);
    forall i | 0 <= i < n
      ensures start <= r[i] && r[i] + stride <= start + n * stride
    {
      StrideApart(stride, -1, i);
      StrideApart(stride, i, n);
    }
    forall i, j | 0 <= i < j < n
      ensures r[i] + stride <= r[j]
    {
      StrideApart(stride, i, j);
    }
  }

  /** The bytes lo, ..., hi - 1 of the file. */
  datatype Extent = Extent(lo: int, hi: int)

  predicate Apart(a: Extent, b: Extent) {
    a.hi <= b.lo || b.hi <= a.lo
  }

  /** The attributes, mqh_head and the rest of the queue header, then the message header and the
      body of every slot. */
  function Extents(y: Layout): (r: seq<Extent>)
    ensures |r| == 3 + 2 * |y.slots|
  {
    [Extent(0, HEAD), Extent(HEAD, HEAD + SIZEOF_LONG), Extent(HEAD + SIZEOF_LONG, y.start)] +
    seq(2 * |y.slots|, k requires 0 <= k < 2 * |y.slots| =>
          if k % 2 == 0 then Extent(y.slots[k / 2], y.slots[k / 2] + SIZEOF_MSG_HDR)
          else Extent(y.slots[k / 2] + SIZEOF_MSG_HDR, y.slots[k / 2] + SIZEOF_MSG_HDR + y.msgsize))
  }

  /** No two of the things kept in the file share a byte, and all lie inside it: a message body
      never reaches a link, nor a link another field. */
  lemma {:induction false} ExtentsApart(y: Layout, hdrs: seq<MsgHdr>, data: seq<byte>, free: int, queued: seq<int>, avail: seq<int>)
    requires Sound(y, hdrs, data, free, queued, avail)
    ensures forall i :: 0 <= i < |Extents(y)| ==> 0 <= Extents(y)[i].lo <= Extents(y)[i].hi <= |data|
    ensures forall i, j :: 0 <= i < j < |Extents(y)| ==> Apart(Extents(y)[i], Extents(y)[j])
  {
    assert y.stride >= SIZEOF_MSG_HDR + y.msgsize;
    assert Spaced(y.slots, y.start, y.stride, |data|) && y.slots[0] + y.stride <= |data|;
    var r := Extents(y);
    forall i, j | 0 <= i < j < |r|
      ensures Apart(r[i], r[j])
    {
      if 3 <= i && (i - 3) / 2 < (j - 3) / 2 {
        assert y.slots[(i - 3) / 2] + y.stride <= y.slots[(j - 3) / 2];
      }
    }
  }

  /** A region with all slots on the free list and an empty message list. */
  lemma {:induction false} NewIsSound(y: Layout, hdrs: seq<MsgHdr>, data: seq<byte>)
    requires 0 < y.msgsize && 0 < y.maxmsg == |y.slots| && HEAD + SIZEOF_LONG <= y.start
    requires y.stride == SIZEOF_MSG_HDR + MsgSize(y.msgsize) && |hdrs| == |data| && HEAD < |hdrs|
    requires Spaced(y.slots, y.start, y.stride, |data|) && Distinct(y.slots)
    requires Chain(hdrs, y.start, y.slots) && hdrs[HEAD].next == 0
    ensures Sound(y, hdrs, data, y.start, [], y.slots)
    ensures Messages(hdrs, data, [], y.msgsize) == []
  {
  }

  /** One handle of the queue: mqi_magic and the O_NONBLOCK bit of mqi_flags. */
  datatype Handle = Handle(magic: int, nonblock: bool)

  class MessageQueue {
    const maxmsg: int
    const msgsize: int
    const start: int                  // sizeof(struct mymq_hdr)
    const stride: int
    ghost const slots: seq<int>
    const hdrs: array<MsgHdr>         // the region seen as message headers, by byte offset
    const data: array<byte>           // the region seen as bytes
    var free: int
    var curmsgs: int
    var nwait: int
    var pid: int
    var signals: bool
    ghost var queued: seq<int>        // the offsets on the message list
    ghost var avail: seq<int>         // the offsets on the free list
    ghost var contents: seq<Message>  // the messages on the message list

    ghost function Lay(): Layout {
      Layout(maxmsg, msgsize, start, stride, slots)
    }

    ghost predicate Valid()
      reads this, hdrs, data
    {
      && Sound(Lay(), hdrs[..], data[..], free, queued, avail)
      && curmsgs == |queued|
      && contents == Messages(hdrs[..], data[..], queued, msgsize)
    }

    /** The queue that the region stands for. */
    ghost function View(): Queue
      reads this
    {
      Queue(maxmsg, msgsize, contents, nwait,
            if pid == 0 then None else Some(Registration(pid, signals)))
    }

    /** mymq_open, the creator's part: lay out the file and thread all slots onto the free list. */
    constructor (start: int, maxmsg: int, msgsize: int)
      requires start >= HEAD + SIZEOF_LONG && maxmsg > 0 && msgsize > 0
      ensures Valid() && fresh(hdrs) && fresh(data)
      ensures View() == Queue(maxmsg, msgsize, [], 0, None)
      ensures hdrs.Length == start + maxmsg * (SIZEOF_MSG_HDR + MsgSize(msgsize))
    {
      var stride := SIZEOF_MSG_HDR + MsgSize(msgsize);
      SlotsAreSpaced(start, stride, maxmsg);
      this.maxmsg, this.msgsize, this.start, this.stride := maxmsg, msgsize, start, stride;
      slots := SlotOffsets(start, stride, maxmsg);
      hdrs := new MsgHdr[start + maxmsg * stride](_ => MsgHdr(0, 0, 0));
      data := new byte[start + maxmsg * stride](_ => 0);
      curmsgs, nwait, pid, signals := 0, 0, 0, false;
      free := start;
      queued, avail, contents := [], SlotOffsets(start, stride, maxmsg), [];
      new;
      ThreadFreeList();
      NewIsSound(Lay(), hdrs[..], data[..]);
    }

    method ThreadFreeList()
      requires 0 < maxmsg == |slots| && HEAD + SIZEOF_LONG <= start && stride > 0 && slots == SlotOffsets(start, stride, maxmsg)
      requires Spaced(slots, start, stride, hdrs.Length)
      requires forall o :: 0 <= o < hdrs.Length ==> hdrs[o] == MsgHdr(0, 0, 0)
      modifies hdrs
      ensures Chain(hdrs[..], start, slots)
      ensures hdrs[HEAD].next == 0
    {
      var index := start;
      for i := 0 to maxmsg - 1
        invariant index == slots[i]
        invariant forall k :: 0 <= k < i ==> hdrs[slots[k]].next == slots[k + 1]
        invariant hdrs[HEAD].next == 0
      {
        hdrs[index] := hdrs[index].(next := index + stride);
        index := index + stride;
      }
      hdrs[index] := hdrs[index].(next := 0);
    }

    /** Store the list heads kept outside the region's links, and follow with the ghost state. */
    method Account(ghost q: seq<int>, ghost a: seq<int>, ghost c: seq<Message>, free: int, n: int)
      requires Sound(Lay(), hdrs[..], data[..], free, q, a)
      requires n == |q| && c == Messages(hdrs[..], data[..], q, msgsize)
      modifies this
      ensures Valid()
      ensures View() == old(View()).(msgs := c)
    {
      this.free, curmsgs := free, n;
      queued, avail, contents := q, a, c;
    }

    /** Fill in the header and the bytes of slot f. */
    method FillSlot(f: int, prio: nat, body: seq<byte>)
      requires 0 <= f < hdrs.Length && f + SIZEOF_MSG_HDR + |body| <= data.Length
      modifies hdrs, data
      ensures hdrs[..] == old(hdrs[..])[f := MsgHdr(old(hdrs[f]).next, |body|, prio)]
      ensures data[..] == Stored(old(data[..]), f + SIZEOF_MSG_HDR, body)
    {
      hdrs[f] := hdrs[f].(prio := prio);
      hdrs[f] := hdrs[f].(len := |body|);
      var to := f + SIZEOF_MSG_HDR;
      for i := 0 to |body|
        invariant forall j :: 0 <= j < data.Length ==>
                    data[j] == if to <= j < to + i then body[j - to] else old(data[j])
        invariant hdrs[..] == old(hdrs[..])[f := MsgHdr(old(hdrs[f]).next, |body|, prio)]
      {
        data[to + i] := body[i];
      }
    }

    /** Walk the message list to the first message of a lower priority.  p is the offset of the
        header whose next field leads to index; it starts as the offset of mqh_head itself. */
    method FindPlace(prio: nat) returns (p: int, index: int, ghost k: nat)
      requires HEAD < hdrs.Length && Chain(hdrs[..], hdrs[HEAD].next, queued)
      ensures Place(hdrs[..], queued, prio, k) && index == At(queued, k)
      ensures p == if k == 0 then HEAD else queued[k - 1]
      ensures 0 <= p < hdrs.Length && hdrs[p].next == index
      ensures index != 0 ==> 0 < index < hdrs.Length && prio > hdrs[index].prio
    {
      index := hdrs[HEAD].next;
      p, k := HEAD, 0;
      while index != 0
        invariant k <= |queued| && index == At(queued, k)
        invariant p == if k == 0 then HEAD else queued[k - 1]
        invariant 0 <= p < hdrs.Length && hdrs[p].next == index
        invariant forall j :: 0 <= j < k ==> hdrs[queued[j]].prio >= prio
        decreases |queued| - k
      {
        if prio > hdrs[index].prio {
          break;
        }
        assert Linked(hdrs[..], queued, k);
        index, p, k := hdrs[index].next, index, k + 1;
      }
    }

    /** The memory effect of the second half of mymq_send. */
    method WriteMessage(f: int, body: seq<byte>, prio: nat) returns (nextFree: int, ghost k: nat)
      requires HEAD < f < hdrs.Length == data.Length && f + SIZEOF_MSG_HDR + |body| <= data.Length
      requires Chain(hdrs[..], hdrs[HEAD].next, queued) && f !in queued
      modifies hdrs, data
      ensures Place(old(hdrs[..]), queued, prio, k)
      ensures Sent(old(hdrs[..]), old(data[..]), queued, f, k, prio, body, hdrs[..], data[..])
      ensures nextFree == old(hdrs[f]).next
    {
      FillSlot(f, prio, body);
      nextFree := hdrs[f].next;
      ChainUpdateElsewhere(old(hdrs[..]), old(hdrs[HEAD]).next, queued, f, hdrs[f]);
      var p, index;
      p, index, k := FindPlace(prio);
      hdrs[f] := hdrs[f].(next := index);
      hdrs[p] := hdrs[p].(next := f);
    }

    /** The second half of mymq_send, with room in the queue. */
    method Enqueue(body: seq<byte>, prio: nat) returns (signal: bool)
      requires Valid() && |body| <= msgsize && curmsgs < maxmsg
      modifies this, hdrs, data
      ensures Valid()
      ensures View() == old(View()).(msgs := Insert(old(contents), Message(body, prio)))
      ensures signal == (old(curmsgs) == 0)
    {
      FirstFree(Lay(), hdrs[..], data[..], free, queued, avail);
      var f := free;
      if f == 0 {
        assert false;  // err_dump
      }
      ghost var h0, d0 := hdrs[..], data[..];
      signal := curmsgs == 0;
      var nextFree;
      ghost var k;
      nextFree, k := WriteMessage(f, body, prio);
      SendRefines(Lay(), h0, d0, f, queued, avail, k, prio, body, hdrs[..], data[..]);
      Account(InsertAt(queued, k, f), avail[1..], Insert(contents, Message(body, prio)), nextFree, curmsgs + 1);
    }

    /** mymq_send from the lock to the unlock or to pthread_cond_wait. */
    method Send(h: Handle, body: seq<byte>, prio: nat)
      returns (outcome: Outcome, signal: bool, notice: Option<Registration>)
      requires Valid()
      modifies this, hdrs, data
      ensures Valid()
      ensures Sending(View(), outcome, signal, notice) ==
              if h.magic != MQI_MAGIC then Sending(old(View()), Failed(EBADF), false, None)
              else QueueSpec.Send(old(View()), h.nonblock, Message(body, prio))
    {
      signal, notice := false, None;
      if h.magic != MQI_MAGIC {
        return Failed(EBADF), false, None;
      }
      if |body| > msgsize {
        return Failed(EMSGSIZE), false, None;
      }
      if curmsgs == 0 {
        if pid != 0 && nwait == 0 {
          if signals {
            notice := Some(Registration(pid, signals));
          }
          pid := 0;
        }
      } else if curmsgs >= maxmsg {
        return if h.nonblock then Failed(EAGAIN) else Blocks, false, None;
      }
      outcome := Done;
      signal := Enqueue(body, prio);
    }

    /** mymq_send back from pthread_cond_wait. */
    method ResumeSend(body: seq<byte>, prio: nat) returns (outcome: Outcome, signal: bool)
      requires Valid() && |body| <= msgsize
      modifies this, hdrs, data
      ensures Valid()
      ensures Sending(View(), outcome, signal, None) == QueueSpec.ResumeSend(old(View()), Message(body, prio))
    {
      if curmsgs >= maxmsg {
        return Blocks, false;
      }
      outcome := Done;
      signal := Enqueue(body, prio);
    }

    /** The memory effect of the second half of mymq_receive. */
    method ReadMessage() returns (f: int, m: Message)
      requires Valid() && queued != []
      modifies hdrs
      ensures f == queued[0] && m == contents[0]
      ensures hdrs[..] == Unlinked(old(hdrs[..]), f, free)
    {
      f := hdrs[HEAD].next;
      if f == 0 {
        assert false;  // err_dump
      }
      SlotBounds(Lay(), hdrs[..], data[..], free, queued, avail, f);
      hdrs[HEAD] := hdrs[HEAD].(next := hdrs[f].next);
      var from := f + SIZEOF_MSG_HDR;
      m := Message(data[from..from + hdrs[f].len], hdrs[f].prio);
      hdrs[f] := hdrs[f].(next := free);
    }

    /** The second half of mymq_receive, with a message in the queue. */
    method Dequeue() returns (m: Message, signal: bool)
      requires Valid() && curmsgs > 0
      modifies this, hdrs
      ensures Valid()
      ensures m == old(contents)[0]
      ensures View() == old(View()).(msgs := old(contents)[1..])
      ensures signal == (old(curmsgs) == maxmsg)
    {
      ghost var h0 := hdrs[..];
      ReceiveKeepsSound(Lay(), h0, data[..], free, queued, avail);
      var f;
      f, m := ReadMessage();
      signal := curmsgs == maxmsg;
      Account(queued[1..], [f] + avail, contents[1..], f, curmsgs - 1);
    }

    /** mymq_receive from the lock to the unlock or to pthread_cond_wait. */
    method Receive(h: Handle, maxlen: int)
      returns (outcome: Outcome, signal: bool, message: Option<Message>)
      requires Valid()
      modifies this, hdrs
      ensures Valid()
      ensures Receiving(View(), outcome, signal, message) ==
              if h.magic != MQI_MAGIC then Receiving(old(View()), Failed(EBADF), false, None)
              else QueueSpec.Receive(old(View()), h.nonblock, maxlen)
    {
      if h.magic != MQI_MAGIC {
        return Failed(EBADF), false, None;
      }
      if maxlen < msgsize {
        return Failed(EMSGSIZE), false, None;
      }
      if curmsgs == 0 {
        if h.nonblock {
          return Failed(EAGAIN), false, None;
        }
        nwait := nwait + 1;
        return Blocks, false, None;
      }
      var m;
      m, signal := Dequeue();
      outcome, message := Done, Some(m);
    }

    /** mymq_receive back from pthread_cond_wait. */
    method ResumeReceive() returns (outcome: Outcome, signal: bool, message: Option<Message>)
      requires Valid()
      modifies this, hdrs
      ensures Valid()
      ensures Receiving(View(), outcome, signal, message) == QueueSpec.ResumeReceive(old(View()))
    {
      if curmsgs == 0 {
        return Blocks, false, None;
      }
      nwait := nwait - 1;
      var m;
      m, signal := Dequeue();
      outcome, message := Done, Some(m);
    }

    /** mymq_notify by process self; alive: kill(mqh_pid, 0) finds the registered process. */
    method Notify(h: Handle, self: int, request: Option<bool>, alive: bool) returns (outcome: Outcome)
      requires Valid() && self != 0
      modifies this
      ensures Valid()
      ensures (View(), outcome) ==
              if h.magic != MQI_MAGIC then (old(View()), Failed(EBADF))
              else QueueSpec.Notify(old(View()), self, request, alive)
    {
      if h.magic != MQI_MAGIC {
        return Failed(EBADF);
      }
      if request.None? {
        if pid == self {
          pid := 0;
        }
      } else {
        if pid != 0 && alive {
          return Failed(EBUSY);
        }
        pid, signals := self, request.value;
      }
      outcome := Done;
    }
  }

  /** The attributes mymq_open gives the creator: the defaults for a null pointer, EINVAL for a
      size that is not positive. */
  method Create(start: int, attr: Option<(int, int)>) returns (q: Option<MessageQueue>)
    requires start >= HEAD + SIZEOF_LONG
    ensures q.None? <==> attr.Some? && (attr.value.0 <= 0 || attr.value.1 <= 0)
    ensures q.Some? ==> fresh(q.value) && q.value.Valid()
    ensures q.Some? && attr.None? ==> q.value.View() == Queue(128, 1024, [], 0, None)
    ensures q.Some? && attr.Some? ==> q.value.View() == Queue(attr.value.0, attr.value.1, [], 0, None)
  {
    var maxmsg, msgsize := 128, 1024;
    if attr.Some? {
      if attr.value.0 <= 0 || attr.value.1 <= 0 {
        return None;
      }
      maxmsg, msgsize := attr.value.0, attr.value.1;
    }
    var made := new MessageQueue(start, maxmsg, msgsize);
    q := Some(made);
  }
}
