/**
 lib/writen.c and lib/readn.c: transfer exactly n bytes over a descriptor that may take or give
 them in pieces.
 */
module Transfer {
  import opened Common
  import opened Streams

  /** writen */
  method WriteN(fd: Sink, bytes: seq<byte>) returns (r: int)
    modifies fd
    ensures r == |bytes| || r == -1
    ensures r == |bytes| ==> fd.written == old(fd.written) + bytes
    ensures r == -1 ==> exists k :: 0 <= k < |bytes| && fd.written == old(fd.written) + bytes[..k]
    ensures r == -1 ==> old(WriteBroken in fd.plan || Stuck(false) in fd.plan)
  {
    var done := 0;
    while done < |bytes|
      invariant 0 <= done <= |bytes|
      invariant fd.written == old(fd.written) + bytes[..done]
      invariant forall e :: e in fd.plan ==> e in old(fd.plan)
      decreases |bytes| - done, |fd.plan|
    {
      var w := fd.Write(bytes[done..]);
      match w
      case Fails => return -1;
      case Again =>
      case Written(k) =>
        assert bytes[..done + k] == bytes[..done] + bytes[done..][..k];
        done := done + k;
    }
    return |bytes|;
  }

  /** readn into vptr[0..n) */
  method ReadN(fd: Descriptor, vptr: array<byte>, n: nat) returns (r: int)
    requires n <= vptr.Length
    modifies fd, vptr
    ensures -1 <= r <= n
    ensures r >= 0 ==> old(fd.rest) == vptr[..r] + fd.rest
    ensures 0 <= r < n ==> fd.rest == []
    ensures r == -1 ==> old(Broken in fd.plan) && |fd.rest| <= |old(fd.rest)| && fd.rest == old(fd.rest)[|old(fd.rest)| - |fd.rest|..]
  {
    var done := 0;
    while done < n
      invariant 0 <= done <= n
      invariant old(fd.rest) == vptr[..done] + fd.rest
      invariant forall e :: e in fd.plan ==> e in old(fd.plan)
      decreases n - done, |fd.plan|
    {
      var x := fd.Read(n - done);
      match x
      case Error => return -1;
      case Eintr =>
      case Bytes(bs) =>
        if bs == [] {
          break;
        }
        Place(vptr, done, bs);
        done := done + |bs|;
    }
    return done;
  }

  /** The bytes that read() leaves at ptr. */
  method Place(vptr: array<byte>, at: nat, bytes: seq<byte>)
    requires at + |bytes| <= vptr.Length
    modifies vptr
    ensures vptr[..at + |bytes|] == old(vptr[..at]) + bytes
  {
    for i := 0 to |bytes|
      invariant forall k :: 0 <= k < at ==> vptr[k] == old(vptr[k])
      invariant forall k :: 0 <= k < i ==> vptr[at + k] == bytes[k]
    {
      vptr[at + i] := bytes[i];
    }
  }

  /** What writen sends, readn delivers: the same bytes in the same order, however the transfers
      are split and interrupted, whenever neither end fails. */
  method SendAndReceive(bytes: seq<byte>, wplan: seq<WriteEvent>, rplan: seq<Event>) returns (r: Option<seq<byte>>)
    ensures r.Some? ==> r.value == bytes
    ensures WriteBroken !in wplan && Stuck(false) !in wplan && Broken !in rplan ==> r.Some?
  {
    var sink := new Sink(wplan);
    var w := WriteN(sink, bytes);
    if w == -1 {
      return None;
    }
    var fd := new Descriptor(sink.written, rplan);
    var vptr := new byte[|bytes|];
    var n := ReadN(fd, vptr, |bytes|);
    if n == -1 {
      return None;
    }
    assert sink.written == bytes && |bytes| == n + |fd.rest|;
    assert vptr[..n] == bytes;
    return Some(vptr[..n]);
  }
}
