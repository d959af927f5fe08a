/**
 Descriptors as the library functions see them: read() and write() that transfer any part of
 what is asked for, are interrupted, or fail, in an order fixed by a plan.
 */
module Streams {
  import opened Common

  /** What the next read() does: deliver about n bytes, be interrupted, or fail. */
  datatype Event = Deliver(n: nat) | Interrupted | Broken

  datatype ReadResult = Bytes(bytes: seq<byte>) | Eintr | Error

  /** A descriptor: the bytes still to come and how read() will split them.  Past the end of the
      plan read() delivers as much as it can. */
  class Descriptor {
    var rest: seq<byte>
    var plan: seq<Event>

    constructor (bytes: seq<byte>, plan: seq<Event>)
      ensures rest == bytes && this.plan == plan
    {
      rest, this.plan := bytes, plan;
    }

    /** read() will be interrupted at most. */
    ghost predicate Unbroken()
      reads this
    {
      Broken !in plan
    }

    method Read(max: nat) returns (r: ReadResult)
      requires max > 0
      modifies this
      ensures |plan| <= old(|plan|)
      ensures r.Bytes? ==>
                && |r.bytes| <= max && (r.bytes == [] <==> old(rest) == [])
                && old(rest) == r.bytes + rest
      ensures !r.Bytes? ==> rest == old(rest) && |plan| < old(|plan|)
      ensures r.Error? ==> old(Broken in plan)
      ensures old(Unbroken()) ==> Unbroken() && !r.Error?
      ensures forall e :: e in plan ==> e in old(plan)
    {
      var n := max;
      if plan != [] {
        var e := plan[0];
        plan := plan[1..];
        match e
        case Interrupted => return Eintr;
        case Broken => return Error;
        case Deliver(k) => n := if k == 0 then 1 else if k < max then k else max;
      }
      if n > |rest| {
        n := |rest|;
      }
      r := Bytes(rest[..n]);
      rest := rest[n..];
    }
  }

  /** What the next write() does.  Stuck: it returns 0, with EINTR left in errno or not. */
  datatype WriteEvent = Accept(n: nat) | WriteInterrupted | Stuck(eintr: bool) | WriteBroken

  /** The errno test of writen after a result that is not positive. */
  datatype WriteResult = Written(n: nat) | Again | Fails

  class Sink {
    var written: seq<byte>
    var plan: seq<WriteEvent>

    constructor (plan: seq<WriteEvent>)
      ensures written == [] && this.plan == plan
    {
      written, this.plan := [], plan;
    }

    method Write(bytes: seq<byte>) returns (r: WriteResult)
      requires bytes != []
      modifies this
      ensures r.Written? ==> 0 < r.n <= |bytes| && written == old(written) + bytes[..r.n]
      ensures !r.Written? ==> written == old(written) && |plan| < old(|plan|)
      ensures |plan| <= old(|plan|) && forall e :: e in plan ==> e in old(plan)
      ensures r.Fails? ==> old(WriteBroken in plan || Stuck(false) in plan)
    {
      var n := |bytes|;
      if plan != [] {
        var e := plan[0];
        plan := plan[1..];
        match e
        case WriteInterrupted => return Again;
        case WriteBroken => return Fails;
        case Stuck(eintr) => return if eintr then Again else Fails;
        case Accept(k) => n := if k == 0 then 1 else if k < |bytes| then k else |bytes|;
      }
      written := written + bytes[..n];
      r := Written(n);
    }
  }
}
