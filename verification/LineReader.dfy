/**
 Buffered line reading, lib/readline.c: my_read hands out one byte at a time from a static
 buffer that read() refills in pieces of any size, and readline stops after a newline, at the
 end of the file, or when the caller's buffer is full.
 */
module LineReader {
  import opened Common
  import opened Streams

  const NEWLINE: byte := 10

  // ---------------------------------------------------------------- byte-at-a-time reading

  /** The next line of a stream, at most limit bytes of it. */
  function Line(stream: seq<byte>, limit: nat): seq<byte>
    decreases limit
  {
    if limit == 0 || stream == [] then []
    else if stream[0] == NEWLINE then [NEWLINE]
    else [stream[0]] + Line(stream[1..], limit - 1)
  }

  /** All the lines of a stream. */
  function Lines(stream: seq<byte>, limit: nat): seq<seq<byte>>
    requires limit > 0
    decreases |stream|
  {
    if stream == [] then []
    else
      LineIsPrefix(stream, limit);
      [Line(stream, limit)] + Lines(stream[|Line(stream, limit)|..], limit)
  }

  function Concat(pieces: seq<seq<byte>>): seq<byte> {
    if pieces == [] then [] else pieces[0] + Concat(pieces[1..])
  }

  predicate EndsLine(bytes: seq<byte>) {
    bytes != [] && bytes[|bytes| - 1] == NEWLINE
  }

  lemma {:induction false} LineIsPrefix(stream: seq<byte>, limit: nat)
    ensures Line(stream, limit) <= stream && |Line(stream, limit)| <= limit
    ensures limit > 0 && stream != [] ==> Line(stream, limit) != []
    decreases limit
  {
    if limit > 0 && stream != [] && stream[0] != NEWLINE {
      LineIsPrefix(stream[1..], limit - 1);
    }
  }

  /** A line stops at its first newline, and otherwise only at the limit or the end. */
  lemma {:induction false} LineStops(stream: seq<byte>, limit: nat)
    ensures var r := Line(stream, limit);
            && (forall k :: 0 <= k < |r| - 1 ==> r[k] != NEWLINE)
            && (EndsLine(r) || |r| == limit || r == stream)
    decreases limit
  {
    if limit > 0 && stream != [] && stream[0] != NEWLINE {
      LineStops(stream[1..], limit - 1);
    }
  }

  /** One more line, and what the stream is without it. */
  lemma {:induction false} NextLine(stream: seq<byte>, limit: nat, line: seq<byte>, rest: seq<byte>)
    requires limit > 0 && stream == line + rest && line == Line(stream, limit) && stream != []
    ensures Lines(stream, limit) == [line] + Lines(rest, limit)
    ensures |rest| < |stream|
  {
    LineIsPrefix(stream, limit);
    assert stream[|line|..] == rest;
  }

  /** The lines of a stream concatenate to it; each is at most limit bytes, holds a newline only
      as its last byte, and is short of both only at the end of the stream. */
  lemma {:induction false} LinesPartition(stream: seq<byte>, limit: nat)
    requires limit > 0
    ensures Concat(Lines(stream, limit)) == stream
    ensures forall i :: 0 <= i < |Lines(stream, limit)| ==>
              var r := Lines(stream, limit)[i];
              && 0 < |r| <= limit
              && (forall k :: 0 <= k < |r| - 1 ==> r[k] != NEWLINE)
              && (EndsLine(r) || |r| == limit || i == |Lines(stream, limit)| - 1)
    decreases |stream|
  {
    if stream != [] {
      var r := Line(stream, limit);
      LineIsPrefix(stream, limit);
      LineStops(stream, limit);
      NextLine(stream, limit, r, stream[|r|..]);
      LinesPartition(stream[|r|..], limit);
    }
  }

  /** The first k bytes of the stream hold no newline: a line is under way. */
  ghost predicate Underway(stream: seq<byte>, k: nat) {
    k <= |stream| && forall j :: 0 <= j < k ==> stream[j] != NEWLINE
  }

  /** readline has stored k bytes of the stream and returns n, with room for limit bytes: it was
      stopped by a newline, or else by the limit or the end of the stream. */
  ghost predicate Stopped(stream: seq<byte>, limit: nat, n: int, k: nat) {
    if n == k then 0 < k <= limit && Underway(stream, k - 1) && k <= |stream| && stream[k - 1] == NEWLINE
    else Underway(stream, k) && k <= limit && (k == |stream| || k == limit) && n == k + 1
  }

  /** What readline has stored when it stops is the next line. */
  lemma {:induction false} StoppedIsLine(stream: seq<byte>, limit: nat, n: int, k: nat)
    requires Stopped(stream, limit, n, k)
    ensures k <= |stream| && Line(stream, limit) == stream[..k]
    ensures n == if EndsLine(stream[..k]) then k else k + 1
  {
    if n == k {
      LineEnds(stream, limit, k - 1);
    } else {
      LineIsCut(stream, limit, k);
    }
  }

  /** A line under way ends with the first newline. */
  lemma {:induction false} LineEnds(stream: seq<byte>, limit: nat, k: nat)
    requires Underway(stream, k) && k < limit && k < |stream| && stream[k] == NEWLINE
    ensures Line(stream, limit) == stream[..k + 1]
  {
    if k > 0 {
      LineEnds(stream[1..], limit - 1, k - 1);
      assert stream[..k + 1] == [stream[0]] + stream[1..][..k];
    }
  }

  /** A line under way is whole at the end of the stream and at the limit. */
  lemma {:induction false} LineIsCut(stream: seq<byte>, limit: nat, k: nat)
    requires Underway(stream, k) && k <= limit && (k == |stream| || k == limit)
    ensures Line(stream, limit) == stream[..k] && !EndsLine(stream[..k])
  {
    if k > 0 {
      LineIsCut(stream[1..], limit - 1, k - 1);
      assert stream[..k] == [stream[0]] + stream[1..][..k - 1];
    }
  }

  /** What has been stored and what is pending make up the stream. */
  lemma {:induction false} StoredAndPending(stream: seq<byte>, v: seq<byte>, k: nat, rest: seq<byte>)
    requires k <= |stream| && k <= |v| && rest == stream[k..] && forall j :: 0 <= j < k ==> v[j] == stream[j]
    ensures v[..k] == stream[..k] && stream == v[..k] + rest
  {
  }

  lemma {:induction false} TakenOff(stream: seq<byte>, k: nat, c: byte, rest: seq<byte>)
    requires k <= |stream| && stream[k..] == [c] + rest
    ensures k < |stream| && stream[k] == c && stream[k + 1..] == rest
  {
    assert stream[k..][0] == c && stream[k..][1..] == rest;
  }

  lemma SliceHead(s: seq<byte>, lo: nat, hi: nat, rest: seq<byte>)
    requires lo < hi <= |s|
    ensures s[lo..hi] + rest == [s[lo]] + (s[lo + 1..hi] + rest)
    ensures lo + 1 == hi ==> s[lo + 1..hi] + rest == rest
  {
  }

  // ---------------------------------------------------------------- the buffered reader

  class Reader {
    const fd: Descriptor
    const buf: array<byte>      // read_buf
    var cnt: int                // read_cnt
    var ptr: int                // read_ptr - read_buf

    ghost predicate Valid()
      reads this
    {
      0 < buf.Length && (cnt > 0 ==> 0 <= ptr && ptr + cnt <= buf.Length)
    }

    /** The bytes not handed out yet: the rest of the buffer and the rest of the file. */
    ghost function Pending(): seq<byte>
      requires Valid()
      reads this, buf, fd
    {
      if cnt > 0 then buf[ptr..ptr + cnt] + fd.rest else fd.rest
    }

    constructor (fd: Descriptor, size: nat)
      requires size > 0
      ensures Valid() && this.fd == fd && fresh(buf)
      ensures Pending() == fd.rest
    {
      this.fd := fd;
      buf := new byte[size](_ => 0);
      cnt, ptr := 0, 0;
    }

    method Store(bytes: seq<byte>)
      requires |bytes| <= buf.Length
      modifies buf
      ensures buf[0..|bytes|] == bytes
    {
      for i := 0 to |bytes|
        invariant forall k :: 0 <= k < i ==> buf[k] == bytes[k]
      {
        buf[i] := bytes[i];
      }
    }

    /** Refill the buffer: the read() loop of my_read. */
    method Fill() returns (rc: int)
      requires Valid() && cnt <= 0
      modifies this, buf, fd
      ensures Valid() && Pending() == old(Pending())
      ensures rc == -1 || rc == 0 || rc == 1
      ensures rc == 1 ==> cnt > 0
      ensures rc != 1 ==> cnt <= 0
      ensures rc == 0 <==> rc != -1 && Pending() == []
      ensures old(fd.Unbroken()) ==> fd.Unbroken() && rc != -1
    {
      ghost var stream := fd.rest;
      while true
        invariant cnt <= 0 && fd.rest == stream
        invariant old(fd.Unbroken()) ==> fd.Unbroken()
        decreases |fd.plan|
      {
        var r := fd.Read(buf.Length);
        match r
        case Eintr => cnt := -1;
        case Error => cnt := -1; return -1;
        case Bytes(bs) =>
          Store(bs);
          cnt := |bs|;
          if cnt == 0 {
            return 0;
          }
          ptr := 0;
          return 1;
      }
    }

    /** Hand out the next byte of the buffer. */
    method Take() returns (c: byte)
      requires Valid() && cnt > 0
      modifies this
      ensures Valid() && old(Pending()) == [c] + Pending()
    {
      SliceHead(buf[..], ptr, ptr + cnt, fd.rest);
      cnt := cnt - 1;
      c := buf[ptr];
      ptr := ptr + 1;
    }

    /** my_read */
    method MyRead() returns (rc: int, c: byte)
      requires Valid()
      modifies this, buf, fd
      ensures Valid()
      ensures rc == 1 || rc == 0 || rc == -1
      ensures rc == 1 ==> old(Pending()) == [c] + Pending()
      ensures rc == 0 ==> old(Pending()) == [] && Pending() == []
      ensures rc == -1 ==> Pending() == old(Pending())
      ensures old(fd.Unbroken()) ==> fd.Unbroken() && rc != -1
    {
      c := 0;
      if cnt <= 0 {
        rc := Fill();
        if rc != 1 {
          return;
        }
      }
      c := Take();
      rc := 1;
    }

    /** my_read, and the store of its byte behind the k bytes in vptr. */
    method Append(vptr: array<byte>, k: nat, ghost stream: seq<byte>) returns (rc: int, c: byte)
      requires Valid() && k < vptr.Length && vptr != buf && k <= |stream| && Pending() == stream[k..]
      modifies this, buf, fd, vptr
      ensures Valid() && (rc == 1 || rc == 0 || rc == -1)
      ensures forall j :: 0 <= j < k ==> vptr[j] == old(vptr[j])
      ensures rc == 1 ==> k < |stream| && c == vptr[k] == stream[k] && Pending() == stream[k + 1..]
      ensures rc != 1 ==> Pending() == stream[k..]
      ensures rc == 0 ==> k == |stream|
      ensures old(fd.Unbroken()) ==> fd.Unbroken() && rc != -1
    {
      rc, c := MyRead();
      if rc == 1 {
        TakenOff(stream, k, c, Pending());
        vptr[k] := c;
      }
    }

    /** The loop of readline: it leaves k bytes of the stream in vptr. */
    method ReadBytes(vptr: array<byte>, maxlen: nat) returns (n: int, k: nat)
      requires Valid() && 1 <= maxlen <= vptr.Length && vptr != buf
      modifies this, buf, fd, vptr
      ensures Valid() && k < maxlen && k <= |old(Pending())| && Pending() == old(Pending())[k..]
      ensures forall j :: 0 <= j < k ==> vptr[j] == old(Pending())[j]
      ensures n > 0 ==> Stopped(old(Pending()), maxlen - 1, n, k)
      ensures n == 0 <==> n != -1 && maxlen >= 2 && old(Pending()) == []
      ensures n < 0 ==> n == -1 && Underway(old(Pending()), k)
      ensures old(fd.Unbroken()) ==> fd.Unbroken() && n != -1
    {
      ghost var stream := Pending();
      n, k := 1, 0;
      while n < maxlen
        invariant Valid() && k == n - 1 && n <= maxlen
        invariant Underway(stream, k) && Pending() == stream[k..]
        invariant forall j :: 0 <= j < k ==> vptr[j] == stream[j]
        invariant old(fd.Unbroken()) ==> fd.Unbroken()
      {
        var rc, c := Append(vptr, k, stream);
        if rc == 0 {
          return if n == 1 then 0 else n, k;
        }
        if rc == -1 {
          return -1, k;
        }
        k := k + 1;
        if c == NEWLINE {
          return n, k;
        }
        n := n + 1;
      }
    }

    /** readline.  k is the number of bytes stored in front of the terminating zero. */
    method ReadLine(vptr: array<byte>, maxlen: nat) returns (n: int, k: nat)
      requires Valid() && 1 <= maxlen <= vptr.Length && vptr != buf
      modifies this, buf, fd, vptr
      ensures Valid() && k < maxlen && old(Pending()) == vptr[..k] + Pending()
      ensures n >= 0 ==> vptr[..k] == Line(old(Pending()), maxlen - 1)
      ensures n == 0 <==> n != -1 && maxlen >= 2 && old(Pending()) == []
      ensures n > 0 ==> vptr[k] == 0 && n == if EndsLine(vptr[..k]) then k else k + 1
      ensures n < 0 ==> n == -1 && NEWLINE !in vptr[..k]
      ensures old(fd.Unbroken()) ==> fd.Unbroken() && n != -1
    {
      ghost var stream := Pending();
      n, k := ReadBytes(vptr, maxlen);
      if n > 0 {
        StoppedIsLine(stream, maxlen - 1, n, k);
        vptr[k] := 0;
      }
      StoredAndPending(stream, vptr[..], k, Pending());
      assert vptr[..][..k] == vptr[..k];
    }

    /** readline, for a caller that keeps the lines. */
    method NextOf(vptr: array<byte>, maxlen: nat) returns (n: int, line: seq<byte>)
      requires Valid() && 2 <= maxlen <= vptr.Length && vptr != buf
      modifies this, buf, fd, vptr
      ensures Valid() && (n > 0 || n == 0 || n == -1)
      ensures n > 0 ==> Lines(old(Pending()), maxlen - 1) == [line] + Lines(Pending(), maxlen - 1)
      ensures n > 0 ==> |Pending()| < |old(Pending())|
      ensures n == 0 ==> old(Pending()) == [] && Pending() == []
      ensures old(fd.Unbroken()) ==> fd.Unbroken() && n != -1
    {
      ghost var before := Pending();
      var k;
      n, k := ReadLine(vptr, maxlen);
      line := vptr[..k];
      if n > 0 {
        NextLine(before, maxlen - 1, line, Pending());
      }
    }

    /** A caller's loop over the lines, as in fifocliserv/mainserver.c: read until readline returns
        zero or an error. */
    method ReadAll(vptr: array<byte>, maxlen: nat) returns (lines: seq<seq<byte>>, last: int)
      requires Valid() && 2 <= maxlen <= vptr.Length && vptr != buf
      modifies this, buf, fd, vptr
      ensures Valid() && (last == 0 || last == -1)
      ensures last == 0 ==> lines == Lines(old(Pending()), maxlen - 1)
      ensures last == -1 ==> lines <= Lines(old(Pending()), maxlen - 1)
      ensures old(fd.Unbroken()) ==> last == 0
    {
      lines, last := [], 1;
      ghost var all, left := Lines(Pending(), maxlen - 1), Lines(Pending(), maxlen - 1);
      while last > 0
        invariant Valid() && (last > 0 || last == 0 || last == -1)
        invariant all == lines + left && (last >= 0 ==> left == Lines(Pending(), maxlen - 1))
        invariant last == 0 ==> Pending() == []
        invariant old(fd.Unbroken()) ==> fd.Unbroken() && last != -1
        decreases last > 0, |Pending()|
      {
        var line;
        last, line := NextOf(vptr, maxlen);
        if last > 0 {
          left := left[1..];
          lines := lines + [line];
        }
      }
    }
  }

  /** The count that readline returns is one more than the bytes it stores when a line ends
      without a newline: the single byte "a" gives 2. */
  method CountsOneTooMany() returns (n: int, k: nat)
    ensures n == 2 && k == 1
  {
    var fd := new Descriptor([97], []);
    var reader := new Reader(fd, 1);
    var vptr := new byte[9];
    assert Line([97], 8) == [97] + Line([97][1..], 7);
    n, k := reader.ReadLine(vptr, 9);
  }
}
