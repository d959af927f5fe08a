/**
 The Internet checksum of ping/myping.c (RFC 1071): add up 16-bit words in a 32-bit unsigned
 int, fold the carries back twice, and complement.  The words are those of a little-endian
 machine.
 */
module Checksum {
  import opened Common

  const BASE := 0x1_0000
  const ONES := 0xFFFF

  type word = w: int | 0 <= w < 65536

  function Pair(low: byte, high: byte): word {
    low as int + 256 * (high as int)
  }

  /** The 16-bit words of the packet; an odd last byte is the low byte of a word of its own. */
  function Words(data: seq<byte>): seq<word> {
    if data == [] then []
    else if |data| == 1 then [data[0]]
    else [Pair(data[0], data[1])] + Words(data[2..])
  }

  function RawSum(ws: seq<word>): nat {
    if ws == [] then 0 else ws[0] + RawSum(ws[1..])
  }

  /** One's complement addition: the carry out of the top bit is added back at the bottom. */
  function EndAround(a: word, b: word): word {
    if a + b >= BASE then a + b - ONES else a + b
  }

  /** The one's complement sum of section 1 of RFC 1071, carry by carry. */
  function OnesSum(ws: seq<word>): word {
    if ws == [] then 0 else EndAround(ws[0], OnesSum(ws[1..]))
  }

  /** The two folding statements and the truncation to 16 bits. */
  function Fold(r: nat): word {
    var f := r % BASE + r / BASE;
    (f + f / BASE) % BASE
  }

  /** What the program computes from the words. */
  function Sum16(ws: seq<word>): word {
    ONES - Fold(RawSum(ws) % UINT)
  }

  // ---------------------------------------------------------------- the loop

  /** An unsigned int that has wrapped around some number of times. */
  lemma {:induction false} WrapIs(x: nat, wraps: nat, total: nat)
    requires x < UINT && x + UINT * wraps == total
    ensures total % UINT == x
  {
  }

  /** Adding a word wraps around once or not at all. */
  function AddWord(x: nat, w: word): (r: nat)
    requires x < UINT
    ensures r < UINT && (r == x + w || r == x + w - UINT)
  {
    (x + w) % UINT
  }

  /** One round of the loop takes one word off the packet. */
  lemma {:induction false} TakePair(data: seq<byte>, at: nat)
    requires at + 1 < |data|
    ensures RawSum(Words(data[at..])) == Pair(data[at], data[at + 1]) + RawSum(Words(data[at + 2..]))
  {
    assert data[at..][2..] == data[at + 2..];
  }

  lemma {:induction false} TakeLast(data: seq<byte>, at: nat)
    requires at <= |data| <= at + 1
    ensures RawSum(Words(data[at..])) == if at == |data| then 0 else data[at]
  {
  }

  /** The loop of checksum() and the odd byte behind it. */
  method AddUp(data: seq<byte>) returns (result: nat)
    ensures result == RawSum(Words(data)) % UINT
  {
    var at, nleft := 0, |data|;
    ghost var total: nat, wraps: nat := 0, 0;
    assert data[0..] == data;
    result := 0;
    while nleft > 1
      invariant 0 <= nleft == |data| - at && 0 <= at
      invariant result < UINT && result + UINT * wraps == total
      invariant total + RawSum(Words(data[at..])) == RawSum(Words(data))
    {
      var w := Pair(data[at], data[at + 1]);
      TakePair(data, at);
      total, wraps := total + w, wraps + One(AddWord(result, w) != result + w);
      result := AddWord(result, w);
      at, nleft := at + 2, nleft - 2;
    }
    TakeLast(data, at);
    if nleft == 1 {
      var w: word := data[at];
      total, wraps := total + w, wraps + One(AddWord(result, w) != result + w);
      result := AddWord(result, w);
    }
    WrapIs(result, wraps, total);
  }

  /** checksum(): for packets of up to 131074 bytes the complement of the one's complement sum. */
  method Compute(data: seq<byte>) returns (answer: word)
    ensures answer == Sum16(Words(data))
    ensures |data| <= 131074 ==> answer == ONES - OnesSum(Words(data))
  {
    ShortPacket(data);
    var result := AddUp(data);
    answer := FoldAndComplement(result);
  }

  method FoldAndComplement(sum: nat) returns (answer: word)
    ensures answer == ONES - Fold(sum)
  {
    var result := sum;
    result := result % BASE + result / BASE;
    result := result + result / BASE;
    answer := ONES - result % BASE;
  }

  // ---------------------------------------------------------------- deferred carries

  /** The 16-bit value that a sum comes to when every carry has been brought round. */
  function Reduce(x: nat): word {
    if x == 0 then 0 else (x - 1) % ONES + 1
  }

  lemma {:induction false} ReduceIs(x: nat, q: int, v: int)
    requires x == q * ONES + v && q >= 0 && 1 <= v <= ONES
    ensures Reduce(x) == v
  {
    var d := (x - 1) / ONES - q;
    assert (x - 1) % ONES == d * -ONES + (v - 1);
    assert d == 0;
  }

  lemma {:induction false} ReduceStep(x: nat, w: word)
    ensures EndAround(w, Reduce(x)) == Reduce(w + x)
  {
    if x > 0 {
      var q, v := (x - 1) / ONES, Reduce(x);
      assert x == q * ONES + v;
      if w + v >= BASE {
        ReduceIs(w + x, q + 1, w + v - ONES);
      } else {
        ReduceIs(w + x, q, w + v);
      }
    } else if w > 0 {
      ReduceIs(w, 0, w);
    }
  }

  lemma {:induction false} OnesSumReduces(ws: seq<word>)
    ensures OnesSum(ws) == Reduce(RawSum(ws))
  {
    if ws != [] {
      OnesSumReduces(ws[1..]);
      ReduceStep(RawSum(ws[1..]), ws[0]);
    }
  }

  lemma {:induction false} FoldReduces(r: nat)
    requires r < UINT
    ensures Fold(r) == Reduce(r)
  {
    var high, low := r / BASE, r % BASE;
    assert r == high * ONES + (high + low);
    if high + low >= BASE {
      ReduceIs(r, high + 1, high + low - ONES);
    } else if high + low > 0 {
      ReduceIs(r, high, high + low);
    }
  }

  lemma {:induction false} RawSumBound(ws: seq<word>)
    ensures RawSum(ws) <= ONES * |ws|
  {
    if ws != [] {
      RawSumBound(ws[1..]);
    }
  }

  /** Up to 65537 words the 32-bit sum cannot overflow, and two folds at the end do what adding
      back the carry at every word would do (deferred carries, section 2 of RFC 1071). */
  lemma {:induction false} DeferredCarries(ws: seq<word>)
    requires |ws| <= 65537
    ensures RawSum(ws) < UINT
    ensures Sum16(ws) == ONES - OnesSum(ws)
  {
    RawSumBound(ws);
    Sum16Reduces(ws);
    OnesSumReduces(ws);
  }

  lemma {:induction false} Sum16Reduces(ws: seq<word>)
    requires RawSum(ws) < UINT
    ensures Sum16(ws) == ONES - Reduce(RawSum(ws))
  {
    var r := RawSum(ws);
    assert r % UINT == r;
    FoldReduces(r);
  }

  lemma {:induction false} ShortPacket(data: seq<byte>)
    ensures |data| <= 131074 ==> Sum16(Words(data)) == ONES - OnesSum(Words(data))
  {
    WordsSize(data);
    if |data| <= 131074 {
      DeferredCarries(Words(data));
    }
  }

  // ---------------------------------------------------------------- receiving

  lemma {:induction false} RawSumUpdate(ws: seq<word>, k: nat, w: word)
    requires k < |ws|
    ensures RawSum(ws[k := w]) == RawSum(ws) - ws[k] + w
  {
    if k == 0 {
      assert ws[0 := w][1..] == ws[1..];
    } else {
      assert ws[k := w][1..] == ws[1..][k - 1 := w];
      RawSumUpdate(ws[1..], k - 1, w);
    }
  }

  lemma {:induction false} ReduceComplement(x: nat)
    ensures Reduce(x + (ONES - Reduce(x))) == ONES
  {
    if x > 0 {
      ReduceIs(x + (ONES - Reduce(x)), (x - 1) / ONES, ONES);
    } else {
      ReduceIs(ONES, 0, ONES);
    }
  }

  /** A packet whose zeroed checksum word is replaced by the result sums to all ones (section 1
      of RFC 1071). */
  lemma {:induction false} ChecksummedPacketSumsToOnes(ws: seq<word>, k: nat)
    requires k < |ws| <= 65537 && ws[k] == 0
    ensures OnesSum(ws[k := Sum16(ws)]) == ONES
  {
    DeferredCarries(ws);
    OnesSumReduces(ws);
    RawSumUpdate(ws, k, Sum16(ws));
    OnesSumReduces(ws[k := Sum16(ws)]);
    ReduceComplement(RawSum(ws));
  }

  lemma {:induction false} WordsSize(data: seq<byte>)
    ensures 2 * |Words(data)| == |data| + |data| % 2
    decreases |data|
  {
    if |data| > 1 {
      WordsSize(data[2..]);
    }
  }

  /** Storing a word in the packet changes that word and no other. */
  lemma {:induction false} WordsUpdate(data: seq<byte>, k: nat, low: byte, high: byte)
    requires 2 * k + 1 < |data|
    ensures k < |Words(data)| && Words(data)[k] == Pair(data[2 * k], data[2 * k + 1])
    ensures Words(data[2 * k := low][2 * k + 1 := high]) == Words(data)[k := Pair(low, high)]
  {
    var sent := data[2 * k := low][2 * k + 1 := high];
    if k == 0 {
      assert sent[2..] == data[2..];
    } else {
      WordsUpdate(data[2..], k - 1, low, high);
      assert sent[2..] == data[2..][2 * (k - 1) := low][2 * (k - 1) + 1 := high];
    }
  }

  /** A packet of up to 131074 bytes, sent with its two zeroed checksum bytes filled in, checks to
      zero at the receiver. */
  lemma {:induction false} ReceiverComputesZero(data: seq<byte>, k: nat)
    requires 2 * k + 1 < |data| <= 131074 && data[2 * k] == 0 && data[2 * k + 1] == 0
    ensures var c := Sum16(Words(data));
            Sum16(Words(data[2 * k := c % 256][2 * k + 1 := c / 256])) == 0
  {
    var c := Sum16(Words(data));
    WordsSize(data);
    WordsUpdate(data, k, c % 256, c / 256);
    assert Pair(c % 256, c / 256) == c;
    ChecksummedPacketSumsToOnes(Words(data), k);
    DeferredCarries(Words(data)[k := c]);
  }

  /** The sender fills in its checksum, the receiver computes it again. */
  method SendAndCheck(data: seq<byte>, k: nat) returns (sent: seq<byte>, check: word)
    requires 2 * k + 1 < |data| <= 131074
    ensures |sent| == |data| && forall i :: 0 <= i < |data| && i != 2 * k && i != 2 * k + 1 ==> sent[i] == data[i]
    ensures check == 0
  {
    var zeroed := data[2 * k := 0][2 * k + 1 := 0];
    var c := Compute(zeroed);
    ReceiverComputesZero(zeroed, k);
    sent := zeroed[2 * k := c % 256][2 * k + 1 := c / 256];
    check := Compute(sent);
  }

  // ---------------------------------------------------------------- how long a packet may be

  ghost predicate RightForLength(n: nat) {
    forall ws: seq<word> :: |ws| == n ==> Sum16(ws) == ONES - OnesSum(ws)
  }

  lemma {:induction false} RawSumUniform(n: nat, w: word)
    ensures RawSum(seq(n, _ => w)) == n * w
  {
    if n > 0 {
      assert seq(n, _ => w)[1..] == seq(n - 1, _ => w);
      RawSumUniform(n - 1, w);
    }
  }

  lemma {:induction false} RawSumConcat(xs: seq<word>, ys: seq<word>)
    ensures RawSum(xs + ys) == RawSum(xs) + RawSum(ys)
  {
    if xs == [] {
      assert xs + ys == ys;
    } else {
      assert (xs + ys)[1..] == xs[1..] + ys;
      RawSumConcat(xs[1..], ys);
    }
  }

  /** The program is right on every packet of n words exactly when n is at most 65537: a longer
      packet that starts with 65538 words of all ones makes the 32-bit sum wrap around. */
  lemma {:induction false} RightIffNoOverflow(n: nat)
    ensures RightForLength(n) <==> n <= 65537
  {
    if n <= 65537 {
      forall ws: seq<word> | |ws| == n
        ensures Sum16(ws) == ONES - OnesSum(ws)
      {
        DeferredCarries(ws);
      }
    } else {
      var ones: seq<word> := seq(65538, _ => ONES);
      var zeros: seq<word> := seq(n - 65538, _ => 0);
      var ws := ones + zeros;
      RawSumUniform(65538, ONES);
      RawSumUniform(n - 65538, 0);
      RawSumConcat(ones, zeros);
      OnesSumReduces(ws);
      assert RawSum(ws) == UINT + 65534;
      assert Sum16(ws) == 1 && OnesSum(ws) == ONES;
      assert |ws| == n;
    }
  }
}
