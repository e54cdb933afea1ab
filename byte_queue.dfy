/** The inbound byte FIFO of the serial bridge, as values.

    The receive queue is a FreeRTOS queue of `char` created with room for
    RX_BUF entries. Here its contents are a sequence, oldest byte first;
    the functions below are the specifications that the methods of
    `Serial.BLESerial` are proved against. */
module ByteQueue {

  /** One C `char` as carried by the queue. */
  type Byte = b: int | 0 <= b < 256

  /** Number of entries the receive queue is created with. */
  const RX_BUF: nat := 100

  function Min(a: int, b: int): int { if a <= b then a else b }

  /** The queue after one `xQueueSend` with a zero timeout:
      the byte is appended when there is room and dropped otherwise. */
  function Send(q: seq<Byte>, b: Byte): (r: seq<Byte>)
    ensures |q| <= |r| <= |q| + 1 && r[..|q|] == q
    ensures |r| == |q| + 1 <==> |q| < RX_BUF
    ensures |q| <= RX_BUF ==> |r| <= RX_BUF
  {
    if |q| < RX_BUF then q + [b] else q
  }

  /** The queue after sending every byte of `p` in payload order, each by `Send`. */
  function SendAll(q: seq<Byte>, p: seq<Byte>): (r: seq<Byte>)
    ensures |q| <= |r| <= |q| + |p| && r[..|q|] == q
    ensures |q| <= RX_BUF ==> |r| <= RX_BUF
    decreases |p|
  {
    if p == [] then q else Send(SendAll(q, p[..|p| - 1]), p[|p| - 1])
  }

  /** Sending a payload one byte at a time keeps exactly the bytes that fit,
      in payload order: the longest prefix of `p` that fits after `q`.
      So the queue never exceeds RX_BUF, and it is full exactly when
      the old contents and the payload together reach RX_BUF. */
  lemma {:induction false} SendAllKeepsPrefix(q: seq<Byte>, p: seq<Byte>)
    requires |q| <= RX_BUF
    ensures SendAll(q, p) == q + p[..Min(|p|, RX_BUF - |q|)]
    decreases |p|
  {
    if p != [] {
      var init := p[..|p| - 1];
      SendAllKeepsPrefix(q, init);
      var k := Min(|init|, RX_BUF - |q|);
      assert init[..k] == p[..k];
      if |q| + k < RX_BUF {
        assert k == |init|;
        assert p[..k + 1] == init + [p[|p| - 1]];
      }
    }
  }

  /** Capacity: the queue never holds more than RX_BUF bytes after a payload,
      it holds exactly RX_BUF when the payload overflowed it, and every byte
      of the payload is kept when it fits. */
  lemma {:induction false} SendAllBounded(q: seq<Byte>, p: seq<Byte>)
    requires |q| <= RX_BUF
    ensures |SendAll(q, p)| <= RX_BUF
    ensures |q| + |p| >= RX_BUF ==> |SendAll(q, p)| == RX_BUF
    ensures |q| + |p| <= RX_BUF ==> SendAll(q, p) == q + p
  {
    SendAllKeepsPrefix(q, p);
    if |q| + |p| <= RX_BUF {
      assert p[..|p|] == p;
    }
  }

  /** Position of the first occurrence of `c` in `q`. */
  function IndexOf(q: seq<Byte>, c: Byte): (i: nat)
    requires c in q
    ensures i < |q| && q[i] == c
    ensures forall j :: 0 <= j < i ==> q[j] != c
    decreases |q|
  {
    if q[0] == c then 0 else 1 + IndexOf(q[1..], c)
  }

  /** `readStringUntil(c)` as a value: bytes are popped one at a time and
      collected until `c` is popped or the queue runs out. The result is the
      collected line (never containing `c`) and what remains in the queue,
      which is always an unchanged suffix of the old contents. */
  function ReadUntil(q: seq<Byte>, c: Byte): (r: (seq<Byte>, seq<Byte>))
    ensures c !in r.0
    ensures |r.0| + |r.1| <= |q|
    ensures r.1 == q[|q| - |r.1|..]
    decreases |q|
  {
    if q == [] then ([], [])
    else if q[0] == c then ([], q[1..])
    else
      var t := ReadUntil(q[1..], c);
      ([q[0]] + t.0, t.1)
  }

  /** A queue holding a line, the delimiter and more bytes: the read returns
      the line and leaves exactly the bytes after the delimiter, in order. */
  lemma {:induction false} ReadUntilAtDelimiter(line: seq<Byte>, rest: seq<Byte>, c: Byte)
    requires c !in line
    ensures ReadUntil(line + [c] + rest, c) == (line, rest)
    decreases |line|
  {
    var q := line + [c] + rest;
    if line != [] {
      assert q[0] == line[0] && q[1..] == line[1..] + [c] + rest;
      ReadUntilAtDelimiter(line[1..], rest, c);
      assert [line[0]] + line[1..] == line;
    } else {
      assert q[0] == c && q[1..] == rest;
    }
  }

  /** A queue without the delimiter: the read returns all of it and empties it. */
  lemma {:induction false} ReadUntilNoDelimiter(q: seq<Byte>, c: Byte)
    requires c !in q
    ensures ReadUntil(q, c) == (q, [])
    decreases |q|
  {
    if q != [] {
      assert q[0] != c;
      ReadUntilNoDelimiter(q[1..], c);
      assert [q[0]] + q[1..] == q;
    }
  }

  /** Both outcomes of a read, for every queue and delimiter: with `c` in the
      queue, the line is everything before its first occurrence (`ReadUntil`
      promises that the line holds no `c`) and the queue keeps everything
      after it, so line, delimiter and what is left recombine to the old
      contents; otherwise the line is the whole queue and the queue is left empty. */
  lemma ReadUntilOutcomes(q: seq<Byte>, c: Byte)
    ensures c in q ==> q == ReadUntil(q, c).0 + [c] + ReadUntil(q, c).1
    ensures c !in q ==> ReadUntil(q, c) == (q, [])
  {
    if c in q {
      var i := IndexOf(q, c);
      assert q == q[..i] + [c] + q[i + 1..];
      ReadUntilAtDelimiter(q[..i], q[i + 1..], c);
    } else {
      ReadUntilNoDelimiter(q, c);
    }
  }

  /** FIFO order end to end: a line pushed after bytes already queued (none of
      them the delimiter) is read back behind them, in the order sent, and the
      bytes after the delimiter stay queued in order, as long as everything fits. */
  lemma PushedLineReadBack(q: seq<Byte>, line: seq<Byte>, rest: seq<Byte>, c: Byte)
    requires |q| + |line| + 1 + |rest| <= RX_BUF
    requires c !in q && c !in line
    ensures ReadUntil(SendAll(q, line + [c] + rest), c) == (q + line, rest)
  {
    SendAllBounded(q, line + [c] + rest);
    assert q + (line + [c] + rest) == (q + line) + [c] + rest;
    ReadUntilAtDelimiter(q + line, rest, c);
  }

  /** The line-splitting example: pushing "ab\ncd\n" and reading up to '\n'
      three times gives "ab", then "cd", then an empty line from an empty queue. */
  lemma DelimiterSplitExample()
    ensures var q := SendAll([], [0x61, 0x62, 0x0A, 0x63, 0x64, 0x0A]);
      var r1 := ReadUntil(q, 0x0A);
      var r2 := ReadUntil(r1.1, 0x0A);
      var r3 := ReadUntil(r2.1, 0x0A);
      r1.0 == [0x61, 0x62] && r2.0 == [0x63, 0x64] && r2.1 == [] && r3 == ([], [])
  {
    var p: seq<Byte> := [0x61, 0x62, 0x0A, 0x63, 0x64, 0x0A];
    SendAllBounded([], p);
    assert [] + p == p;
    assert p == [0x61, 0x62] + [0x0A] + [0x63, 0x64, 0x0A];
    ReadUntilAtDelimiter([0x61, 0x62], [0x63, 0x64, 0x0A], 0x0A);
    assert [0x63, 0x64, 0x0A] == [0x63, 0x64] + [0x0A] + [];
    ReadUntilAtDelimiter([0x63, 0x64], [], 0x0A);
  }

  /** The partial-line example: pushing "abc" and reading up to '\n'
      returns "abc" and leaves the queue empty. */
  lemma PartialLineExample()
    ensures ReadUntil(SendAll([], [0x61, 0x62, 0x63]), 0x0A) == ([0x61, 0x62, 0x63], [])
  {
    var p: seq<Byte> := [0x61, 0x62, 0x63];
    SendAllBounded([], p);
    assert [] + p == p;
    ReadUntilNoDelimiter(p, 0x0A);
  }
}
