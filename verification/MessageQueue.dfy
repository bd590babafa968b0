/** Messages cut into queue entries of bounded size and put together again. */
module MessageQueue {

  newtype byte = x: int | 0 <= x < 256

  type Bytes = seq<byte>

  const BUFSIZE := 16384
  const OVERHEAD := 8
  const MSG_ORDINAL: Bytes := [0xAA, 0xAA, 0xAA, 0xAA]
  const LENGTHS := 0x1_0000_0000

  // ----- the header -----

  /** A 32-bit number as its four bytes, lowest first. */
  function Encode(n: nat): (b: Bytes)
    requires n < LENGTHS
    ensures |b| == 4
  {
    [(n % 256) as byte, (n / 256 % 256) as byte, (n / 65536 % 256) as byte, (n / 16777216) as byte]
  }

  function Decode(b: Bytes): nat
    requires |b| == 4
  {
    b[0] as nat + 256 * b[1] as nat + 65536 * b[2] as nat + 16777216 * b[3] as nat
  }

  lemma DecodeEncode(n: nat)
    requires n < LENGTHS
    ensures Decode(Encode(n)) == n
  {
    var a, b := n / 256, n / 65536;
    assert n == 256 * a + n % 256 && a == 256 * b + a % 256 && b == n / 256 / 256;
    assert b == 256 * (n / 16777216) + b % 256;
  }

  // ----- cutting -----

  /** The payload of the first fragment of a message of `n` bytes, as computed by the sender. */
  function FirstPiece(n: nat): (k: nat)
    requires n > 0
    ensures 0 < k <= n
  {
    if n <= BUFSIZE - OVERHEAD then n
    else if n <= BUFSIZE then n - (n + OVERHEAD) % BUFSIZE
    else BUFSIZE - (n + OVERHEAD) % BUFSIZE
  }

  /** The header and the first payload do not fit the buffer. */
  predicate Overruns(n: nat)
  {
    n > 0 && OVERHEAD + FirstPiece(n) > BUFSIZE
  }

  /** Exactly the lengths over one buffer that leave less than the overhead in the last one. */
  lemma OverrunsExactly(n: nat)
    ensures Overruns(n) <==> n > BUFSIZE && (n + OVERHEAD) % BUFSIZE < OVERHEAD
  {
  }

  function Pieces(s: Bytes): (r: seq<Bytes>)
    ensures forall f | f in r :: |f| <= BUFSIZE
  {
    if s == [] then []
    else if |s| <= BUFSIZE then [s]
    else [s[..BUFSIZE]] + Pieces(s[BUFSIZE..])
  }

  function Header(n: nat): (h: Bytes)
    requires n < LENGTHS
    ensures |h| == OVERHEAD
  {
    MSG_ORDINAL + Encode(n)
  }

  function Fragments(msg: Bytes): (r: seq<Bytes>)
    requires |msg| < LENGTHS
    ensures !Overruns(|msg|) ==> forall f | f in r :: |f| <= BUFSIZE
  {
    if msg == [] then []
    else
      var k := FirstPiece(|msg|);
      [Header(|msg|) + msg[..k]] + Pieces(msg[k..])
  }

  // ----- what the queue entries look like -----

  ghost function Joined(fs: seq<Bytes>): Bytes
  {
    if fs == [] then [] else fs[0] + Joined(fs[1..])
  }

  lemma {:induction false} PiecesJoin(s: Bytes)
    ensures Joined(Pieces(s)) == s
    ensures forall i: nat | i + 1 < |Pieces(s)| :: |Pieces(s)[i]| == BUFSIZE
  {
    if |s| > BUFSIZE {
      PiecesJoin(s[BUFSIZE..]);
      assert s == s[..BUFSIZE] + s[BUFSIZE..];
      assert Pieces(s)[1..] == Pieces(s[BUFSIZE..]);
    } else if s != [] {
      assert Pieces(s)[1..] == [];
    }
  }

  /** Four bytes 0xAA, the message's length lowest byte first, and then the message, cut into entries of
      which all but the first and the last are 16384 bytes long. */
  lemma WireFormat(msg: Bytes)
    requires 0 < |msg| < LENGTHS
    ensures var fs := Fragments(msg);
            && fs != [] && |fs[0]| > 8 && fs[0][..4] == [0xAA, 0xAA, 0xAA, 0xAA]
            && fs[0][4] as nat + 0x100 * fs[0][5] as nat + 0x1_0000 * fs[0][6] as nat + 0x100_0000 * fs[0][7] as nat
                == |msg|
            && fs[0][8..] + Joined(fs[1..]) == msg
            && forall i: nat | 0 < i && i + 1 < |fs| :: |fs[i]| == 16384
  {
    var k := FirstPiece(|msg|);
    DecodeEncode(|msg|);
    PiecesJoin(msg[k..]);
    var fs := Fragments(msg);
    assert fs[0] == Header(|msg|) + msg[..k] && fs[1..] == Pieces(msg[k..]);
    assert fs[0][4..8] == Encode(|msg|);
    assert msg == msg[..k] + msg[k..];
    forall i: nat | 0 < i && i + 1 < |fs| ensures |fs[i]| == 16384 {
      assert fs[i] == fs[1..][i - 1];
    }
  }

  // ----- how many fragments -----

  /** `n / d`, rounded up. */
  ghost function RoundedUp(n: nat, d: nat): nat
    requires d > 0
  {
    (n + d - 1) / d
  }

  lemma {:induction false} PiecesCount(s: Bytes)
    ensures |Pieces(s)| == RoundedUp(|s|, BUFSIZE)
    decreases |s|
  {
    if |s| > BUFSIZE {
      PiecesCount(s[BUFSIZE..]);
    }
  }

  lemma FragmentsAre(msg: Bytes)
    requires 0 < |msg| < LENGTHS
    ensures |Fragments(msg)| == 1 + RoundedUp(|msg| - FirstPiece(|msg|), BUFSIZE)
  {
    PiecesCount(msg[FirstPiece(|msg|)..]);
  }

  /** A message that fits one entry with its header is one entry. A longer one takes as few entries of 16384
      bytes as hold it and the header, or one more: exactly when it is longer than an entry and the last
      of them would be filled with more than 8196 bytes. */
  lemma FragmentCount(msg: Bytes)
    requires 0 < |msg| < LENGTHS && !Overruns(|msg|)
    ensures |msg| <= 16376 ==> |Fragments(msg)| == 1
    ensures var least := RoundedUp(|msg| + 8, 16384);
            |Fragments(msg)| == if |msg| > 16384 && (|msg| + 8) % 16384 > 8196 then least + 1 else least
  {
    FragmentsAre(msg);
    var n := |msg|;
    var q, m := (n + 8) / 16384, (n + 8) % 16384;
    assert n + 8 == 16384 * q + m;
    if n > 16384 {
      assert n - FirstPiece(n) == 16384 * (q - 1) + (2 * m - 8);
    }
  }

  // ----- putting together -----

  datatype Received = Message(msg: Bytes) | Nothing | Malformed | Endless

  datatype Receipt = Receipt(result: Received, rest: seq<Bytes>)

  function EmptyBuffer(): (b: Bytes)
    ensures |b| == BUFSIZE
  {
    seq(BUFSIZE, _ => 0)
  }

  /** The receiver's buffer after a fragment was copied over its start. */
  function Overlay(buf: Bytes, f: Bytes): (r: Bytes)
    requires |buf| == BUFSIZE && |f| <= BUFSIZE
    ensures |r| == BUFSIZE
  {
    f + buf[|f|..]
  }

  predicate Begins(buf: Bytes)
    requires |buf| == BUFSIZE
  {
    buf[..4] == MSG_ORDINAL
  }

  /** The rest of a message of `total` bytes, of which `msg` is there and `last` was the entry last received.
      A wait that times out is not noticed: it appends what is left of that entry in the buffer. */
  function Collected(msg: Bytes, total: nat, q: seq<Bytes>, last: Bytes): (r: Receipt)
    ensures forall f | f in r.rest :: f in q
    decreases |q|, total - |msg|
  {
    if |msg| >= total then Receipt(Message(msg), q)
    else if q != [] then Collected(msg + q[0], total, q[1..], q[0])
    else if last == [] then Receipt(Endless, [])
    else Collected(msg + last, total, [], last)
  }

  ghost predicate Entries(q: seq<Bytes>)
  {
    forall f | f in q :: |f| <= BUFSIZE
  }

  /** What a receiver whose buffer holds `buf` makes of the queue. */
  ghost function Receiving(buf: Bytes, q: seq<Bytes>): (r: Receipt)
    requires |buf| == BUFSIZE && Entries(q)
    ensures Entries(r.rest)
    decreases |q|
  {
    if q == [] then Receipt(Nothing, [])
    else
      var b := Overlay(buf, q[0]);
      if !Begins(b) then Receiving(b, q[1..])
      else if |q[0]| < OVERHEAD then Receipt(Malformed, q[1..])
      else Collected(q[0][OVERHEAD..], Decode(q[0][4..8]), q[1..], q[0])
  }

  /** Entries none of which makes the buffer begin with the ordinal. */
  ghost predicate Garbage(buf: Bytes, q: seq<Bytes>)
    requires |buf| == BUFSIZE && Entries(q)
    decreases |q|
  {
    q == [] || (!Begins(Overlay(buf, q[0])) && Garbage(Overlay(buf, q[0]), q[1..]))
  }

  ghost function Leftover(buf: Bytes, q: seq<Bytes>): (r: Bytes)
    requires |buf| == BUFSIZE && Entries(q)
    ensures |r| == BUFSIZE
    decreases |q|
  {
    if q == [] then buf else Leftover(Overlay(buf, q[0]), q[1..])
  }

  // ----- round trip -----

  lemma {:induction false} PiecesCollect(msg: Bytes, s: Bytes, tail: seq<Bytes>, last: Bytes)
    ensures Collected(msg, |msg| + |s|, Pieces(s) + tail, last) == Receipt(Message(msg + s), tail)
    decreases |s|
  {
    var q := Pieces(s) + tail;
    if s == [] {
      assert q == tail && msg + s == msg;
    } else if |s| <= BUFSIZE {
      assert q[1..] == tail && q[0] == s;
    } else {
      var f, s' := s[..BUFSIZE], s[BUFSIZE..];
      assert s == f + s' && q[0] == f && q[1..] == Pieces(s') + tail;
      PiecesCollect(msg + f, s', tail, f);
      assert msg + f + s' == msg + s;
    }
  }

  lemma HeaderReads(buf: Bytes, n: nat, payload: Bytes)
    requires |buf| == BUFSIZE && n < LENGTHS && OVERHEAD + |payload| <= BUFSIZE
    ensures var f := Header(n) + payload;
            Begins(Overlay(buf, f)) && f[OVERHEAD..] == payload && Decode(f[4..8]) == n
  {
    var f := Header(n) + payload;
    assert Overlay(buf, f)[..4] == MSG_ORDINAL;
    assert f[4..8] == Encode(n);
    DecodeEncode(n);
  }

  /** Whatever the buffer held, the fragments of one message give the message back. */
  lemma FragmentsReceive(buf: Bytes, msg: Bytes, tail: seq<Bytes>)
    requires |buf| == BUFSIZE && 0 < |msg| < LENGTHS && !Overruns(|msg|) && Entries(tail)
    ensures Entries(Fragments(msg) + tail)
    ensures Receiving(buf, Fragments(msg) + tail) == Receipt(Message(msg), tail)
  {
    var k := FirstPiece(|msg|);
    var q := Fragments(msg) + tail;
    assert Entries(Fragments(msg));
    assert q[0] == Header(|msg|) + msg[..k] && q[1..] == Pieces(msg[k..]) + tail;
    HeaderReads(buf, |msg|, msg[..k]);
    PiecesCollect(msg[..k], msg[k..], tail, q[0]);
    assert msg == msg[..k] + msg[k..];
  }

  lemma {:induction false} GarbageSkipped(buf: Bytes, junk: seq<Bytes>, q: seq<Bytes>)
    requires |buf| == BUFSIZE && Entries(junk) && Entries(q) && Garbage(buf, junk)
    ensures Entries(junk + q) && Receiving(buf, junk + q) == Receiving(Leftover(buf, junk), q)
    decreases |junk|
  {
    if junk == [] {
      assert junk + q == q;
    } else {
      GarbageSkipped(Overlay(buf, junk[0]), junk[1..], q);
      assert (junk + q)[1..] == junk[1..] + q;
    }
  }

  /** Entries of four bytes or more are garbage exactly when none starts with the ordinal itself. */
  lemma {:induction false} LongGarbage(buf: Bytes, junk: seq<Bytes>)
    requires |buf| == BUFSIZE && Entries(junk) && forall f | f in junk :: |f| >= 4
    ensures Garbage(buf, junk) <==> forall f | f in junk :: f[..4] != MSG_ORDINAL
    decreases |junk|
  {
    if junk != [] {
      LongGarbage(Overlay(buf, junk[0]), junk[1..]);
      assert Overlay(buf, junk[0])[..4] == junk[0][..4];
      assert junk == [junk[0]] + junk[1..];
    }
  }

  /** A short entry can complete an ordinal out of what an earlier one left in the buffer. */
  lemma StaleOrdinal(buf: Bytes)
    requires |buf| == BUFSIZE
    ensures var junk: seq<Bytes> := [[0, 0xAA, 0xAA, 0xAA], [0xAA]];
            Entries(junk) && !Garbage(buf, junk) && Receiving(buf, junk).result == Malformed
  {
    var junk: seq<Bytes> := [[0, 0xAA, 0xAA, 0xAA], [0xAA]];
    var b := Overlay(buf, junk[0]);
    assert b[..4] == junk[0];
    assert junk[1..][0] == [0xAA];
    assert Overlay(b, [0xAA])[..4] == MSG_ORDINAL;
  }

  /** Send then receive: after any garbage the message comes back and the queue behind it is untouched. */
  lemma RoundTrip(buf: Bytes, junk: seq<Bytes>, msg: Bytes, tail: seq<Bytes>)
    requires |buf| == BUFSIZE && Entries(junk) && Entries(tail) && Garbage(buf, junk)
    requires 0 < |msg| < LENGTHS && !Overruns(|msg|)
    ensures Entries(junk + (Fragments(msg) + tail))
    ensures Receiving(buf, junk + (Fragments(msg) + tail)) == Receipt(Message(msg), tail)
  {
    FragmentsReceive(Leftover(buf, junk), msg, tail);
    GarbageSkipped(buf, junk, Fragments(msg) + tail);
  }

  ghost function AllFragments(msgs: seq<Bytes>): seq<Bytes>
    requires forall m | m in msgs :: |m| < LENGTHS
  {
    if msgs == [] then [] else Fragments(msgs[0]) + AllFragments(msgs[1..])
  }

  /** Receiving `n` times from the queue. */
  ghost function ReceivedAll(q: seq<Bytes>, n: nat): seq<Received>
    requires Entries(q)
    decreases n
  {
    if n == 0 then []
    else
      var r := Receiving(EmptyBuffer(), q);
      [r.result] + ReceivedAll(r.rest, n - 1)
  }

  /** Any number of messages sent one after the other come back in order. */
  lemma {:induction false} AllRoundTrip(msgs: seq<Bytes>)
    requires forall m | m in msgs :: 0 < |m| < LENGTHS && !Overruns(|m|)
    ensures Entries(AllFragments(msgs))
    ensures ReceivedAll(AllFragments(msgs), |msgs|) == seq(|msgs|, i requires 0 <= i < |msgs| => Message(msgs[i]))
  {
    if msgs != [] {
      AllRoundTrip(msgs[1..]);
      assert msgs[0] in msgs;
      FragmentsReceive(EmptyBuffer(), msgs[0], AllFragments(msgs[1..]));
    }
  }

  /** Nothing is received exactly when all entries are garbage. */
  lemma {:induction false} NothingExactly(buf: Bytes, q: seq<Bytes>)
    requires |buf| == BUFSIZE && Entries(q)
    ensures Receiving(buf, q).result == Nothing <==> Garbage(buf, q)
    ensures Receiving(buf, q).result == Nothing ==> Receiving(buf, q).rest == []
    decreases |q|
  {
    if q != [] {
      if Begins(Overlay(buf, q[0])) {
        CollectedKind(q[0], q);
      } else {
        NothingExactly(Overlay(buf, q[0]), q[1..]);
      }
    }
  }

  lemma CollectedKind(f: Bytes, q: seq<Bytes>)
    requires q != [] && f == q[0]
    ensures |f| >= OVERHEAD ==>
        var r := Collected(f[OVERHEAD..], Decode(f[4..8]), q[1..], f).result; r.Message? || r.Endless?
  {
    if |f| >= OVERHEAD {
      NeverMalformed(f[OVERHEAD..], Decode(f[4..8]), q[1..], f);
    }
  }

  lemma {:induction false} NeverMalformed(msg: Bytes, total: nat, q: seq<Bytes>, last: Bytes)
    ensures var r := Collected(msg, total, q, last).result; r.Message? || r.Endless?
    decreases |q|, total - |msg|
  {
    if |msg| < total {
      if q != [] {
        NeverMalformed(msg + q[0], total, q[1..], q[0]);
      } else if last != [] {
        NeverMalformed(msg + last, total, [], last);
      }
    }
  }

  /** An entry that completes the ordinal is malformed exactly when it is shorter than a header, and is then
      all that is taken off. */
  lemma MalformedExactly(buf: Bytes, q: seq<Bytes>)
    requires |buf| == BUFSIZE && Entries(q) && q != [] && Begins(Overlay(buf, q[0]))
    ensures Receiving(buf, q).result == Malformed <==> |q[0]| < 8
    ensures |q[0]| < 8 ==> Receiving(buf, q).rest == q[1..]
  {
    CollectedKind(q[0], q);
  }

  // ----- a queue that runs dry -----

  ghost function Repeated(s: Bytes, k: nat): Bytes
  {
    if k == 0 then [] else s + Repeated(s, k - 1)
  }

  /** A message whose last entries never come is filled up with copies of the last entry that did, until it
      is long enough. */
  lemma {:induction false} RunsDry(msg: Bytes, total: nat, last: Bytes) returns (k: nat)
    requires |msg| < total && last != []
    ensures Collected(msg, total, [], last) == Receipt(Message(msg + Repeated(last, k)), [])
    ensures 0 < k && |msg + Repeated(last, k)| >= total > |msg + Repeated(last, k - 1)|
    decreases total - |msg|
  {
    assert last + Repeated(last, 0) == last;
    if |msg + last| >= total {
      k := 1;
      assert msg + Repeated(last, 0) == msg;
    } else {
      var j := RunsDry(msg + last, total, last);
      k := j + 1;
      assert msg + last + Repeated(last, j) == msg + Repeated(last, k);
      assert msg + last + Repeated(last, j - 1) == msg + Repeated(last, j);
    }
  }

  // ----- the two ends -----

  method CopyInto(buf: array<byte>, at: nat, src: Bytes)
    requires at + |src| <= buf.Length
    modifies buf
    ensures buf[..] == old(buf[..at]) + src + old(buf[at + |src|..])
  {
    for i := 0 to |src|
      invariant forall k | 0 <= k < buf.Length :: buf[k] == if at <= k < at + i then src[k - at] else old(buf[k])
    {
      buf[at + i] := src[i];
    }
  }

  method FirstSending(bytes: nat) returns (sending: nat)
    requires bytes > 0
    ensures sending == FirstPiece(bytes)
  {
    sending := if bytes <= BUFSIZE then bytes else BUFSIZE;
    if sending > BUFSIZE - OVERHEAD {
      sending := sending - (bytes + OVERHEAD) % BUFSIZE;
    }
  }

  datatype SendResult = Sent | TimedOut | BufferOverrun

  function AtMost(s: seq<Bytes>, room: nat): seq<Bytes>
  {
    if |s| <= room then s else s[..room]
  }

  class Queue {
    var entries: seq<Bytes>

    ghost predicate Valid()
      reads this
    {
      Entries(entries)
    }

    constructor ()
      ensures Valid() && entries == []
    {
      entries := [];
    }

    /** Sends a message; its size is kept in 32 bits, so only that many bytes go out.  `room` is how many
        entries the queue takes before a wait for room times out; what was sent until then stays. */
    method Send(msg: Bytes, room: nat) returns (r: SendResult)
      requires Valid()
      modifies this
      ensures Valid()
      ensures r.BufferOverrun? <==> Overruns(|msg| % LENGTHS)
      ensures var fragments := Fragments(msg[..|msg| % LENGTHS]);
              && (r.Sent? <==> !Overruns(|msg| % LENGTHS) && |fragments| <= room)
              && entries == old(entries) + if r.BufferOverrun? then [] else AtMost(fragments, room)
    {
      r := SendBytes(msg[..|msg| % LENGTHS], room);
    }

    method SendBytes(msg: Bytes, room: nat) returns (r: SendResult)
      requires Valid() && |msg| < LENGTHS
      modifies this
      ensures Valid()
      ensures r.BufferOverrun? <==> Overruns(|msg|)
      ensures r.Sent? <==> !Overruns(|msg|) && |Fragments(msg)| <= room
      ensures entries == old(entries) + if r.BufferOverrun? then [] else AtMost(Fragments(msg), room)
    {
      if msg == [] {
        return Sent;
      }
      var sending := FirstSending(|msg|);
      if OVERHEAD + sending > BUFSIZE {
        return BufferOverrun;
      }
      var all := SendPieces(msg, sending, room);
      r := if all then Sent else TimedOut;
    }

    method SendPieces(msg: Bytes, k: nat, room: nat) returns (all: bool)
      requires Valid() && k <= |msg| < LENGTHS && OVERHEAD + k <= BUFSIZE
      modifies this
      ensures Valid() && entries == old(entries) + AtMost([Header(|msg|) + msg[..k]] + Pieces(msg[k..]), room)
      ensures all <==> 1 + |Pieces(msg[k..])| <= room
    {
      if room == 0 {
        return false;
      }
      ghost var first := Header(|msg|) + msg[..k];
      AtMostMore(first, Pieces(msg[k..]), room);
      Regroup(entries, [first], AtMost(Pieces(msg[k..]), room - 1));
      var buf := new byte[BUFSIZE](_ => 0);
      SendFirst(msg[..k], |msg|, buf);
      all := SendRest(msg[k..], buf, room - 1);
    }

    method SendFirst(payload: Bytes, bytes: nat, buf: array<byte>)
      requires Valid() && bytes < LENGTHS && buf.Length == BUFSIZE && OVERHEAD + |payload| <= BUFSIZE
      modifies this, buf
      ensures Valid() && entries == old(entries) + [Header(bytes) + payload]
    {
      CopyInto(buf, 0, Header(bytes));
      CopyInto(buf, OVERHEAD, payload);
      assert buf[..OVERHEAD + |payload|] == Header(bytes) + payload;
      entries := entries + [buf[..OVERHEAD + |payload|]];
    }

    method SendRest(rest: Bytes, buf: array<byte>, room: nat) returns (all: bool)
      requires Valid() && buf.Length == BUFSIZE
      modifies this, buf
      ensures Valid() && entries == old(entries) + AtMost(Pieces(rest), room)
      ensures all <==> |Pieces(rest)| <= room
    {
      var s: Bytes, left: nat := rest, room;
      ghost var goal := entries + AtMost(Pieces(rest), room);
      while s != []
        invariant Valid() && left <= room && entries + AtMost(Pieces(s), left) == goal
        invariant |Pieces(rest)| <= room <==> |Pieces(s)| <= left
        decreases |s|
      {
        var sending := if |s| <= BUFSIZE then |s| else BUFSIZE;
        if left == 0 {
          PiecesStep(s, sending);
          return false;
        }
        GoalKept(entries, s, sending, left);
        SendOne(s[..sending], buf);
        s, left := s[sending..], left - 1;
      }
      all := true;
    }

    method SendOne(piece: Bytes, buf: array<byte>)
      requires Valid() && buf.Length == BUFSIZE && |piece| <= BUFSIZE
      modifies this, buf
      ensures Valid() && entries == old(entries) + [piece]
    {
      CopyInto(buf, 0, piece);
      assert buf[..|piece|] == piece;
      entries := entries + [buf[..|piece|]];
    }

    /** Takes one message off the queue, passing over garbage. */
    method Receive() returns (r: Received)
      requires Valid()
      modifies this
      ensures Valid()
      ensures Receipt(r, entries) == Receiving(EmptyBuffer(), old(entries))
    {
      var buf := EmptyBuffer();
      ghost var goal := Receiving(buf, entries);
      var begun, size := false, 0;
      while !begun
        invariant Valid() && |buf| == BUFSIZE
        invariant !begun ==> Receiving(buf, entries) == goal
        invariant begun ==>
            size <= BUFSIZE && Begins(buf) && goal == if size < OVERHEAD then Receipt(Malformed, entries)
          else Collected(buf[OVERHEAD..size], Decode(buf[4..8]), entries, buf[..size])
        decreases |entries|, !begun
      {
        if entries == [] {
          return Nothing;
        }
        var f := entries[0];
        assert f in entries;
        size := |f|;
        ghost var before := buf;
        buf := Overlay(buf, f);
        entries := entries[1..];
        begun := Begins(buf);
        if begun && size >= OVERHEAD {
          assert buf[OVERHEAD..size] == f[OVERHEAD..] && buf[4..8] == f[4..8] && buf[..size] == f;
        }
      }
      if size < OVERHEAD {
        return Malformed;
      }
      var total, msg, last := Decode(buf[4..8]), buf[OVERHEAD..size], buf[..size];
      while |msg| < total
        invariant Valid() && goal == Collected(msg, total, entries, last)
        decreases |entries|, total - |msg|
      {
        if entries != [] {
          last := entries[0];
          entries := entries[1..];
        } else if last == [] {
          return Endless;
        }
        msg := msg + last;
      }
      r := Message(msg);
    }
  }

  /** Sending the next piece leaves as much to send as there is to send. */
  lemma GoalKept(entries: seq<Bytes>, s: Bytes, k: nat, room: nat)
    requires s != [] && k == (if |s| <= BUFSIZE then |s| else BUFSIZE) && room > 0
    ensures entries + [s[..k]] + AtMost(Pieces(s[k..]), room - 1) == entries + AtMost(Pieces(s), room)
    ensures |Pieces(s)| <= room <==> |Pieces(s[k..])| <= room - 1
  {
    PiecesStep(s, k);
    AtMostMore(s[..k], Pieces(s[k..]), room);
    Regroup(entries, [s[..k]], AtMost(Pieces(s[k..]), room - 1));
  }

  lemma Regroup(a: seq<Bytes>, b: seq<Bytes>, c: seq<Bytes>)
    ensures a + b + c == a + (b + c)
  {
  }

  lemma AtMostMore(first: Bytes, rest: seq<Bytes>, room: nat)
    requires room > 0
    ensures AtMost([first] + rest, room) == [first] + AtMost(rest, room - 1)
    ensures |[first] + rest| <= room <==> |rest| <= room - 1
  {
  }

  lemma PiecesStep(s: Bytes, k: nat)
    requires s != [] && k == if |s| <= BUFSIZE then |s| else BUFSIZE
    ensures Pieces(s) == [s[..k]] + Pieces(s[k..])
  {
    if |s| <= BUFSIZE {
      assert s[..k] == s && s[k..] == [];
    }
  }
}
