/** What a resume after a pause sends, in packet numbers and stream times, and what a request for lost packets gets. */
module RaopResume {
  import opened Words
  import opened ClientLog
  import opened RaopClient

  // ---- Where the pause is --------------------------------------------------------------------------------

  /** The slot of the packet i before number s. */
  function Back(s: u16, i: nat): (k: nat)
    ensures k < MAX_BACKLOG
  {
    (s - i) % 0x1_0000 % MAX_BACKLOG
  }

  /** The search stops at the first packet, from the newest back, that is not later than the pause. */
  lemma {:induction false} LookbackFrom(b: seq<Slot>, s: u16, pause: u64, i: nat)
    requires |b| == MAX_BACKLOG && i <= MAX_BACKLOG
    ensures var r := Lookback(b, s, pause, i);
            && i <= r <= MAX_BACKLOG && (forall j :: i <= j < r ==> b[Back(s, j)].timestamp > pause)
            && (r < MAX_BACKLOG ==> b[Back(s, r)].timestamp <= pause)
    decreases MAX_BACKLOG - i
  {
    if i < MAX_BACKLOG && b[Back(s, i)].timestamp > pause { LookbackFrom(b, s, pause, i + 1); }
  }

  lemma LookbackIs(b: seq<Slot>, s: u16, pause: u64, r: nat)
    requires |b| == MAX_BACKLOG && r <= MAX_BACKLOG
    ensures Lookback(b, s, pause, 0) == r <==>
              && (forall j :: 0 <= j < r ==> b[Back(s, j)].timestamp > pause)
              && (r < MAX_BACKLOG ==> b[Back(s, r)].timestamp <= pause)
  {
    LookbackFrom(b, s, pause, 0);
    var q := Lookback(b, s, pause, 0);
    if q < r { assert b[Back(s, q)].timestamp <= pause; }
    if r < q { assert b[Back(s, r)].timestamp > pause; }
  }

  // ---- Times ---------------------------------------------------------------------------------------------

  lemma {:induction false} LaterIs(head: u64, length: nat, n: nat)
    ensures Later(head, length, n) == (head + n * length) % TWO64
  {
    if n == 0 {
      assert n * length == 0;
    } else {
      LaterIs(head, length, n - 1);
      var w := (n - 1) * length;
      assert n * length == w + length;
      SumOfRest(head + w, length);
    }
  }

  lemma SumOfRest(a: nat, b: nat)
    ensures (a % TWO64 + b) % TWO64 == (a + b) % TWO64
  {}

  /** The stream starts at the start time if one is set. Otherwise it starts now, or, after a pause, as long ago as the
      player buffers. */
  lemma FirstIs(start: u64, pause: u64, now: u64, latency: u32)
    ensures start != 0 ==> Client.First(start, pause, now, latency) == start
    ensures start == 0 && pause == 0 ==> Client.First(start, pause, now, latency) == now
    ensures start == 0 && pause != 0 && now >= latency ==> Client.First(start, pause, now, latency) + latency == now
  {}

  /** The client buffers its own latency and 11025 frames more, and sends as many packets again as fit. */
  lemma ChunksFit(c: Client)
    requires c.chunkLen > 0 && c.latencyFrames < 0x8000_0000 && (c.latencyFrames + 11025) / c.chunkLen < 0x1_0000
    ensures c.Latency() == c.latencyFrames + 11025
    ensures c.Chunks() * c.chunkLen <= c.Latency() < (c.Chunks() + 1) * c.chunkLen
  {
    Quotient(c.Latency(), c.chunkLen, c.Chunks());
    assert (c.Chunks() + 1) * c.chunkLen == c.Chunks() * c.chunkLen + c.chunkLen;
  }

  /** Frames are held back while a flush is pending, unless it is done or the start is no further away than that. */
  lemma WaitsIs(c: Client, now: u64)
    requires c.latencyFrames < 0x8000_0000 && now + c.latencyFrames + 11025 < TWO64
    ensures c.Waits(now) <==>
              c.flushing && c.state != Flushed && (c.startTs == 0 || c.startTs > now + c.latencyFrames + 11025)
  {}

  // ---- What is sent again ----------------------------------------------------------------------------------

  /** The slots of the count packets up to the one i before number s all hold a packet. */
  predicate AllThere(b: seq<Slot>, s: u16, i: nat, count: nat)
    requires |b| == MAX_BACKLOG
  {
    forall j :: i <= j < i + count ==> b[Back(s, j)].buffer != null
  }

  lemma SourceBack(s: u16, lookback: nat, chunks: nat, k: nat)
    requires lookback + chunks < MAX_BACKLOG && k < chunks
    ensures Source((s - lookback - chunks + 1) % MAX_BACKLOG, k) == Back(s, lookback + chunks - 1 - k)
  {
    var i := lookback + chunks - 1 - k;
    Reduced(s, i);
    var a: int := s - i - k;
    Summed(a, k);
    assert a == s - lookback - chunks + 1;
  }

  lemma Reduced(s: u16, i: nat)
    ensures Back(s, i) == (s - i) % MAX_BACKLOG
  {}

  lemma Summed(a: int, k: nat)
    ensures (a % MAX_BACKLOG + k) % MAX_BACKLOG == (a + k) % MAX_BACKLOG
  {}

  lemma {:induction false} StoredAll(b: seq<Slot>, n: nat, count: nat)
    requires |b| == MAX_BACKLOG && forall k :: 0 <= k < count ==> b[Source(n, k)].buffer != null
    ensures |Stored(b, n, count)| == count
    ensures forall k :: 0 <= k < count ==> Stored(b, n, count)[k] == b[Source(n, k)].buffer
  {
    if count > 0 { StoredAll(b, n, count - 1); }
  }

  /** The slot of the k-th packet after number s. */
  function Ahead(s: u16, k: nat): (i: nat)
    ensures i < MAX_BACKLOG
  {
    (s + 1 + k) % MAX_BACKLOG
  }

  /** The slot holds the packet that was in another, as the k-th after number s, k chunks after time head. */
  predicate SentAs(slot: Slot, was: Slot, s: u16, head: u64, length: nat, k: nat) {
    && slot.buffer == was.buffer
    && slot.number == (s + 1 + k) % 0x1_0000 && slot.timestamp == (head + k * length) % TWO64
  }

  /** With a full backlog, a resume sends exactly chunks packets: those up to the pause, the last of them the packet
      that the pause is at. The k-th goes out under the k-th number after the last one, k chunks after the restart. */
  lemma {:induction false} ResumeSends(c: Client, b: seq<Slot>, s: u16, pause: u64, head: u64, chunks: nat, i: nat)
    requires |b| == MAX_BACKLOG && c.SentAgain(b, s, pause, head, chunks) && c.backlog.Length == MAX_BACKLOG
    requires i + chunks < MAX_BACKLOG && AllThere(b, s, i, chunks)
    requires (forall j :: 0 <= j < i ==> b[Back(s, j)].timestamp > pause) && b[Back(s, i)].timestamp <= pause
    ensures c.seqNumber == (s + chunks) % 0x1_0000 && c.headTs == (head + chunks * c.chunkLen) % TWO64
    ensures forall k {:trigger Ahead(s, k)} :: 0 <= k < chunks ==>
              SentAs(c.backlog[Ahead(s, k)], b[Back(s, i + chunks - 1 - k)], s, head, c.chunkLen, k)
  {
    var n := (s - i - chunks + 1) % MAX_BACKLOG;
    var moved := Stored(b, n, chunks);
    SentAgainIs(c, b, s, pause, head, chunks, i, n);
    forall k | 0 <= k < chunks ensures b[Source(n, k)].buffer == b[Back(s, i + chunks - 1 - k)].buffer != null {
      SourceBack(s, i, chunks, k);
    }
    StoredAll(b, n, chunks);
    LaterIs(head, c.chunkLen, chunks);
    forall k | 0 <= k < chunks
      ensures SentAs(c.backlog[Ahead(s, k)], b[Back(s, i + chunks - 1 - k)], s, head, c.chunkLen, k)
    {
      assert b[Source(n, k)].buffer == b[Back(s, i + chunks - 1 - k)].buffer;
      SentAt(b, c.backlog[..], s, head, c.chunkLen, n, chunks, moved, k);
    }
  }

  lemma SentAgainIs(c: Client, b: seq<Slot>, s: u16, pause: u64, head: u64, chunks: nat, i: nat, n: nat)
    requires |b| == MAX_BACKLOG && c.SentAgain(b, s, pause, head, chunks) && i < MAX_BACKLOG
    requires (forall j :: 0 <= j < i ==> b[Back(s, j)].timestamp > pause) && b[Back(s, i)].timestamp <= pause
    requires n == (s - i - chunks + 1) % MAX_BACKLOG
    ensures var moved := Stored(b, n, chunks);
            && Resumed(b, c.backlog[..], Stamps(s, head, c.chunkLen), n, chunks, chunks, moved)
            && c.seqNumber == (s + |moved|) % 0x1_0000 && c.headTs == Later(head, c.chunkLen, |moved|)
  {
    LookbackIs(b, s, pause, i);
    assert Unfold(0);
  }

  lemma SentAt(b: seq<Slot>, c: seq<Slot>, s: u16, head: u64, length: nat, n: nat, chunks: nat, moved: seq<Packet>,
               k: nat)
    requires Resumed(b, c, Stamps(s, head, length), n, chunks, chunks, moved) && k < |moved|
    ensures c[Ahead(s, k)].buffer == moved[k]
    ensures SentAs(c[Ahead(s, k)], c[Ahead(s, k)], s, head, length, k)
  {
    LaterIs(head, length, k);
    assert Unfold(0);
    assert Moved(c[Target(s, k)], moved[k], Stamps(s, head, length), k);
  }

  /** Without a start time the packets sent again fill the player's buffer: the stream stands where a new chunk is due,
      by the clock that was read, and not two. */
  lemma ResumeCatchesUp(now: u64, latency: u32, length: nat, chunks: nat, head: u64, after: u64)
    requires 0 < length && chunks == latency / length && now >= latency + length
    requires head == (Client.First(0, 1, now, latency) - length) % TWO64
    requires after == (head + chunks * length) % TWO64
    ensures after + length <= now < after + 2 * length
  {
    FirstIs(0, 1, now, latency);
    Quotient(latency, length, chunks);
  }

  lemma Quotient(a: nat, d: nat, q: nat)
    requires d > 0 && q == a / d
    ensures q * d <= a < q * d + d
  {
    assert a == a / d * d + a % d;
  }

  /** After a pause that nothing was sent behind, in a backlog of successive packets, the pause is at the last one. */
  lemma PauseAtTheLast(b: seq<Slot>, s: u16, head: u64, length: nat)
    requires |b| == MAX_BACKLOG && length <= head && b[Back(s, 0)].timestamp == head - length
    ensures Lookback(b, s, head, 0) == 0
  {
    LookbackIs(b, s, head, 0);
  }

  // ---- Lost packets ------------------------------------------------------------------------------------------

  /** Packet number n is in its slot. */
  predicate Holds(b: seq<Slot>, n: nat)
    requires |b| == MAX_BACKLOG
  {
    n < 0x1_0000 && b[n % MAX_BACKLOG].number == n && b[n % MAX_BACKLOG].buffer != null
  }

  /** Every packet asked for that its slot still holds is sent, and each once. */
  lemma {:induction false} RequestedAll(b: seq<Slot>, lost: u16, count: nat)
    requires |b| == MAX_BACKLOG
    ensures forall n: nat | lost <= n < lost + count && Holds(b, n) :: Resent(n) in Requested(b, lost, count)
    ensures forall k :: 0 <= k < |Requested(b, lost, count)| ==>
              && Requested(b, lost, count)[k].Resent? && lost <= Requested(b, lost, count)[k].number < lost + count
              && Holds(b, Requested(b, lost, count)[k].number)
    ensures forall j, k :: 0 <= j < k < |Requested(b, lost, count)| ==>
              Requested(b, lost, count)[j].number < Requested(b, lost, count)[k].number
    decreases count
  {
    if count > 0 { RequestedAll(b, lost, count - 1); }
  }
}
