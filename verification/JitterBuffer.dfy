/** The streamer's packet buffer as it is: a ring of 2048 slots addressed by 16-bit sequence numbers. */
module JitterBuffer {
  import opened Words
  import opened JitterModel

  /** abuf_t. The time stamps do not matter to the order of packets. */
  datatype Entry = Entry(ready: bool, missed: bool, rtptime: u32, lastResend: u32, data: Frame)

  /** What slot number n shows of the received packets. */
  predicate Shows(e: Entry, got: map<int, Frame>, n: int) {
    (e.ready <==> n in got) && (n in got ==> e.data == got[n])
  }

  /** The slots of the BUFFER_FRAMES numbers from r on are ready exactly for the received packets, which are
      among them. */
  ghost predicate Coupled(s: seq<Entry>, r: int, got: map<int, Frame>) {
    && |s| == BUFFER_FRAMES
    && (forall n {:trigger Shows(s[Slot(n)], got, n)} :: r <= n < r + BUFFER_FRAMES ==> Shows(s[Slot(n)], got, n))
    && (forall n :: n in got ==> r <= n < r + BUFFER_FRAMES)
  }

  lemma SlotsDiffer(m: int, n: int)
    requires m != n && -BUFFER_FRAMES < m - n < BUFFER_FRAMES
    ensures Slot(m) != Slot(n)
  {}

  function Restrict(got: map<int, Frame>, r: int): map<int, Frame> { map k | k in got && k >= r :: got[k] }

  /** Freeing the slot at the read position and moving on. */
  lemma CoupledStep(s: seq<Entry>, r: int, got: map<int, Frame>, e: Entry)
    requires Coupled(s, r, got) && !e.ready
    ensures Coupled(s[Slot(r) := e], r + 1, got - {r})
  {
    var t := s[Slot(r) := e];
    forall n | r + 1 <= n < r + 1 + BUFFER_FRAMES ensures Shows(t[Slot(n)], got - {r}, n) {
      if n < r + BUFFER_FRAMES {
        SlotsDiffer(n, r);
        assert Shows(s[Slot(n)], got, n);
      }
    }
  }

  /** Storing packet n. */
  lemma CoupledPut(s: seq<Entry>, r: int, got: map<int, Frame>, n: int, e: Entry)
    requires Coupled(s, r, got) && r <= n < r + BUFFER_FRAMES && e.ready
    ensures Coupled(s[Slot(n) := e], r, got[n := e.data])
  {
    var t := s[Slot(n) := e];
    forall m | r <= m < r + BUFFER_FRAMES ensures Shows(t[Slot(m)], got[n := e.data], m) {
      if m != n {
        SlotsDiffer(m, n);
        assert Shows(s[Slot(m)], got, m);
      }
    }
  }

  lemma CoupledTouch(s: seq<Entry>, r: int, got: map<int, Frame>, i: nat, e: Entry)
    requires Coupled(s, r, got) && i < |s| && e.ready == s[i].ready && e.data == s[i].data
    ensures Coupled(s[i := e], r, got)
  {
    forall n | r <= n < r + BUFFER_FRAMES ensures Shows(s[i := e][Slot(n)], got, n) {
      assert Shows(s[Slot(n)], got, n);
    }
  }

  /** With nothing received, the window can be anywhere. */
  lemma CoupledEmpty(s: seq<Entry>, r: int, q: int)
    requires Coupled(s, r, map[])
    ensures Coupled(s, q, map[])
  {
    forall n | q <= n < q + BUFFER_FRAMES ensures Shows(s[Slot(n)], map[], n) {
      var m := r + (n - r) % BUFFER_FRAMES;
      SameSlot(r, n);
      assert Shows(s[Slot(m)], map[], m);
    }
  }

  lemma SameSlot(r: int, n: int)
    ensures Slot(r + (n - r) % BUFFER_FRAMES) == Slot(n)
  {
    var d := n - r;
    var q := d / BUFFER_FRAMES;
    assert r + d % BUFFER_FRAMES == n - BUFFER_FRAMES * q;
    var k := n / BUFFER_FRAMES;
    DivUnique(n - BUFFER_FRAMES * q, BUFFER_FRAMES, k - q, n % BUFFER_FRAMES);
  }

  /** A ready slot at the read position is the packet there. */
  lemma ReadyAt(s: seq<Entry>, r: int, got: map<int, Frame>)
    requires Coupled(s, r, got)
    ensures Shows(s[r % SEQ % BUFFER_FRAMES], got, r)
  {
    SlotOfWrapped(r);
    assert Shows(s[Slot(r)], got, r);
  }

  // ---- The discarding loop on the slots ------------------------------------------------------------

  function Ready(s: seq<Entry>): (b: seq<bool>)
    ensures |b| == |s|
  {
    seq(|s|, (i: nat) requires i < |s| => s[i].ready)
  }

  lemma CoupledWithin(s: seq<Entry>, r: int, w: int, got: map<int, Frame>)
    requires Coupled(s, r, got) && forall n :: n in got ==> r <= n <= w
    ensures ReadyWithin(Ready(s), r, w)
  {
    forall i | 0 <= i < BUFFER_FRAMES && Ready(s)[i] ensures exists n :: r <= n <= w && Slot(n) == i {
      var n := r + (i - r) % BUFFER_FRAMES;
      SameSlot(r, i);
      assert Shows(s[Slot(n)], got, n);
      assert r <= n <= w && Slot(n) == i;
    }
  }

  /** The STREAM-to-PLAY loop ends exactly when the announced number is not past the last packet written. */
  lemma DiscardEndsExactly(s: seq<Entry>, r: int, w: int, got: map<int, Frame>, first: int)
    requires Coupled(s, r, got) && (forall n :: n in got ==> r <= n <= w) && w in got
    requires r <= w < r + BUFFER_FRAMES - 1 && Near(r, first) && Near(w, first)
    ensures Stops(Ready(s), r % SEQ, first % SEQ) <==> first <= w
  {
    CoupledWithin(s, r, w, got);
    assert Shows(s[Slot(w)], got, w);
    DiscardStopsExactly(Ready(s), r, w, first);
  }

  class Streamer {
    const slots: array<Entry>
    var abRead: u16
    var abWrite: u16
    var firstSeqno: int
    var mode: Mode
    var skip: nat
    var silence: bool
    var pause: bool
    var silenceCount: nat
    var latency: nat
    const delay: nat
    const httpFill: bool
    const frameSize: nat
    /** The unbounded numbers behind ab_read, ab_write and first_seqno, and the packets received. */
    ghost var r: int
    ghost var w: int
    ghost var first: Option<int>
    ghost var got: map<int, Frame>

    ghost function Abs(): Ring
      reads this
    {
      Ring(mode, r, w, got, first, skip, silence, pause, silenceCount)
    }

    /** The read side of the representation. */
    ghost predicate Linked()
      reads this, slots
    {
      && slots.Length == BUFFER_FRAMES && frameSize > 0 && abRead == r % SEQ
      && firstSeqno == (match first case None => -1 case Some(n) => n % SEQ)
      && Coupled(slots[..], r, got)
    }

    ghost predicate Repr()
      reads this, slots
    {
      Linked() && abWrite == w % SEQ && Abs().Valid()
    }

    ghost function Cfg(): Config
      reads this
    {
      Config(delay, httpFill)
    }

    constructor (delay: nat, httpFill: bool, frameSize: nat, latency: nat, frame: Frame)
      requires frameSize > 0
      ensures Repr() && fresh(slots) && got == map[] && mode == Wait && first.None?
      ensures this.delay == delay && this.httpFill == httpFill && this.frameSize == frameSize && this.latency == latency
    {
      slots := new Entry[BUFFER_FRAMES](_ => Entry(false, false, 0, 0, frame));
      abRead, abWrite, firstSeqno, mode := 1, 0, -1, Wait;
      skip, silence, pause, silenceCount := 0, false, false, 0;
      this.latency, this.delay, this.httpFill, this.frameSize := latency, delay, httpFill, frameSize;
      r, w, first, got := 1, 0, None, map[];
    }

    // ---- Small steps ------------------------------------------------------------------------------

    /** audio_buffer[BUFIDX(i)].ready = false, for the wrapped number i of k. */
    method Free(i: u16, ghost k: int, ghost g: map<int, Frame>)
      requires slots.Length == BUFFER_FRAMES && i == k % SEQ && Coupled(slots[..], k, g)
      modifies slots
      ensures Coupled(slots[..], k + 1, g - {k})
    {
      SlotOfWrapped(k);
      var e := slots[i % BUFFER_FRAMES].(ready := false);
      CoupledStep(slots[..], k, g, e);
      slots[i % BUFFER_FRAMES] := e;
    }

    /** audio_buffer[BUFIDX(ab_read)].ready = false; ab_read++. */
    method Drop()
      requires Linked()
      modifies slots, `abRead, `r, `got
      ensures Linked() && r == old(r) + 1 && got == old(got) - {old(r)}
    {
      Free(abRead, r, got);
      WrapAdd(r, 1);
      abRead := (abRead + 1) % SEQ;
      r, got := r + 1, got - {r};
    }

    /** Changes what the order of packets does not depend on. */
    method Touch(seqno: u16, e: Entry)
      requires Linked() && e.ready == slots[seqno % BUFFER_FRAMES].ready && e.data == slots[seqno % BUFFER_FRAMES].data
      modifies slots
      ensures Linked()
    {
      CoupledTouch(slots[..], r, got, seqno % BUFFER_FRAMES, e);
      slots[seqno % BUFFER_FRAMES] := e;
    }

    method Store(seqno: u16, rtptime: u32, data: Frame, ghost n: int)
      requires Linked() && n % SEQ == seqno && r <= n < r + BUFFER_FRAMES
      modifies slots, `w, `got
      ensures Linked() && w == (if n > old(w) then n else old(w)) && got == old(got)[n := data]
    {
      SlotOfWrapped(n);
      CoupledPut(slots[..], r, got, n,
            slots[seqno % BUFFER_FRAMES].(ready := true, missed := false, rtptime := rtptime, data := data));
      slots[seqno % BUFFER_FRAMES] :=
            slots[seqno % BUFFER_FRAMES].(ready := true, missed := false, rtptime := rtptime, data := data);
      w, got := if n > w then n else w, got[n := data];
    }

    // ---- Leaving RTP_WAIT and RTP_STREAM ----------------------------------------------------------

    method Open(seqno: u16, ghost n: int)
      requires Repr() && n % SEQ == seqno && !Refused(Abs(), n)
      requires mode == Stream && first.Some? ==>
                 Near(r, first.value) && Near(w, first.value) && first.value <= w && Near(n + 1, first.value)
      modifies this, slots
      ensures Linked() && abWrite == w % SEQ && Abs() == Opened(old(Abs()), n) && latency == old(latency)
    {
      if mode == Wait {
        Restart(seqno, n);
      } else if mode == Stream && firstSeqno != -1 && SeqOrder(firstSeqno, (seqno + 1) % SEQ) {
        Discard();
        mode := Play;
        firstSeqno := -1;
        first := None;
      } else {
        if mode == Stream && first.Some? {
          SeqOrderIs(first.value, n + 1);
          WrapAdd(n, 1);
        }
      }
    }

    method Restart(seqno: u16, ghost n: int)
      requires Linked() && n % SEQ == seqno && got == map[]
      modifies this
      ensures Linked() && abWrite == w % SEQ && r == n && w == n - 1 && got == map[] && latency == old(latency)
      ensures skip == 0 && silence && mode == (if old(first).Some? then Play else Stream) && first.None?
      ensures pause == old(pause) && silenceCount == old(silenceCount)
    {
      abWrite := (seqno - 1) % SEQ;
      abRead := (abWrite + 1) % SEQ;
      skip := 0;
      silence := true;
      WrapAdd(n, -1);
      WrapAdd(n - 1, 1);
      CoupledEmpty(slots[..], r, n);
      if firstSeqno != -1 {
        mode := Play;
        firstSeqno := -1;
      } else {
        mode := Stream;
      }
      r, w, first := n, n - 1, None;
    }

    /** Drops packets until one is ready at or after the announced number. It terminates because the last
        packet written is such a one. */
    method Discard()
      requires Linked() && first.Some? && r <= w && w in got
      requires Near(r, first.value) && Near(w, first.value) && first.value <= w
      modifies slots, `abRead, `r, `got
      ensures Linked() && r == FirstFrom(old(got), if old(r) < first.value then first.value else old(r), w)
      ensures got == Restrict(old(got), r)
    {
      ghost var a, all := r, got;
      ghost var target := FirstFrom(got, if r < first.value then first.value else r, w);
      SeqOrderIs(r, first.value);
      assert got == Restrict(all, r);
      while SeqOrder(abRead, firstSeqno) || !slots[abRead % BUFFER_FRAMES].ready
        invariant Linked() && a <= r <= target && got == Restrict(all, r)
        invariant SeqOrder(abRead, firstSeqno) <==> r < first.value
        decreases target - r
      {
        ReadyAt(slots[..], r, got);
        assert r != target;
        assert Restrict(all, r) - {r} == Restrict(all, r + 1);
        Drop();
        SeqOrderIs(r, first.value);
      }
      ReadyAt(slots[..], r, got);
      assert r == target;
    }

    // ---- Arrival ----------------------------------------------------------------------------------

    /** Marks the packet's place, moves the pointers and stores it; false if it is too late. */
    method Insert(seqno: u16, rtptime: u32, data: Frame, now: u32, ghost n: int) returns (placed: bool)
      requires Linked() && abWrite == w % SEQ && n % SEQ == seqno && 0 <= w - r + 1 < BUFFER_FRAMES
      requires Near(w, n) && Near(r, n) && Near(r, n + 1) && delay < HALF
      requires n > w ==> n - HeldFrom(Cfg(), r, w, n) + 1 < BUFFER_FRAMES
      modifies slots, `abRead, `abWrite, `r, `w, `got
      ensures Linked() && abWrite == w % SEQ && placed == (n >= old(r))
      ensures !placed ==> r == old(r) && w == old(w) && got == old(got)
      ensures placed ==> r == HeldFrom(Cfg(), old(r), old(w), n) && w == if n > old(w) then n else old(w)
      ensures placed ==> got == (if r == old(r) then old(got) else Restrict(old(got), r))[n := data]
    {
      SeqOrderIs(w, n);
      SeqOrderIs(r, n + 1);
      WrapAdd(n, 1);
      NextIs(w, n);
      if seqno == (abWrite + 1) % SEQ {
        abWrite := seqno;
      } else if SeqOrder(abWrite, seqno) {
        Ahead(seqno, rtptime, now, n);
      } else if SeqOrder(abRead, (seqno + 1) % SEQ) {
        // recovered packet, not yet sent
      } else {
        return false;
      }
      Store(seqno, rtptime, data, n);
      return true;
    }

    /** A packet that leaves a gap: the read position may be on hold for too long, and the packets of the gap are
        asked for again. */
    method Ahead(seqno: u16, rtptime: u32, now: u32, ghost n: int)
      requires Linked() && n % SEQ == seqno && Near(r, n) && delay < HALF && n > w + 1 >= r
      modifies slots, `abRead, `abWrite, `r, `got
      ensures Linked() && abWrite == seqno && r == HeldFrom(Cfg(), old(r), w, n)
      ensures got == if r == old(r) then old(got) else Restrict(old(got), r)
    {
      if latency != 0 && SeqOrder(latency / frameSize % SEQ, (seqno - abWrite - 1) % SEQ) {
        abWrite := (seqno - latency / frameSize) % SEQ;
      }
      GapIs(r, n, delay);
      if delay != 0 && SeqOrder(delay % SEQ, (seqno - abRead) % SEQ) {
        Hold(seqno, n);
      }
      if mode == Play && ResendWanted((abWrite + 1) % SEQ, (seqno - 1) % SEQ) {
        MarkResent((abWrite + 1) % SEQ, seqno, rtptime, now);
      }
      abWrite := seqno;
    }

    /** Frees the slots up to the new read position. */
    method Hold(seqno: u16, ghost n: int)
      requires Linked() && n % SEQ == seqno && Near(r, n) && 0 < delay < n - r
      modifies slots, `abRead, `r, `got
      ensures Linked() && r == n - delay + 1 && got == Restrict(old(got), r)
    {
      ghost var all, last := got, n - delay + 1;
      var i := abRead;
      var stop := (seqno - delay + 1) % SEQ;
      WrapAdd(n, 1 - delay);
      ghost var a := r;
      ghost var k := r;
      assert got == Restrict(all, r);
      SeqOrderIs(k, last);
      while SeqOrder(i, stop)
        invariant a <= k <= last && i == k % SEQ && slots.Length == BUFFER_FRAMES
        invariant Coupled(slots[..], k, Restrict(all, k))
        invariant SeqOrder(i, stop) <==> k < last
        decreases last - k
      {
        Free(i, k, Restrict(all, k));
        assert Restrict(all, k) - {k} == Restrict(all, k + 1);
        WrapAdd(k, 1);
        i := (i + 1) % SEQ;
        k := k + 1;
        SeqOrderIs(k, last);
      }
      abRead := stop;
      r, got := last, Restrict(all, last);
    }

    method MarkResent(from: u16, seqno: u16, rtptime: u32, now: u32)
      requires Linked()
      modifies slots
      ensures Linked()
    {
      var i: u16 := from;
      while SeqOrder(i, seqno)
        invariant Linked()
        decreases (seqno - i) % SEQ
      {
        Touch(i, slots[i % BUFFER_FRAMES].(rtptime := ResendTime(rtptime, seqno - i, frameSize), lastResend := now));
        CountDown(i, seqno);
        i := (i + 1) % SEQ;
      }
    }

    /** buffer_put_packet; n is the packet's unbounded number. */
    method PutPacket(seqno: u16, rtptime: u32, data: Frame, now: u32, ghost n: int)
      requires Repr() && n % SEQ == seqno && CanPut(Cfg(), Abs(), n, data)
      modifies this, slots
      ensures Repr() && Abs() == Put(Cfg(), old(Abs()), n, data)
    {
      ghost var a := Abs();
      PutValid(Cfg(), a, n, data);
      if a.first.Some? { SeqOrderIs(n, a.first.value); }
      if firstSeqno != -1 && SeqOrder(seqno, firstSeqno) {
        return;
      }
      OpenedValid(a, n);
      Open(seqno, n);
      Accept(seqno, rtptime, data, now, n);
    }

    method Accept(seqno: u16, rtptime: u32, data: Frame, now: u32, ghost n: int)
      requires Linked() && abWrite == w % SEQ && n % SEQ == seqno && 0 <= w - r + 1 < BUFFER_FRAMES
      requires Near(w, n) && Near(r, n) && Near(r, n + 1) && delay < HALF
      requires n > w ==> n - HeldFrom(Cfg(), r, w, n) + 1 < BUFFER_FRAMES
      modifies this, slots
      ensures Linked() && abWrite == w % SEQ
      ensures Abs() == Accepted(Cfg(), Unpaused(old(Abs()), n), n, data)
    {
      var announced := firstSeqno % SEQ;
      if pause && SeqOrder(announced, seqno) { pause := false; }
      ghost var b := Abs();
      InsertedIs(Cfg(), b, n, data);
      var placed := Insert(seqno, rtptime, data, now, n);
      assert placed == !TooLate(b, n);
      if placed {
        assert Abs() == Inserted(Cfg(), b, n, data);
        Settle(data);
      }
    }

    /** Silence at the beginning is discarded, one packet for one. */
    method Settle(data: Frame)
      requires Linked() && abWrite == w % SEQ
      modifies this, slots
      ensures Linked() && abWrite == w % SEQ && Abs() == Settled(old(Abs()), data)
    {
      var silent := silence && IsSilence(data);
      if silent && abWrite - abRead > 1 {
        Drop();
      }
      if mode == Play && silence && !silent {
        silence := false;
      }
    }

    // ---- Playing ----------------------------------------------------------------------------------

    /** Asks again for missing packets ahead of the read position; only time stamps change. */
    method Explore(now: u32, fill: nat)
      requires Linked() && abWrite == w % SEQ && 0 <= w - r + 1 == fill < BUFFER_FRAMES
      modifies slots
      ensures Linked()
    {
      var step := if fill / 64 > 1 then fill / 64 else 1;
      var i, missing := 0, 0;
      SeqOrderIs(r, w);
      while SeqOrder((abRead + i) % SEQ, abWrite)
        invariant Linked() && 0 <= i <= BUFFER_FRAMES + 128
        invariant SeqOrder((abRead + i) % SEQ, abWrite) <==> r + i < w
        decreases w - r - i
      {
        var at := (abRead + i) % SEQ;
        var e := slots[at % BUFFER_FRAMES];
        var recent := (now - e.lastResend) % TWO32 <= 150;
        if missing != 0 && (e.ready || recent) {
          if !ResendWanted(missing % SEQ, (abRead + i - 1) % SEQ) { break; }
          missing := 0;
          i := i + step - 1;
        } else if !e.ready && !recent {
          if missing == 0 { missing := abRead + i; }
          Touch(at, e.(lastResend := now));
        }
        i := i + step;
        WrapAdd(r, i);
        SeqOrderIs(r + i, w);
      }
    }

    /** Skips what is left over from the drift correction. */
    method SkipLate()
      requires Repr() && mode == Play
      modifies slots, `abRead, `r, `got, `skip
      ensures Repr() && Abs() == Skipped(old(Abs()))
    {
      ghost var a := Abs();
      SeqOrderIs(r, w);
      while skip > 0 && SeqOrder(abRead, abWrite)
        invariant Repr() && Skipped(Abs()) == Skipped(a)
        invariant SeqOrder(abRead, abWrite) <==> r < w
        decreases skip
      {
        Drop();
        skip := skip - 1;
        SeqOrderIs(r, w);
      }
    }

    /** _buffer_get_frame: synced and early say what the clocks say. None is a null pointer. */
    method GetFrame(synced: bool, early: bool, now: u32, silenceFrame: Frame)
          returns (frame: Option<Frame>, ghost out: Output)
      requires Repr() && IsSilence(silenceFrame)
      modifies this, slots
      ensures Repr() && (Abs(), out) == Get(Cfg(), old(Abs()), synced, early)
      ensures match out case Nothing => frame.None? case Silence => frame.Some? && IsSilence(frame.value)
            case Packet(_, f) => frame == Some(f)
    {
      if mode != Play || !synced {
        return None, Nothing;
      }
      if silenceCount > 0 {
        silenceCount := silenceCount - 1;
        return Some(silenceFrame), Silence;
      }
      if pause {
        return Some(silenceFrame), Silence;
      }
      ghost var a := Abs();
      SkipLate();
      var fill := (abWrite - abRead + 1) % SEQ;
      FillIs(r, w);
      Explore(now, fill);
      frame, out := Take(early, fill);
    }

    /** The frame at the read position, or silence in its place. */
    method Take(early: bool, fill: nat) returns (frame: Option<Frame>, ghost out: Output)
      requires Repr() && mode == Play && fill == w - r + 1
      modifies this, slots
      ensures Repr() && (Abs(), out) == Taken(Cfg(), old(Abs()), early)
      ensures match out case Nothing => frame.None? case Silence => frame.Some? && IsSilence(frame.value)
            case Packet(_, f) => frame == Some(f)
    {
      var at := abRead % BUFFER_FRAMES;
      if fill == 0 {
        var before := slots[(abRead - 1) % SEQ % BUFFER_FRAMES];
        Touch(abRead, slots[at].(rtptime := (before.rtptime + frameSize) % TWO32));
      }
      ReadyAt(slots[..], r, got);
      var e := slots[at];
      if !e.ready && (early || (fill == 0 && !httpFill)) {
        return None, Nothing;
      }
      WrapAdd(w, 1);
      if fill == 0 {
        abWrite := (abWrite + 1) % SEQ;
        w := w + 1;
      } else if !e.ready {
        Touch(abRead, e.(missed := true));
      }
      ghost var n := r;
      if fill == 0 || !e.ready {
        frame, out := Some(seq(2 * frameSize, _ => 0)), Silence;
      } else {
        frame, out := Some(e.data), Packet(n, e.data);
      }
      Drop();
      if n !in old(got) { assert old(got) - {n} == old(got); }
    }

    // ---- Commands ---------------------------------------------------------------------------------

    /** raopst_flush; n is the unbounded number behind seqno. */
    method Flush(seqno: u16, quiet: bool, ghost n: int) returns (flushed: bool)
      requires Repr() && n % SEQ == seqno
      modifies this, slots
      ensures Repr() && Abs() == Flushed(old(Abs()), n, quiet)
      ensures flushed == (quiet || old(mode) == Play)
    {
      firstSeqno := seqno;
      first := Some(n);
      if quiet {
        pause := true;
        return true;
      } else if mode == Play {
        Reset();
        mode := Wait;
        abRead := (abWrite + 1) % SEQ;
        WrapAdd(w, 1);
        CoupledEmpty(slots[..], r, w + 1);
        r := w + 1;
        return true;
      }
      return false;
    }

    /** buffer_reset. */
    method Reset()
      requires Linked()
      modifies slots, `got
      ensures Linked() && got == map[]
    {
      for i := 0 to BUFFER_FRAMES
        invariant slots.Length == BUFFER_FRAMES && forall j :: 0 <= j < i ==> !slots[j].ready
      {
        slots[i] := slots[i].(ready := false);
      }
      got := map[];
    }

    /** raopst_record, on a buffer that holds nothing. */
    method Record(seqno: u16, rtptime: u32, ghost n: int)
      requires Repr() && got == map[] && n % SEQ == seqno
      modifies `firstSeqno, `first, `mode
      ensures Repr() && Abs() == Recorded(old(Abs()), if seqno != 0 || rtptime != 0 then Some(n) else None)
    {
      if seqno != 0 || rtptime != 0 {
        firstSeqno, first := seqno, Some(n);
      } else {
        firstSeqno, first := -1, None;
      }
      mode := Wait;
    }

    /** What http_thread_func and handle_http do to the count of silent frames when a GET has been answered. */
    method Answer(nothingSent: bool, resent: bool)
      requires Repr()
      modifies `silenceCount
      ensures Repr() && Abs() == Answered(Cfg(), old(Abs()), nothingSent, resent)
    {
      if nothingSent {
        var fill := (abWrite - abRead + 1) % SEQ;
        FillIs(r, w);
        silenceCount := SilenceFor(delay, fill);
      } else if resent {
        silenceCount := 0;
      }
    }

    /** The drift correction when frames are sent too slowly. */
    method RemoveFrame()
      requires Repr()
      modifies slots, `abRead, `r, `got, `skip
      ensures Repr() && Abs() == Trimmed(old(Abs()))
    {
      SeqOrderIs(r, w);
      if SeqOrder(abRead, abWrite) {
        Drop();
      } else {
        skip := skip + 1;
      }
    }
  }

  /** A short run after which the next packet in sequence sends the streamer into a loop that never ends: packet 100 is
      the first packet, then FLUSH announces 101, then packet 101 arrives, which is looked for before it is stored. */
  method RunIntoLoop(delay: nat, httpFill: bool, frameSize: nat, latency: nat, frame: Frame, now: u32)
    returns (st: Streamer)
    requires frameSize > 0 && delay < HALF
    ensures fresh(st) && st.mode == Stream && st.firstSeqno == 101
    ensures !SeqOrder(101, st.firstSeqno) && SeqOrder(st.firstSeqno, 101 + 1)
    ensures st.slots.Length == BUFFER_FRAMES && !Stops(Ready(st.slots[..]), st.abRead, 101)
  {
    st := new Streamer(delay, httpFill, frameSize, latency, frame);
    FirstPacket(st.Cfg(), st.Abs(), 100, frame);
    st.PutPacket(100, 0, frame, now, 100);
    var flushed := st.Flush(101, false, 101);
    assert st.r == 100 && st.w == 100 && 100 in st.got;
    DiscardEndsExactly(st.slots[..], st.r, st.w, st.got, 101);
  }

  /** The silence sent first, for a fill that the source reads as a signed 16-bit number. */
  function SilenceFor(delay: nat, fill: nat): nat {
    if fill >= HALF then 0 else delay - if delay < fill then delay else fill
  }

  /** Whatever its number, the first packet of a session can be put. */
  lemma FirstPacket(c: Config, a: Ring, n: int, f: Frame)
    requires a.Valid() && a.mode == Wait && a.first.None? && c.delay < HALF
    ensures CanPut(c, a, n, f)
  {
    var b := Opened(a, n);
    assert b.r == n && b.w == n - 1;
    assert Inserted(c, b, n, f).r == n;
  }

  lemma FillIs(r: int, w: int)
    requires 0 <= w - r + 1 < BUFFER_FRAMES
    ensures (w % SEQ - r % SEQ + 1) % SEQ == w - r + 1
  {
    assert w % SEQ - r % SEQ + 1 == (w - r + 1) + SEQ * (r / SEQ - w / SEQ);
    ModShift(w - r + 1, r / SEQ - w / SEQ);
  }

  /** Where the read position is after a packet that leaves a gap: at most delay packets back. */
  function HeldFrom(c: Config, r: int, w: int, n: int): int {
    if n > w + 1 && c.delay != 0 && n - r > c.delay then n - c.delay + 1 else r
  }

  lemma InsertedIs(c: Config, b: Ring, n: int, f: Frame)
    requires b.r <= b.w + 1 && forall k :: k in b.got ==> b.r <= k
    ensures var q := HeldFrom(c, b.r, b.w, n);
            Inserted(c, b, n, f) == b.(r := q, w := if n > b.w then n else b.w,
                                       got := (if q == b.r then b.got else Restrict(b.got, q))[n := f])
  {
    var q := HeldFrom(c, b.r, b.w, n);
    if n > b.w + 1 && c.delay != 0 && n - b.r > c.delay {
      assert b.From(q).got == Restrict(b.got, q);
    }
  }

  function ResendTime(rtptime: u32, back: int, frameSize: nat): u32 { (rtptime - back * frameSize) % TWO32 }

  /** rtp_request_resend declines empty and silly ranges; the difference is not wrapped. */
  predicate ResendWanted(first: u16, last: u16) {
    !(SeqOrder(last, first) || last - first > BUFFER_FRAMES / 2)
  }

  lemma NextIs(w: int, n: int)
    requires Near(w, n)
    ensures n % SEQ == (w % SEQ + 1) % SEQ <==> n == w + 1
  {
    WrapAdd(w, 1);
    if n % SEQ == (w + 1) % SEQ {
      var d := n - (w + 1);
      assert n == SEQ * (n / SEQ) + n % SEQ && w + 1 == SEQ * ((w + 1) / SEQ) + n % SEQ;
      assert d == SEQ * (n / SEQ - (w + 1) / SEQ);
    }
  }

  lemma WrapAdd(x: int, d: int)
    ensures (x % SEQ + d) % SEQ == (x + d) % SEQ
  {
    ModShift(x % SEQ + d, x / SEQ);
  }

  /** The hold test on wrapped numbers. */
  lemma GapIs(r: int, n: int, delay: nat)
    requires Near(r, n) && r <= n && delay < HALF
    ensures SeqOrder(delay % SEQ, (n % SEQ - r % SEQ) % SEQ) <==> delay < n - r
  {
    assert n % SEQ - r % SEQ == (n - r) + SEQ * (r / SEQ - n / SEQ);
    ModShift(n - r, r / SEQ - n / SEQ);
  }

  lemma CountDown(i: u16, stop: u16)
    requires SeqOrder(i, stop)
    ensures 0 <= (stop - (i + 1) % SEQ) % SEQ < (stop - i) % SEQ
  {
    var d := (stop - i) % SEQ;
    assert stop - (i + 1) % SEQ == (stop - i) - 1 + (if i + 1 == SEQ then SEQ else 0);
    ModShift(d - 1, (stop - i) / SEQ + (if i + 1 == SEQ then 1 else 0));
  }
}
