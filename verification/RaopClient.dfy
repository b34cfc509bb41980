/** The client's state machine, pacing and retransmit backlog. Every method is one section under the mutex; its
    parameters are what the clock, the caller and the network bring. */
module RaopClient {
  import opened Words
  import opened ClientLog

  const MAX_BACKLOG := 512
  const RAOP_LATENCY_MIN := 11025

  /** An allocated packet: the two sequence bytes and the time stamp of its header, and the retransmit header in
      front of it. */
  class Packet {
    var seq0: u8
    var seq1: u8
    var timestamp: u32
    var marker: bool
    var resend: bool
    const payload: seq<u8>
    /** free() has been called. */
    ghost var freed: bool

    constructor (payload: seq<u8>)
      ensures this.payload == payload && !freed
    {
      seq0, seq1, timestamp, marker, resend := 0, 0, 0, false, false;
      this.payload := payload;
      freed := false;
    }

    function Number(): u16
      reads this
    {
      Join(seq0, seq1)
    }
  }

  function Join(high: u8, low: u8): u16 { 0x100 * (high as int) + low }

  datatype Slot = Slot(number: u16, timestamp: u64, size: nat, buffer: Packet?)

  /** A slot is empty or holds a live packet of its own index, stamped as the slot says. */
  ghost predicate SlotOk(s: Slot, i: nat, live: set<Packet>)
    reads live
  {
    s.buffer != null ==>
      && s.buffer in live && !s.buffer.freed && s.number % MAX_BACKLOG == i
      && s.buffer.Number() == s.number && s.buffer.timestamp == s.timestamp % TWO32
  }

  predicate Distinct(b: seq<Slot>, i: nat, j: nat)
    requires i < |b| && j < |b|
  {
    i != j && b[i].buffer != null ==> b[i].buffer != b[j].buffer
  }

  ghost predicate BacklogOk(b: seq<Slot>, live: set<Packet>)
    reads live
  {
    && |b| == MAX_BACKLOG
    && (forall i {:trigger SlotOk(b[i], i, live)} :: 0 <= i < |b| ==> SlotOk(b[i], i, live))
    && (forall i, j {:trigger Distinct(b, i, j)} :: 0 <= i < |b| && 0 <= j < |b| ==> Distinct(b, i, j))
  }

  predicate Unstored(b: seq<Slot>, p: Packet) { forall i :: 0 <= i < |b| ==> b[i].buffer != p }

  /** A packet not yet stored anywhere can be added to the live ones. */
  lemma Grown(b: seq<Slot>, live: set<Packet>, p: Packet)
    requires BacklogOk(b, live) && p !in live
    ensures BacklogOk(b, live + {p})
    ensures Unstored(b, p)
  {
    forall i | 0 <= i < |b| ensures SlotOk(b[i], i, live + {p}) && b[i].buffer != p { assert SlotOk(b[i], i, live); }
  }

  class Client {
    var state: RState
    const backlog: array<Slot>
    var firstPkt: bool
    var headTs: u64
    var pauseTs: u64
    var startTs: u64
    var firstTs: u64
    var flushing: bool
    var seqNumber: u16
    var latencyFrames: u32
    const chunkLen: nat
    var audioOpen: bool
    var retransmit: nat
    /** All packets allocated so far, and the log of what was done. */
    ghost var live: set<Packet>
    ghost var log: seq<Event>
    /** The time at which frames were last accepted and not sent since. */
    ghost var credit: Option<u64>

    ghost predicate Inv()
      reads this, backlog, live
    {
      && backlog.Length == MAX_BACKLOG && 0 < chunkLen <= 4096
      && BacklogOk(backlog[..], live)
      && Protocol() && Paced()
    }

    /** What the log allows agrees with the flags. */
    ghost predicate Protocol()
      reads this
    {
      && Watched(log, Flags())
      && (pauseTs != 0 ==> flushing)
    }

    ghost function Flags(): Monitor
      reads this
    {
      Monitor(state == Streaming, false, firstPkt)
    }

    ghost predicate Paced()
      reads this
    {
      credit.Some? ==> Plus(headTs, chunkLen) <= credit.value
    }

    constructor (seqNumber: u16, chunkLen: nat, latencyFrames: u32)
      requires 0 < chunkLen <= 4096
      ensures Inv() && fresh(backlog) && state == Down && log == [] && live == {} && credit.None?
    {
      backlog := new Slot[MAX_BACKLOG](_ => Slot(0, 0, 0, null));
      state, firstPkt, flushing, audioOpen := Down, false, false, false;
      headTs, pauseTs, startTs, firstTs := 0, 0, 0, 0;
      this.seqNumber, this.chunkLen, this.latencyFrames, retransmit := seqNumber, chunkLen, latencyFrames, 0;
      live, log, credit := {}, [], None;
      new;
      WatchedIs(log, Flags());
    }

    /** In every state the protocol allows what has been done, and the flags say what may come next. */
    lemma Allowed()
      requires Inv()
      ensures Watch(log) == Some(Monitor(state == Streaming, false, firstPkt))
    {
      WatchedIs(log, Flags());
    }

    function Latency(): u32
      reads this
    {
      (latencyFrames + RAOP_LATENCY_MIN) % TWO32
    }

    // ---- Control sections ---------------------------------------------------------------------------

    /** raopcl_pause; its test of the state is made before the section and may be out of date. */
    method Pause()
      requires Inv()
      modifies `pauseTs, `flushing
      ensures Inv() && pauseTs == headTs && flushing
    {
      pauseTs := headTs;
      flushing := true;
    }

    method StartAt(ts: u64)
      requires Inv()
      modifies `startTs
      ensures Inv() && startTs == ts
    {
      startTs := ts;
    }

    method Stop()
      requires Inv()
      modifies `pauseTs, `flushing
      ensures Inv() && pauseTs == 0 && flushing
    {
      flushing := true;
      pauseTs := 0;
    }

    ghost method Log(e: Event, m: Monitor)
      requires Watched(log, m) && Watch1(m, e).Some?
      modifies `log
      ensures log == old(log) + [e] && Watched(log, Watch1(m, e).value)
    {
      WatchedNext(log, m, e);
      log := log + [e];
    }

    ghost method Leave()
      requires Protocol()
      modifies `log
      ensures log == old(log) + [Left] && Watched(log, Monitor(false, false, firstPkt))
    {
      Log(Left, Flags());
    }

    /** The first section of raopcl_flush: the numbers up to which to flush. */
    method FlushBegin() returns (number: u16, timestamp: u32)
      requires Inv()
      modifies `state, `retransmit, `log
      ensures Inv() && state == Flushing && number == seqNumber && timestamp == headTs % TWO32
    {
      Log(Left, Flags());
      state := Flushing;
      retransmit := 0;
      number := seqNumber;
      timestamp := headTs % TWO32;
    }

    /** The second section of raopcl_flush, after the RTSP exchange. */
    method FlushEnd()
      requires Inv()
      modifies `state, `log
      ensures Inv() && state == Flushed
    {
      Log(Left, Flags());
      state := Flushed;
    }

    /** The end of raopcl_connect. */
    method Connected()
      requires Inv()
      modifies `state, `log
      ensures Inv() && state == if old(state) == Down then Flushed else old(state)
    {
      if state == Down { state := Flushed; }
    }

    /** raopcl_disconnect and raopcl_repair. */
    method Disconnect()
      requires Inv()
      modifies `state, `log
      ensures Inv() && state == Down
    {
      Log(Left, Flags());
      state := Down;
    }

    method Sanitize()
      requires Inv()
      modifies `state, `headTs, `pauseTs, `startTs, `firstTs, `firstPkt, `flushing, `log, `credit
      ensures Inv() && state == Down && !firstPkt && flushing
      ensures headTs == 0 && pauseTs == 0 && startTs == 0 && firstTs == 0
    {
      Forget();
      headTs, pauseTs, startTs, firstTs := 0, 0, 0, 0;
      flushing := true;
      credit := None;
    }

    method Forget()
      requires Protocol()
      modifies `state, `firstPkt, `log
      ensures Protocol() && state == Down && !firstPkt
    {
      Leave();
      Log(Cleared, Monitor(false, false, firstPkt));
      state := Down;
      firstPkt := false;
    }

    // ---- Packets ------------------------------------------------------------------------------------

    method SendFirstSync()
      requires state == Streaming && Watched(log, Monitor(true, true, firstPkt))
      modifies `log
      ensures log == old(log) + [FirstSync(headTs)] && Watched(log, Flags())
    {
      Log(FirstSync(headTs), Monitor(true, true, firstPkt));
    }

    /** The periodic sync; its test of the state is made before the section. */
    method PeriodicSync()
      requires Inv()
      modifies `log
      ensures Inv() && log == old(log) + [Sync(headTs)]
    {
      Log(Sync(headTs), Flags());
    }

    /** _raopcl_send_audio: the gate. */
    method SendAudio(packet: Packet) returns (sent: bool)
      requires Protocol()
      modifies `log
      ensures Protocol() && sent == (audioOpen && state == Streaming)
      ensures log == old(log) + if sent then [Audio(packet.Number())] else []
    {
      if !audioOpen || state != Streaming { return false; }
      Log(Audio(packet.Number()), Flags());
      return true;
    }

    /** Numbers, stamps and marks a packet for seqNumber and headTs. */
    method Build(packet: Packet)
      requires Protocol() && BacklogOk(backlog[..], live)
      requires Unstored(backlog[..], packet)
      modifies packet, `firstPkt, `log
      ensures BacklogOk(backlog[..], live)
      ensures Protocol() && !firstPkt && packet.freed == old(packet.freed)
      ensures packet.Number() == seqNumber && packet.timestamp == headTs % TWO32 && packet.marker == old(firstPkt)
      ensures log == old(log) + [Built(seqNumber, headTs, old(firstPkt))]
    {
      ghost var b := backlog[..];
      packet.seq0 := seqNumber / 0x100;
      packet.seq1 := seqNumber % 0x100;
      packet.timestamp := headTs % TWO32;
      packet.marker := firstPkt;
      forall i | 0 <= i < MAX_BACKLOG ensures SlotOk(b[i], i, live) { assert old(SlotOk(backlog[i], i, live)); }
      Log(Built(seqNumber, headTs, firstPkt), Flags());
      firstPkt := false;
    }

    /** Puts a packet into the slot of its number, freeing what was there. */
    method Place(packet: Packet, size: nat)
      requires BacklogOk(backlog[..], live) && packet in live && !packet.freed
      requires Unstored(backlog[..], packet)
      requires packet.Number() == seqNumber && packet.timestamp == headTs % TWO32
      modifies backlog, live`freed
      ensures BacklogOk(backlog[..], live) && !packet.freed
      ensures backlog[..] == old(backlog[..])[seqNumber % MAX_BACKLOG := Slot(seqNumber, headTs, size, packet)]
    {
      ghost var b := backlog[..];
      var n := seqNumber % MAX_BACKLOG;
      var previous := backlog[n].buffer;
      assert SlotOk(b[n], n, live);
      if previous != null { previous.freed := true; }
      backlog[n] := Slot(seqNumber, headTs, size, packet);
      ghost var c := backlog[..];
      forall i | 0 <= i < MAX_BACKLOG ensures SlotOk(c[i], i, live) {
        assert old(SlotOk(backlog[i], i, live));
        assert Distinct(b, n, i);
      }
      forall i, j | 0 <= i < MAX_BACKLOG && 0 <= j < MAX_BACKLOG ensures Distinct(c, i, j) {
        assert Distinct(b, i, j);
      }
    }

    /** raopcl_send_chunk, from the mutex on; alloc is false when no memory was left. */
    method SendChunk(payload: seq<u8>, alloc: bool) returns (ok: bool)
      requires Inv()
      modifies this, backlog, live
      ensures Inv() && ok == alloc
      ensures state == if old(state) == Flushed then Streaming else old(state)
      ensures headTs == if alloc then Plus(old(headTs), chunkLen) else old(headTs)
      ensures seqNumber == if alloc then (old(seqNumber) + 1) % 0x1_0000 else old(seqNumber)
      ensures alloc ==>
                var s := backlog[seqNumber % MAX_BACKLOG];
                && s == Slot(seqNumber, old(headTs), |payload|, s.buffer)
                && s.buffer != null && fresh(s.buffer) && s.buffer.payload == payload
                && backlog[..] == old(backlog[..])[seqNumber % MAX_BACKLOG := s]
      ensures !alloc ==> unchanged(backlog)
      ensures log == old(log) + (if old(state) == Flushed then [Entry(Flushed), FirstSync(old(headTs))] else [])
                   + if alloc then Sending(old(state) == Flushed || old(firstPkt), old(headTs)) else []
      ensures alloc && old(credit).Some? ==> headTs <= old(credit).value
    {
      StartLate();
      if alloc { SendNew(payload); }
      return alloc;
    }

    /** Streaming that AcceptFrames has not started. */
    method StartLate()
      requires Inv()
      modifies `state, `firstPkt, `log
      ensures Inv() && state == (if old(state) == Flushed then Streaming else old(state))
      ensures firstPkt == (old(state) == Flushed || old(firstPkt))
      ensures log == old(log) + if old(state) == Flushed then [Entry(Flushed), FirstSync(headTs)] else []
    {
      if state == Flushed {
        EnterStreaming();
        SendFirstSync();
      }
    }

    /** A new packet for the payload. */
    method SendNew(payload: seq<u8>)
      requires Inv()
      modifies backlog, live, `live, `seqNumber, `headTs, `firstPkt, `log, `credit
      ensures Inv() && credit.None?
      ensures headTs == Plus(old(headTs), chunkLen) && seqNumber == (old(seqNumber) + 1) % 0x1_0000
      ensures var s := backlog[seqNumber % MAX_BACKLOG];
              && s == Slot(seqNumber, old(headTs), |payload|, s.buffer)
              && s.buffer != null && fresh(s.buffer) && s.buffer.payload == payload
              && backlog[..] == old(backlog[..])[seqNumber % MAX_BACKLOG := s]
      ensures log == old(log) + Sending(old(firstPkt), old(headTs))
    {
      credit := None;
      seqNumber := (seqNumber + 1) % 0x1_0000;
      var packet := Allocate(payload);
      Emit(packet, |payload|);
    }

    method Allocate(payload: seq<u8>) returns (packet: Packet)
      requires BacklogOk(backlog[..], live)
      modifies `live
      ensures fresh(packet) && packet.payload == payload && !packet.freed && live == old(live) + {packet}
      ensures BacklogOk(backlog[..], live) && Unstored(backlog[..], packet)
    {
      packet := new Packet(payload);
      Grown(backlog[..], live, packet);
      live := live + {packet};
    }

    /** What is logged of a packet: it is built, and sent when the gate is open. */
    ghost function Sending(marker: bool, stamp: u64): seq<Event>
      reads this
    {
      [Built(seqNumber, stamp, marker)] + if audioOpen && state == Streaming then [Audio(seqNumber)] else []
    }

    /** Into RAOP_STREAMING; the first sync is now due. */
    method EnterStreaming()
      requires Protocol() && state == Flushed
      modifies `state, `firstPkt, `log
      ensures state == Streaming && firstPkt && Watched(log, Monitor(true, true, true))
      ensures log == old(log) + [Entry(Flushed)]
    {
      Log(Entry(state), Flags());
      firstPkt := true;
      state := Streaming;
    }

    /** A packet with the current number and time stamp goes into the backlog and to the audio port. */
    method Emit(packet: Packet, size: nat)
      requires Protocol() && BacklogOk(backlog[..], live) && packet in live && !packet.freed
      requires Unstored(backlog[..], packet)
      modifies backlog, live`freed, packet, `firstPkt, `headTs, `log
      ensures Protocol() && BacklogOk(backlog[..], live)
      ensures headTs == Plus(old(headTs), chunkLen) && log == old(log) + Sending(old(firstPkt), old(headTs))
      ensures backlog[..] == old(backlog[..])[seqNumber % MAX_BACKLOG := Slot(seqNumber, old(headTs), size, packet)]
    {
      Build(packet);
      Place(packet, size);
      headTs := Plus(headTs, chunkLen);
      var _ := SendAudio(packet);
    }

    // ---- Accepting frames ---------------------------------------------------------------------------

    function Chunks(): u16
      requires chunkLen > 0
      reads this
    {
      Latency() / chunkLen % 0x1_0000
    }

    /** A flush is pending, not yet done, and there is time to wait for it. */
    predicate Waits(now1: u64)
      reads this
    {
      flushing && state != Flushed && (startTs == 0 || startTs > Plus(now1, Latency()))
    }

    /** raopcl_accept_frames; the two times are those of its two readings of the clock. */
    method AcceptFrames(now1: u64, now2: u64) returns (accept: bool)
      requires Inv()
      requires flushing && pauseTs != 0 ==> Lookback(backlog[..], seqNumber, pauseTs, 0) + Chunks() < MAX_BACKLOG
      modifies this, backlog, live
      ensures Inv() && live == old(live)
      ensures accept <==> !old(Waits(now1)) && Plus(headTs, chunkLen) <= now2
      ensures accept ==> credit == Some(now2)
      ensures old(Waits(now1)) ==> unchanged(this) && unchanged(backlog)
      ensures !old(Waits(now1)) ==> !flushing && pauseTs == 0
      ensures !old(flushing) ==> unchanged(backlog) && unchanged(`state, `headTs, `seqNumber, `firstTs, `startTs, `log)
      ensures old(flushing && !Waits(now1)) ==>
                && startTs == 0 && state == (if old(state) == Flushed then Streaming else old(state))
                && firstTs == First(old(startTs), old(pauseTs), now1, old(Latency()))
                && if old(pauseTs) == 0 then headTs == firstTs && seqNumber == old(seqNumber) && unchanged(backlog)
                   else SentAgain(old(backlog[..]), old(seqNumber), old(pauseTs), (firstTs - chunkLen) % TWO64,
                                  old(Chunks()))
    {
      if flushing {
        if state != Flushed && (startTs == 0 || startTs > Plus(now1, Latency())) {
          return false;
        }
        Restart(now1);
        pauseTs, startTs := 0, 0;
        flushing := false;
      }
      var now := if pauseTs != 0 then pauseTs else now2;
      accept := now >= Plus(headTs, chunkLen);
      if accept { credit := Some(now); }
    }

    /** first_ts: when playing starts. Without a start time it is now, or for a pause as far back as the latency. */
    static function First(startTs: u64, pauseTs: u64, now1: u64, latency: u32): u64 {
      if startTs != 0 then startTs else if pauseTs == 0 then now1 else (now1 - latency) % TWO64
    }

    /** The restart proper, with or without packets to send again. */
    method Restart(now1: u64)
      requires Inv() && flushing
            && (pauseTs != 0 ==> Lookback(backlog[..], seqNumber, pauseTs, 0) + Chunks() < MAX_BACKLOG)
      modifies this, backlog, live
      ensures backlog.Length == MAX_BACKLOG && BacklogOk(backlog[..], live) && live == old(live)
      ensures flushing && Protocol() && credit.None?
      ensures state == if old(state) == Flushed then Streaming else old(state)
      ensures firstTs == First(old(startTs), old(pauseTs), now1, old(Latency()))
      ensures if old(pauseTs) == 0 then headTs == firstTs && seqNumber == old(seqNumber) && unchanged(backlog)
              else SentAgain(old(backlog[..]), old(seqNumber), old(pauseTs), (firstTs - chunkLen) % TWO64,
                             old(Chunks()))
    {
      credit := None;
      if pauseTs == 0 {
        var first := if startTs != 0 then startTs else now1;
        Begin(first, first);
      } else {
        var first := if startTs != 0 then startTs else (now1 - Latency()) % TWO64;
        Begin(first, (first - chunkLen) % TWO64);
        Unpause();
      }
    }

    /** Sets the clock of the stream and, if it really was flushed, enters RAOP_STREAMING and sends the first sync. */
    method Begin(first: u64, head: u64)
      requires Protocol()
      modifies `state, `firstPkt, `firstTs, `headTs, `log
      ensures Protocol() && firstTs == first && headTs == head
      ensures state == if old(state) == Flushed then Streaming else old(state)
    {
      var flushed := state == Flushed;
      if flushed { EnterStreaming(); }
      firstTs, headTs := first, head;
      if flushed { SendFirstSync(); }
    }

    /** The packets up to the pause again. */
    method Unpause()
      requires Protocol() && backlog.Length == MAX_BACKLOG && BacklogOk(backlog[..], live) && 0 < chunkLen
            && credit.None?
      requires Lookback(backlog[..], seqNumber, pauseTs, 0) + Chunks() < MAX_BACKLOG
      modifies backlog, live, `seqNumber, `headTs, `firstPkt, `log
      ensures Protocol() && BacklogOk(backlog[..], live)
      ensures SentAgain(old(backlog[..]), old(seqNumber), old(pauseTs), old(headTs), old(Chunks()))
    {
      var n, i := Search();
      FirstSlot(seqNumber, i, Chunks());
      var _ := Resume((n - Chunks() + 1) % MAX_BACKLOG, Chunks(), i);
    }

    /** Of the last chunks slots up to the pause, the packets have been sent again in order, from head on. */
    ghost predicate SentAgain(b: seq<Slot>, s: u16, pause: u64, head: u64, chunks: nat)
      requires |b| == MAX_BACKLOG
      reads `seqNumber, `headTs, backlog
    {
      forall u {:trigger Unfold(u)} :: u == 0 ==>
        var n := (s - Lookback(b, s, pause, 0) - chunks + 1) % MAX_BACKLOG;
        var moved := Stored(b, n, chunks);
        && Resumed(b, backlog[..], Stamps(s, head, chunkLen), n, chunks, chunks, moved)
        && seqNumber == (s + |moved|) % 0x1_0000 && headTs == Later(head, chunkLen, |moved|)
    }

    /** Searches the backlog backwards for the pause. */
    method Search() returns (n: u16, i: nat)
      requires backlog.Length == MAX_BACKLOG
      ensures i == Lookback(backlog[..], seqNumber, pauseTs, 0) && n == (seqNumber - i) % 0x1_0000
    {
      n, i := seqNumber, 0;
      ghost var b := backlog[..];
      while i < MAX_BACKLOG && backlog[n % MAX_BACKLOG].timestamp > pauseTs
        invariant i <= MAX_BACKLOG && n == (seqNumber - i) % 0x1_0000
        invariant Lookback(b, seqNumber, pauseTs, 0) == Lookback(b, seqNumber, pauseTs, i)
      {
        OneBack(seqNumber, i);
        i := i + 1;
        n := (n - 1) % 0x1_0000;
      }
    }

    /** Sends the packets in the slots from n on again, with new numbers and times. The slots they come from and the
        slots they go to never meet because lookback + chunks < MAX_BACKLOG, so the old slot, which the source empties
        last, can be emptied first: see StoresApart. */
    method Resume(n: nat, chunks: nat, ghost lookback: nat) returns (ghost moved: seq<Packet>)
      requires Protocol() && BacklogOk(backlog[..], live) && 0 < chunkLen && credit.None?
      requires lookback + chunks < MAX_BACKLOG && n == (seqNumber - lookback - chunks + 1) % MAX_BACKLOG
      modifies backlog, live, `seqNumber, `headTs, `firstPkt, `log
      ensures Protocol() && BacklogOk(backlog[..], live)
      ensures seqNumber == (old(seqNumber) + |moved|) % 0x1_0000 && headTs == Later(old(headTs), chunkLen, |moved|)
      ensures Resumed(old(backlog[..]), backlog[..], Stamps(old(seqNumber), old(headTs), chunkLen),
                      n, chunks, chunks, moved)
    {
      moved := [];
      ghost var b, s := backlog[..], seqNumber;
      ghost var t := Stamps(s, headTs, chunkLen);
      for i := 0 to chunks
        invariant Protocol() && BacklogOk(backlog[..], live) && seqNumber == (s + |moved|) % 0x1_0000
        invariant headTs == Later(t.head, t.length, |moved|) && Resumed(b, backlog[..], t, n, i, chunks, moved)
      {
        var index := Source(n, i);
        ghost var c := backlog[..];
        ResumeSkips(b, c, t, n, i, chunks, moved);
        if backlog[index].buffer != null {
          NextNumber(s, |moved|);
          ghost var head := headTs;
          var packet := SendOld(index);
          ghost var slot := Slot(seqNumber, head, c[index].size, packet);
          ResumeMoves(b, c, t, lookback, n, i, chunks, moved, packet, slot);
          moved := moved + [packet];
        }
      }
    }

    /** The packet in a slot again, under the next number and time stamp. */
    method SendOld(index: nat) returns (packet: Packet)
      requires Protocol() && BacklogOk(backlog[..], live) && index < MAX_BACKLOG && backlog[index].buffer != null
      modifies backlog, live, `seqNumber, `headTs, `firstPkt, `log
      ensures Protocol() && BacklogOk(backlog[..], live) && packet == old(backlog[index].buffer)
      ensures seqNumber == (old(seqNumber) + 1) % 0x1_0000 && headTs == Plus(old(headTs), chunkLen)
      ensures log == old(log) + Sending(old(firstPkt), old(headTs))
      ensures backlog[..] == old(backlog[..])[index := old(backlog[index]).(buffer := null)]
                             [seqNumber % MAX_BACKLOG :=
                              Slot(seqNumber, old(headTs), old(backlog[index]).size, packet)]
    {
      packet := Take(index);
      var size := backlog[index].size;
      seqNumber := (seqNumber + 1) % 0x1_0000;
      Emit(packet, size);
    }

    // ---- Retransmission -----------------------------------------------------------------------------

    /** The retransmit section of the control thread: of the packets asked for, those still in the backlog. */
    method Retransmit(lost: u16, count: u16) returns (missed: nat)
      requires Inv()
      modifies live`resend, `retransmit, `log
      ensures Inv() && log == old(log) + Requested(backlog[..], lost, count)
      ensures forall k :: |old(log)| <= k < |log| ==> log[k].Resent? && lost <= log[k].number < lost + count
    {
      missed := 0;
      RequestedOnly(backlog[..], lost, count);
      for i := 0 to count
        invariant Inv() && log == old(log) + Requested(backlog[..], lost, i)
      {
        var index := (lost + i) % MAX_BACKLOG;
        assert SlotOk(backlog[..][index], index, live);
        var packet := backlog[index].buffer;
        if backlog[index].number == lost + i {
          if packet == null {
            missed := missed + 1;
          } else {
            Mark(packet);
            retransmit := retransmit + 1;
            Log(Resent(packet.Number()), Flags());
          }
        }
      }
    }

    /** Fills in the retransmit header. */
    method Mark(packet: Packet)
      requires packet in live && BacklogOk(backlog[..], live)
      modifies packet`resend
      ensures BacklogOk(backlog[..], live) && packet.resend
    {
      packet.resend := true;
      ghost var b := backlog[..];
      forall i | 0 <= i < MAX_BACKLOG ensures SlotOk(b[i], i, live) { assert old(SlotOk(backlog[i], i, live)); }
    }

    /** Empties a slot. */
    method Take(index: nat) returns (packet: Packet)
      requires BacklogOk(backlog[..], live) && index < MAX_BACKLOG && backlog[index].buffer != null
      modifies backlog
      ensures BacklogOk(backlog[..], live) && packet == old(backlog[index].buffer) && packet in live && !packet.freed
      ensures Unstored(backlog[..], packet)
      ensures backlog[..] == old(backlog[..])[index := old(backlog[index]).(buffer := null)]
    {
      ghost var b := backlog[..];
      packet := backlog[index].buffer;
      assert SlotOk(b[index], index, live);
      backlog[index] := backlog[index].(buffer := null);
      ghost var c := backlog[..];
      forall i | 0 <= i < MAX_BACKLOG ensures SlotOk(c[i], i, live) && c[i].buffer != packet {
        assert SlotOk(b[i], i, live) && Distinct(b, index, i);
      }
      forall i, j | 0 <= i < MAX_BACKLOG && 0 <= j < MAX_BACKLOG ensures Distinct(c, i, j) { assert Distinct(b, i, j); }
    }
  }

  /** 64-bit sum. */
  function Plus(a: u64, b: nat): u64 { (a + b) % TWO64 }

  lemma OneBack(s: u16, i: nat)
    ensures ((s - i) % 0x1_0000 - 1) % 0x1_0000 == (s - (i + 1)) % 0x1_0000
  {}

  /** How many packets back from s the pause is: the number of newer packets. */
  function Lookback(b: seq<Slot>, s: u16, pause: u64, i: nat): nat
    requires |b| == MAX_BACKLOG
    decreases MAX_BACKLOG - i
  {
    if i < MAX_BACKLOG && b[(s - i) % 0x1_0000 % MAX_BACKLOG].timestamp > pause then Lookback(b, s, pause, i + 1) else i
  }

  /** The slot of the k-th packet to send again, and the slot that the m-th packet sent goes to. */
  function Source(n: nat, k: nat): nat { (n + k) % MAX_BACKLOG }

  function Target(s: u16, m: nat): nat { (s + 1 + m) % MAX_BACKLOG }

  /** The packets asked for that are in the backlog, in order. A number past the end of the 16-bit range matches
      no slot. */
  function Requested(b: seq<Slot>, lost: u16, count: nat): seq<Event>
    requires |b| == MAX_BACKLOG
  {
    if count == 0 then []
    else
      var n := lost + count - 1;
      var s := b[n % MAX_BACKLOG];
      Requested(b, lost, count - 1) + if s.number == n && s.buffer != null then [Resent(s.number)] else []
  }

  lemma {:induction false} RequestedOnly(b: seq<Slot>, lost: u16, count: nat)
    requires |b| == MAX_BACKLOG
    ensures forall k :: 0 <= k < |Requested(b, lost, count)| ==>
              Requested(b, lost, count)[k].Resent? && lost <= Requested(b, lost, count)[k].number < lost + count
  {
    if count > 0 { RequestedOnly(b, lost, count - 1); }
  }

  lemma FirstSlot(s: u16, i: nat, chunks: nat)
    ensures ((s - i) % 0x1_0000 - chunks + 1) % MAX_BACKLOG == (s - i - chunks + 1) % MAX_BACKLOG
  {}

  lemma NextNumber(s: u16, m: nat)
    ensures ((s + m) % 0x1_0000 + 1) % 0x1_0000 == (s + (m + 1)) % 0x1_0000
    ensures ((s + m) % 0x1_0000 + 1) % 0x1_0000 % MAX_BACKLOG == Target(s, m)
  {}

  lemma Apart(s: u16, lookback: nat, chunks: nat, k: nat, m: nat)
    requires lookback + chunks < MAX_BACKLOG && m <= k < chunks
    ensures Source((s - lookback - chunks + 1) % MAX_BACKLOG, k) != Target(s, m)
  {
    var d := lookback + chunks + m - k;
    assert 0 < d < MAX_BACKLOG;
  }

  /** The slots stay apart exactly when fewer than MAX_BACKLOG packets are looked back on and sent again: otherwise a
      packet sent lands on one still to be sent, or on itself. */
  lemma ApartExactly(s: u16, lookback: nat, chunks: nat)
    requires lookback < MAX_BACKLOG && chunks >= 1
    ensures (forall k: nat, m: nat {:trigger Source((s - lookback - chunks + 1) % MAX_BACKLOG, k), Target(s, m)} ::
               m <= k < chunks ==> Source((s - lookback - chunks + 1) % MAX_BACKLOG, k) != Target(s, m))
       <==> lookback + chunks < MAX_BACKLOG
  {
    var n := (s - lookback - chunks + 1) % MAX_BACKLOG;
    if lookback + chunks < MAX_BACKLOG {
      forall k: nat, m: nat | m <= k < chunks ensures Source(n, k) != Target(s, m) { Apart(s, lookback, chunks, k, m); }
    } else {
      var k := lookback + chunks - MAX_BACKLOG;
      assert Source(n, k) == Target(s, 0);
    }
  }

  /** The stores for one packet in the order of the source, and the buffer freed: the slot of the new number gets the
      number and time stamp, its buffer is freed, it gets the buffer and size of the old slot, which is then emptied. */
  ghost function Stores(b: seq<Slot>, source: nat, target: nat, number: u16, timestamp: u64): (seq<Slot>, Packet?)
    requires source < |b| && target < |b|
  {
    var c := b[target := b[target].(number := number, timestamp := timestamp)];
    var d := c[target := c[target].(buffer := c[source].buffer, size := c[source].size)];
    (d[source := d[source].(buffer := null)], c[target].buffer)
  }

  /** Between two slots the old one can be emptied first, as SendOld does. */
  lemma StoresApart(b: seq<Slot>, source: nat, target: nat, number: u16, timestamp: u64)
    requires source < |b| && target < |b| && source != target
    ensures var moved := Slot(number, timestamp, b[source].size, b[source].buffer);
            Stores(b, source, target, number, timestamp).0 == b[source := b[source].(buffer := null)][target := moved]
    ensures Stores(b, source, target, number, timestamp).1 == b[target].buffer
  {}

  /** On one slot they free the buffer that they were to keep. */
  lemma StoresSame(b: seq<Slot>, i: nat, number: u16, timestamp: u64)
    requires i < |b|
    ensures Stores(b, i, i, number, timestamp).1 == b[i].buffer
    ensures |Stores(b, i, i, number, timestamp).0| == |b| && Stores(b, i, i, number, timestamp).0[i].buffer == null
  {}

  /** With lookback and chunks just too large, the first packet to send again is freed by the stores that should keep
      it, and its slot is left empty. */
  lemma FirstLost(b: seq<Slot>, s: u16, lookback: nat, chunks: nat, timestamp: u64)
    requires |b| == MAX_BACKLOG && chunks >= 1 && lookback + chunks == MAX_BACKLOG
    ensures var n := Source((s - lookback - chunks + 1) % MAX_BACKLOG, 0);
            var r := Stores(b, n, Target(s, 0), (s + 1) % 0x1_0000, timestamp);
            r.1 == b[n].buffer && r.0[n].buffer == null
  {
    var n := Source((s - lookback - chunks + 1) % MAX_BACKLOG, 0);
    assert n == Target(s, 0);
    StoresSame(b, n, (s + 1) % 0x1_0000, timestamp);
  }

  /** A backlog on which that happens: packet 65025 in slot 1, and 512 packets to send again after packet 0. */
  method LoseFirst(payload: seq<u8>) returns (b: seq<Slot>, packet: Packet)
    ensures fresh(packet) && packet.payload == payload && BacklogOk(b, {packet}) && b[1].buffer == packet
    ensures Lookback(b, 0, 0, 0) + 512 == MAX_BACKLOG
    ensures Source((0 - 512 + 1) % MAX_BACKLOG, 0) == 1 == Target(0, 0)
    ensures Stores(b, 1, 1, 1, 0).1 == packet && Stores(b, 1, 1, 1, 0).0[1].buffer == null
  {
    packet := new Packet(payload);
    packet.seq0, packet.seq1, packet.timestamp := 0xFE, 0x01, 0;
    b := seq(MAX_BACKLOG, _ => Slot(0, 0, 0, null))[1 := Slot(0xFE01, 0, |payload|, packet)];
    FirstLost(b, 0, 0, 512, 0);
  }

  lemma NotSame(n: nat, i: nat, k: nat)
    requires i < k < i + MAX_BACKLOG
    ensures (n + i) % MAX_BACKLOG != (n + k) % MAX_BACKLOG
  {}

  /** The packets in the first count slots from n on, in order. */
  function Stored(b: seq<Slot>, n: nat, count: nat): (p: seq<Packet>)
    requires |b| == MAX_BACKLOG
    ensures |p| <= count
  {
    if count == 0 then []
    else
      var q := b[Source(n, count - 1)].buffer;
      Stored(b, n, count - 1) + if q == null then [] else [q]
  }

  /** The time stamp after n more packets. */
  function Later(head: u64, length: nat, n: nat): u64 {
    if n == 0 then head else Plus(Later(head, length, n - 1), length)
  }

  /** The numbers and time stamps of packets sent again: those after number, and from head on. */
  datatype Stamps = Stamps(number: u16, head: u64, length: nat)

  /** The slot holds packet p as the j-th sent again. */
  ghost predicate Moved(slot: Slot, p: Packet, t: Stamps, j: nat) {
    slot.buffer == p && slot.number == (t.number + 1 + j) % 0x1_0000 && slot.timestamp == Later(t.head, t.length, j)
  }

  /** After i of the slots: the packets found so far have moved, in order, to the slots after s, under new numbers and
      time stamps; the slots still to come are as they were. */
  ghost predicate Resumed(b: seq<Slot>, c: seq<Slot>, t: Stamps, n: nat, i: nat, chunks: nat, moved: seq<Packet>) {
    && |b| == |c| == MAX_BACKLOG && i <= chunks && moved == Stored(b, n, i)
    && forall u {:trigger Unfold(u)} :: u == 0 ==>
         && (forall k {:trigger Source(n, k)} :: i <= k < chunks ==> c[Source(n, k)] == b[Source(n, k)])
         && forall j {:trigger Target(t.number, j)} :: 0 <= j < |moved| ==>
              Moved(c[Target(t.number, j)], moved[j], t, j)
  }

  lemma ResumeSkips(b: seq<Slot>, c: seq<Slot>, t: Stamps, n: nat, i: nat, chunks: nat, moved: seq<Packet>)
    requires Resumed(b, c, t, n, i, chunks, moved) && i < chunks
    ensures c[Source(n, i)] == b[Source(n, i)]
    ensures b[Source(n, i)].buffer == null ==> Resumed(b, c, t, n, i + 1, chunks, moved)
  {
    assert Unfold(0);
  }

  lemma ResumeMoves(b: seq<Slot>, c: seq<Slot>, t: Stamps, lookback: nat, n: nat, i: nat, chunks: nat,
                    moved: seq<Packet>, packet: Packet, slot: Slot)
    requires Resumed(b, c, t, n, i, chunks, moved) && i < chunks && c[Source(n, i)].buffer == packet
    requires Moved(slot, packet, t, |moved|)
    requires lookback + chunks < MAX_BACKLOG && n == (t.number - lookback - chunks + 1) % MAX_BACKLOG
    ensures Resumed(b, c[Source(n, i) := c[Source(n, i)].(buffer := null)][Target(t.number, |moved|) := slot],
                    t, n, i + 1, chunks, moved + [packet])
  {
    assert Unfold(0);
    var m := |moved|;
    var s: u16 := t.number;
    var d := c[Source(n, i) := c[Source(n, i)].(buffer := null)][Target(s, m) := slot];
    forall k | i + 1 <= k < chunks ensures d[Source(n, k)] == b[Source(n, k)] {
      Apart(s, lookback, chunks, k, m);
      NotSame(n, i, k);
    }
    forall j | 0 <= j < m ensures d[Target(s, j)] == c[Target(s, j)] {
      Apart(s, lookback, chunks, i, j);
      NotSame(s + 1, j, m);
    }
  }
}
