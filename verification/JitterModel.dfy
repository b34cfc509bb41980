/** The streamer's packet buffer on unbounded packet numbers: what each step of the 16-bit ring buffer means. */
module JitterModel {
  import opened Words

  const SEQ := 0x1_0000      // RTP sequence numbers wrap here (section 5.1 of RFC 3550)
  const HALF := 0x8000
  const BUFFER_FRAMES := 2048

  type Frame = seq<int>

  /** memcmp with the silence frame. */
  predicate IsSilence(f: Frame) { forall i :: 0 <= i < |f| ==> f[i] == 0 }

  datatype Mode = Wait | Stream | Play

  /** r is the next packet to play, w the last one written, got the packets received and not yet played;
      first is the number that a RECORD or FLUSH announced. */
  datatype Ring = Ring(mode: Mode, r: int, w: int, got: map<int, Frame>, first: Option<int>,
                       skip: nat, silence: bool, pause: bool, silenceCount: nat)
  {
    function Fill(): int { w - r + 1 }

    ghost predicate Valid() {
      && 0 <= Fill() < BUFFER_FRAMES
      && (forall n :: n in got ==> r <= n <= w)
      && (mode == Wait ==> got == map[])
      && (mode == Stream ==> w in got)
    }

    /** The packets before n are gone. */
    function From(n: int): Ring { this.(r := n, got := map k | k in got && k >= n :: got[k]) }

    /** Plays or drops packet r. */
    function Step(): Ring { this.(r := r + 1, got := got - {r}) }
  }

  // ---- 16-bit comparisons --------------------------------------------------------------------------

  /** seq_order: the difference b - a, as a signed 16-bit number, is positive. */
  predicate SeqOrder(a: int, b: int) { 0 < (b - a) % SEQ < HALF }

  /** On numbers less than half the range apart, seq_order is the order of the unbounded numbers. */
  lemma SeqOrderIs(a: int, b: int)
    requires -HALF <= b - a < HALF
    ensures SeqOrder(a % SEQ, b % SEQ) <==> a < b
  {
    var k, m := a / SEQ, b / SEQ;
    assert b % SEQ - a % SEQ == (b - a) + SEQ * (k - m);
    ModShift(b - a, k - m);
  }

  lemma ModShift(x: int, k: int)
    ensures (x + SEQ * k) % SEQ == x % SEQ
  {}

  /** BUFIDX on a wrapped number. */
  function Slot(n: int): nat { n % BUFFER_FRAMES }

  lemma SlotOfWrapped(n: int)
    ensures Slot(n % SEQ) == Slot(n)
  {
    var q, r := n / SEQ, n % SEQ;
    DivUnique(n, BUFFER_FRAMES, 32 * q + r / BUFFER_FRAMES, r % BUFFER_FRAMES);
  }

  // ---- Arrival of a packet -------------------------------------------------------------------------

  datatype Config = Config(delay: nat, httpFill: bool)

  /** The first packet at or after n that has been received. */
  function FirstFrom(got: map<int, Frame>, n: int, w: int): (k: int)
    ensures n <= w ==> n <= k <= w
    ensures n <= w && w in got ==> k in got
    ensures forall m :: n <= m < k ==> m !in got
    decreases w - n
  {
    if n >= w || n in got then n else FirstFrom(got, n + 1, w)
  }

  /** Is the packet dropped on arrival: before an announced first packet? */
  predicate Refused(a: Ring, n: int) { a.first.Some? && n < a.first.value }

  /** The changes of state that an accepted packet n brings about. */
  function Opened(a: Ring, n: int): Ring {
    match a.mode
    case Wait =>
      a.(r := n, w := n - 1, got := map[], skip := 0, silence := true,
         mode := if a.first.Some? then Play else Stream, first := None)
    case Stream =>
      if a.first.None? then a
      else
        var start := if a.r < a.first.value then a.first.value else a.r;
        a.From(FirstFrom(a.got, start, a.w)).(mode := Play, first := None)
    case Play => a
  }

  /** A pause ends with the first packet after the announced one; without an announcement the C code compares
      with -1 cast to 16 bits. */
  function Unpaused(a: Ring, n: int): Ring {
    var first := if a.first.Some? then a.first.value else -1;
    a.(pause := a.pause && !SeqOrder(first % SEQ, n % SEQ))
  }

  predicate TooLate(a: Ring, n: int) { n < a.r }

  /** The packet takes its place; one that leaves a gap may move the read position up to the delay. */
  function Inserted(c: Config, a: Ring, n: int, f: Frame): Ring {
    var b := if n > a.w + 1 && c.delay != 0 && n - a.r > c.delay then a.From(n - c.delay + 1) else a;
    b.(w := if n > b.w then n else b.w, got := b.got[n := f])
  }

  /** A silent packet at the start of playback drops the oldest one. The fill is computed on 16-bit numbers, without
      wrap-around. */
  function Settled(a: Ring, f: Frame): Ring {
    var silent := a.silence && IsSilence(f);
    var b := if silent && a.w % SEQ - a.r % SEQ > 1 then a.Step() else a;
    if b.mode == Play && b.silence && !silent then b.(silence := false) else b
  }

  function Accepted(c: Config, b: Ring, n: int, f: Frame): Ring {
    if TooLate(b, n) then b else Settled(Inserted(c, b, n, f), f)
  }

  function Put(c: Config, a: Ring, n: int, f: Frame): Ring {
    if Refused(a, n) then a
    else
      Accepted(c, Unpaused(Opened(a, n), n), n, f)
  }

  predicate Near(a: int, b: int) { -HALF < b - a < HALF }

  /** What the 16-bit code needs of a packet: it is within half the range of the pointers and of the announced
      number, which itself is not past the last packet, and it leaves fewer than BUFFER_FRAMES frames live. */
  ghost predicate CanPut(c: Config, a: Ring, n: int, f: Frame) {
    && (a.first.Some? ==> Near(n, a.first.value) && Near(n + 1, a.first.value))
    && (a.mode != Wait ==> Near(a.w, n) && Near(a.r, n) && Near(a.r, n + 1))
    && (a.mode == Stream && a.first.Some? ==>
          Near(a.r, a.first.value) && Near(a.w, a.first.value) && a.first.value <= a.w)
    && c.delay < HALF
    && (!Refused(a, n) && n > Opened(a, n).w ==> n - Inserted(c, Opened(a, n), n, f).r + 1 < BUFFER_FRAMES)
  }

  // ---- Playing -------------------------------------------------------------------------------------

  datatype Output = Nothing | Silence | Packet(n: int, f: Frame)

  function Skipped(a: Ring): Ring
    decreases a.skip
  {
    if a.skip > 0 && a.r < a.w then Skipped(a.Step().(skip := a.skip - 1)) else a
  }

  /** The next frame: early tells that the frame's time has not come. */
  function Get(c: Config, a: Ring, synced: bool, early: bool): (Ring, Output) {
    if a.mode != Play || !synced then (a, Nothing)
    else if a.silenceCount > 0 then (a.(silenceCount := a.silenceCount - 1), Silence)
    else if a.pause then (a, Silence)
    else
      Taken(c, Skipped(a), early)
  }

  /** The packet at the read position or, once its time has come, silence in its place. Silence in an empty buffer
      pushes the write position on as well. */
  function Taken(c: Config, b: Ring, early: bool): (Ring, Output) {
    if b.r !in b.got && (early || (b.Fill() == 0 && !c.httpFill)) then (b, Nothing)
    else if b.Fill() == 0 then (b.(r := b.r + 1, w := b.w + 1), Silence)
    else if b.r !in b.got then (b.Step(), Silence)
    else (b.Step(), Packet(b.r, b.got[b.r]))
  }

  /** FLUSH with a sequence number. */
  function Flushed(a: Ring, n: int, silence: bool): Ring {
    if silence then a.(first := Some(n), pause := true)
    else if a.mode == Play then a.(first := Some(n), mode := Wait, got := map[], r := a.w + 1)
    else a.(first := Some(n))
  }

  function Recorded(a: Ring, first: Option<int>): Ring { a.(first := first, mode := Wait) }

  /** A GET has been answered: when nothing has been sent yet, silence makes up for the frames missing to the delay;
      when what was sent before is sent again, there is none. */
  function Answered(c: Config, a: Ring, nothingSent: bool, resent: bool): Ring {
    if nothingSent then
          a.(silenceCount := if a.Fill() < 0 then 0 else if c.delay < a.Fill() then 0 else c.delay - a.Fill())
    else if resent then a.(silenceCount := 0)
    else a
  }

  /** The drift correction that removes a frame. */
  function Trimmed(a: Ring): Ring { if a.r < a.w then a.Step() else a.(skip := a.skip + 1) }

  // ---- Every step keeps the ring valid -----------------------------------------------------------------

  lemma OpenedValid(a: Ring, n: int)
    requires a.Valid() && !Refused(a, n) && (a.mode == Stream && a.first.Some? ==> a.first.value <= a.w)
    ensures var b := Opened(a, n);
            && 0 <= b.Fill() < BUFFER_FRAMES && (forall k :: k in b.got ==> b.r <= k <= b.w) && b.mode != Wait
            && (b.mode == Stream && a.mode == Stream ==> b.w in b.got) && (a.mode == Wait ==> n == b.w + 1 == b.r)
            && (a.mode != Wait ==> b.w == a.w && a.r <= b.r)
            && (forall k :: k in b.got ==> k in a.got && b.got[k] == a.got[k])
  {}

  /** A packet within reach keeps the ring valid: in particular the fill never becomes negative. */
  lemma PutValid(c: Config, a: Ring, n: int, f: Frame)
    requires a.Valid() && CanPut(c, a, n, f)
    ensures Put(c, a, n, f).Valid()
  {
    if !Refused(a, n) {
      OpenedValid(a, n);
      var b := Opened(a, n);
      var u := Unpaused(b, n);
      assert u.r == b.r && u.w == b.w && u.got == b.got && u.mode == b.mode;
      if !TooLate(u, n) { InsertedValid(c, u, n, f); }
    }
  }

  lemma InsertedValid(c: Config, b: Ring, n: int, f: Frame)
    requires 0 <= b.Fill() < BUFFER_FRAMES && (forall k :: k in b.got ==> b.r <= k <= b.w) && b.mode != Wait
    requires b.r <= n && (n > b.w ==> n - Inserted(c, b, n, f).r + 1 < BUFFER_FRAMES)
    requires b.mode == Stream ==> b.w in b.got || n == b.w + 1
    ensures Inserted(c, b, n, f).Valid() && n in Inserted(c, b, n, f).got
    ensures Settled(Inserted(c, b, n, f), f).Valid()
  {
    var i := Inserted(c, b, n, f);
    assert b.r <= i.r <= n <= i.w;
    SettledValid(i, f);
  }

  lemma SettledValid(i: Ring, f: Frame)
    requires i.Valid() && i.r <= i.w
    ensures Settled(i, f).Valid()
  {
    if i.w % SEQ - i.r % SEQ > 1 && i.r == i.w { assert false; }
  }

  lemma {:induction false} SkippedValid(a: Ring)
    requires a.Valid() && a.mode == Play
    ensures Skipped(a).Valid() && Skipped(a).mode == Play && a.r <= Skipped(a).r && Skipped(a).w == a.w
    ensures forall n :: n in Skipped(a).got ==> n in a.got && Skipped(a).got[n] == a.got[n]
    decreases a.skip
  {
    if a.skip > 0 && a.r < a.w { SkippedValid(a.Step().(skip := a.skip - 1)); }
  }

  /** Playing keeps the ring valid, and what it plays is silence or exactly the received packet at the read
      position, which is then passed. */
  lemma GetValid(c: Config, a: Ring, synced: bool, early: bool)
    requires a.Valid()
    ensures var (b, out) := Get(c, a, synced, early);
            && b.Valid() && a.r <= b.r
            && (out.Packet? ==> b.r == out.n + 1 && out.n >= a.r && out.n in a.got && out.f == a.got[out.n])
  {
    if a.mode == Play { SkippedValid(a); }
  }

  lemma OthersValid(a: Ring, n: int, silence: bool, first: Option<int>)
    requires a.Valid()
    ensures Flushed(a, n, silence).Valid() && Trimmed(a).Valid()
    ensures a.got == map[] ==> Recorded(a, first).Valid()
  {}

  lemma AnsweredValid(c: Config, a: Ring, nothingSent: bool, resent: bool)
    requires a.Valid()
    ensures Answered(c, a, nothingSent, resent).Valid()
  {}

  // ---- Whole runs -------------------------------------------------------------------------------------

  datatype Event =
    | Arrive(n: int, f: Frame)
    | Fetch(synced: bool, early: bool)
    | Announce(n: int, silence: bool)
    | RemoveFrame
    | Answer(nothingSent: bool, resent: bool)

  /** One locked section. */
  function Next(c: Config, a: Ring, e: Event): (Ring, Output) {
    match e
    case Arrive(n, f) => (Put(c, a, n, f), Nothing)
    case Fetch(synced, early) => Get(c, a, synced, early)
    case Announce(n, silence) => (Flushed(a, n, silence), Nothing)
    case RemoveFrame => (Trimmed(a), Nothing)
    case Answer(nothingSent, resent) => (Answered(c, a, nothingSent, resent), Nothing)
  }

  /** The packets played in a run, in order. */
  function Played(c: Config, a: Ring, events: seq<Event>): seq<(int, Frame)>
    decreases |events|
  {
    if events == [] then []
    else
      var (b, out) := Next(c, a, events[0]);
      (if out.Packet? then [(out.n, out.f)] else []) + Played(c, b, events[1..])
  }

  /** A run that stays in one session: every packet is within reach, and once a first packet has been accepted playback
      is not restarted. */
  ghost predicate InSession(c: Config, a: Ring, events: seq<Event>)
    decreases |events|
  {
    events != [] ==>
      && (events[0].Arrive? ==> CanPut(c, a, events[0].n, events[0].f))
      && (a.mode != Wait ==> Next(c, a, events[0]).0.mode != Wait)
      && InSession(c, Next(c, a, events[0]).0, events[1..])
  }

  /** Packet n with contents f is in the buffer or arrives during the run. */
  ghost predicate Received(a: Ring, events: seq<Event>, p: (int, Frame)) {
    (p.0 in a.got && a.got[p.0] == p.1) || Arrive(p.0, p.1) in events
  }

  lemma NextValid(c: Config, a: Ring, e: Event)
    requires a.Valid() && (e.Arrive? ==> CanPut(c, a, e.n, e.f))
    ensures Next(c, a, e).0.Valid()
    ensures a.mode != Wait && Next(c, a, e).0.mode != Wait ==> a.r <= Next(c, a, e).0.r
    ensures Next(c, a, e).1.Packet? ==>
              var p := (Next(c, a, e).1.n, Next(c, a, e).1.f);
              a.mode != Wait && a.r <= p.0 < Next(c, a, e).0.r && p.0 in a.got && a.got[p.0] == p.1
  {
    match e {
      case Arrive(n, f) => PutValid(c, a, n, f);
      case Fetch(synced, early) => GetValid(c, a, synced, early);
      case Announce(n, silence) => OthersValid(a, n, silence, None);
      case RemoveFrame => OthersValid(a, 0, false, None);
      case Answer(nothingSent, resent) => AnsweredValid(c, a, nothingSent, resent);
    }
  }

  /** Whatever the buffer holds after a step was there before or has just arrived. */
  lemma NextKeeps(c: Config, a: Ring, e: Event, k: int)
    requires a.Valid() && k in Next(c, a, e).0.got
    ensures (k in a.got && a.got[k] == Next(c, a, e).0.got[k]) || e == Arrive(k, Next(c, a, e).0.got[k])
  {
    match e {
      case Arrive(n, f) => PutKeeps(c, a, n, f, k);
      case Fetch(synced, early) => if a.mode == Play { SkippedValid(a); }
      case Announce(n, silence) =>
      case RemoveFrame =>
      case Answer(nothingSent, resent) =>
    }
  }

  lemma PutKeeps(c: Config, a: Ring, n: int, f: Frame, k: int)
    requires k in Put(c, a, n, f).got
    ensures (k in a.got && a.got[k] == Put(c, a, n, f).got[k]) || (k == n && f == Put(c, a, n, f).got[k])
  {
    if !Refused(a, n) {
      var o := Opened(a, n);
      assert k in o.got ==> k in a.got && o.got[k] == a.got[k];
      var b := Unpaused(o, n);
      assert b.got == o.got;
      if !TooLate(b, n) {
        var i := Inserted(c, b, n, f);
        assert k in i.got ==> (k == n && i.got[k] == f) || (k in b.got && i.got[k] == b.got[k]);
        assert k in Settled(i, f).got ==> k in i.got && Settled(i, f).got[k] == i.got[k];
      }
    }
  }

  ghost predicate AllReceived(a: Ring, events: seq<Event>, p: seq<(int, Frame)>) {
    forall i :: 0 <= i < |p| ==> (a.mode != Wait ==> a.r <= p[i].0) && Received(a, events, p[i])
  }

  predicate Increasing(p: seq<(int, Frame)>) { forall i, j :: 0 <= i < j < |p| ==> p[i].0 < p[j].0 }

  lemma ReceivedEarlier(c: Config, a: Ring, events: seq<Event>, p: (int, Frame))
    requires a.Valid() && events != []
    requires Received(Next(c, a, events[0]).0, events[1..], p)
    ensures Received(a, events, p)
  {
    var b := Next(c, a, events[0]).0;
    if p.0 in b.got && b.got[p.0] == p.1 {
      NextKeeps(c, a, events[0], p.0);
    } else {
      assert Arrive(p.0, p.1) in events[1..];
    }
  }

  /** Throughout a session, from before its first packet, the packets played have strictly increasing numbers, across
      any wrap-around of the 16-bit sequence numbers, none before the read position; and each is a packet that was
      received, unchanged. */
  lemma {:induction false} PlayedInOrder(c: Config, a: Ring, events: seq<Event>)
    requires a.Valid() && InSession(c, a, events)
    ensures AllReceived(a, events, Played(c, a, events)) && Increasing(Played(c, a, events))
    decreases |events|
  {
    if events != [] {
      var e, rest := events[0], events[1..];
      var (b, out) := Next(c, a, e);
      NextValid(c, a, e);
      assert InSession(c, b, rest) && (a.mode != Wait ==> b.mode != Wait && a.r <= b.r);
      PlayedInOrder(c, b, rest);
      var q := Played(c, b, rest);
      forall i | 0 <= i < |q| ensures (a.mode != Wait ==> a.r <= q[i].0) && Received(a, events, q[i]) {
        ReceivedEarlier(c, a, events, q[i]);
      }
      if out.Packet? { assert forall i :: 0 <= i < |q| ==> out.n < q[i].0; }
    }
  }

  // ---- The loop that waits for an announced packet -------------------------------------------------------

  /** The ready flags and the 16-bit read pointer after k rounds of the discarding loop. */
  function Discarding(ready: seq<bool>, r: u16, k: nat): (seq<bool>, u16)
    requires |ready| == BUFFER_FRAMES
    ensures |Discarding(ready, r, k).0| == BUFFER_FRAMES
  {
    if k == 0 then (ready, r)
    else
      var (s, q) := Discarding(ready, r, k - 1);
      (s[q % BUFFER_FRAMES := false], (q + 1) % SEQ)
  }

  predicate KeepsDiscarding(ready: seq<bool>, r: u16, first: u16)
    requires |ready| == BUFFER_FRAMES
  {
    SeqOrder(r, first) || !ready[r % BUFFER_FRAMES]
  }

  /** Whether the loop stops after k rounds or sooner. */
  predicate StopsAt(ready: seq<bool>, r: u16, first: u16, k: nat)
    requires |ready| == BUFFER_FRAMES
  {
    var (s, q) := Discarding(ready, r, k);
    !KeepsDiscarding(s, q, first)
  }

  ghost predicate Stops(ready: seq<bool>, r: u16, first: u16)
    requires |ready| == BUFFER_FRAMES
  {
    exists k: nat :: StopsAt(ready, r, first, k)
  }

  /** The ready flags stand for packets in [r, w]. */
  ghost predicate ReadyWithin(ready: seq<bool>, r: int, w: int)
    requires |ready| == BUFFER_FRAMES
  {
    forall i :: 0 <= i < BUFFER_FRAMES && ready[i] ==> exists n :: r <= n <= w && Slot(n) == i
  }

  lemma NextRound(r: int, k: nat)
    ensures ((r + k) % SEQ + 1) % SEQ == (r + (k + 1)) % SEQ && (r + k) % SEQ % BUFFER_FRAMES == Slot(r + k)
  {
    SlotOfWrapped(r + k);
    ModShift((r + k) % SEQ + 1, (r + k) / SEQ);
  }

  /** If the announced packet is past the last one written, the loop goes on after every round. */
  lemma {:induction false} DiscardDiverges(ready: seq<bool>, r: int, w: int, first: int, k: nat)
    requires |ready| == BUFFER_FRAMES && 0 <= w - r + 1 < BUFFER_FRAMES && ReadyWithin(ready, r, w)
    requires w < first && Near(r, first)
    ensures !StopsAt(ready, r % SEQ, first % SEQ, k)
    ensures var (s, q) := Discarding(ready, r % SEQ, k);
            q == (r + k) % SEQ && ReadyWithin(s, if k <= w - r then r + k else w + 1, w)
  {
    if k > 0 {
      DiscardDiverges(ready, r, w, first, k - 1);
      var (s, q) := Discarding(ready, r % SEQ, k - 1);
      var from := if k - 1 <= w - r then r + k - 1 else w + 1;
      NextRound(r, k - 1);
      OneFreed(s, from, w, r + k - 1);
    }
    if r + k <= w { SeqOrderIs(r + k, first); } else { NextRound(r, k); }
  }

  lemma OneFreed(s: seq<bool>, from: int, w: int, n: int)
    requires |s| == BUFFER_FRAMES && ReadyWithin(s, from, w) && (from == n || from > w)
    ensures ReadyWithin(s[Slot(n) := false], if n <= w && from == n then n + 1 else from, w)
  {
    var t := s[Slot(n) := false];
    forall i | 0 <= i < BUFFER_FRAMES && t[i]
      ensures exists m :: (if n <= w && from == n then n + 1 else from) <= m <= w && Slot(m) == i
    {
      assert s[i];
      var m :| from <= m <= w && Slot(m) == i;
      assert m != n;
    }
  }

  /** The rounds before the last packet written leave its flag alone. */
  lemma {:induction false} LastStaysReady(ready: seq<bool>, r: int, w: int, k: nat)
    requires |ready| == BUFFER_FRAMES && ready[Slot(w)] && k <= w - r < BUFFER_FRAMES - 1
    ensures Discarding(ready, r % SEQ, k).1 == (r + k) % SEQ && Discarding(ready, r % SEQ, k).0[Slot(w)]
  {
    if k > 0 {
      LastStaysReady(ready, r, w, k - 1);
      NextRound(r, k - 1);
      assert Slot(r + (k - 1)) != Slot(w);
    }
  }

  /** The loop ends exactly when the announced packet is not past the last one written. */
  lemma DiscardStopsExactly(ready: seq<bool>, r: int, w: int, first: int)
    requires |ready| == BUFFER_FRAMES && r <= w < r + BUFFER_FRAMES - 1 && ReadyWithin(ready, r, w) && ready[Slot(w)]
    requires Near(r, first) && Near(w, first)
    ensures Stops(ready, r % SEQ, first % SEQ) <==> first <= w
  {
    if first <= w {
      LastStaysReady(ready, r, w, w - r);
      NextRound(r, w - r);
      SeqOrderIs(w, first);
      assert StopsAt(ready, r % SEQ, first % SEQ, w - r);
    } else {
      forall k: nat ensures !StopsAt(ready, r % SEQ, first % SEQ, k) { DiscardDiverges(ready, r, w, first, k); }
    }
  }
}
