/** What the packet buffer owes its listener: every packet accepted is held, and played when its turn comes, unless it
    is passed over for a reason that the events give. */
module JitterDelivery {
  import opened Words
  import opened JitterModel

  // ---- Acceptance --------------------------------------------------------------------------------------

  /** The packet is neither before an announced number nor before the place where playing goes on. When the announcement
      is still to be acted on, that place is the first packet held at or after it. */
  ghost predicate InTime(a: Ring, n: int) {
    && (a.first.Some? ==> n >= a.first.value)
    && (a.mode == Stream && a.first.Some? ==> exists m :: m in a.got && m >= a.r && m >= a.first.value && m <= n)
    && (a.mode != Wait && !(a.mode == Stream && a.first.Some?) ==> n >= a.r)
  }

  /** Silence before the first sound. */
  ghost predicate LeadingSilence(a: Ring, f: Frame) { IsSilence(f) && (a.silence || a.mode == Wait) }

  /** Why packet k, held in state a, may be gone without having been played after e. */
  ghost predicate PassedBy(c: Config, a: Ring, e: Event, k: int) {
    match e
    case Arrive(n, f) =>
      || (a.mode == Stream && a.first.Some? && k < a.first.value)  // before the announced number
      || (c.delay != 0 && n > a.w + 1 && n - a.r > c.delay && n - k >= c.delay)  // on hold for too long
      || LeadingSilence(a, f)
    case Fetch(synced, early) => synced && a.skip > 0              // owed to the drift correction
    case Announce(n, silence) => !silence && a.mode == Play        // flushed
    case RemoveFrame => k == a.r                                   // taken by the drift correction
    case Answer(_, _) => false
  }

  ghost predicate Holds(a: Ring, k: int, f: Frame) { k in a.got && a.got[k] == f }

  /** A packet in time is held, with its contents, after it has arrived; only leading silence may drop it at once. */
  lemma ArrivalHeld(c: Config, a: Ring, n: int, f: Frame)
    requires a.Valid() && CanPut(c, a, n, f) && InTime(a, n)
    ensures Holds(Next(c, a, Arrive(n, f)).0, n, f) || (LeadingSilence(a, f) && n < Next(c, a, Arrive(n, f)).0.r)
  {
    OpenedValid(a, n);
    var b := Opened(a, n);
    if a.mode == Stream && a.first.Some? {
      var m :| m in a.got && m >= a.r && m >= a.first.value && m <= n;
      assert b.r <= m;
    }
    assert b.r <= n;
    PlacedHeld(c, b, n, f);
  }

  /** What arrival does after the state has opened. */
  lemma PlacedHeld(c: Config, b: Ring, n: int, f: Frame)
    requires b.r <= n
    ensures var z := Accepted(c, Unpaused(b, n), n, f);
            Holds(z, n, f) || (IsSilence(f) && b.silence && n < z.r)
  {
    var i := Inserted(c, Unpaused(b, n), n, f);
    assert Holds(i, n, f) && i.r <= n;
  }

  /** A packet that is not in time changes nothing that is held or played from then on. */
  lemma LateIgnored(c: Config, a: Ring, n: int, f: Frame)
    requires a.Valid() && CanPut(c, a, n, f) && a.mode != Wait && !InTime(a, n)
    ensures var b := Next(c, a, Arrive(n, f)).0;
            b.w == a.w && b.r >= a.r && forall k :: k in b.got ==> Holds(a, k, b.got[k])
  {
    if !Refused(a, n) {
      OpenedValid(a, n);
      var b := Opened(a, n);
      if a.mode == Stream && a.first.Some? {
        var start := if a.r < a.first.value then a.first.value else a.r;
        assert b.r in a.got;
        assert b.r > n;
      }
      assert TooLate(Unpaused(b, n), n);
    }
  }

  /** Every packet held stays held through a step, unless it is the one played, or there is a reason, or another packet
      of its number has arrived. */
  lemma HeldStays(c: Config, a: Ring, e: Event, k: int, f: Frame)
    requires a.Valid() && (e.Arrive? ==> CanPut(c, a, e.n, e.f)) && Holds(a, k, f)
    ensures Holds(Next(c, a, e).0, k, f) || Next(c, a, e).1 == Packet(k, f) || PassedBy(c, a, e, k)
         || (e.Arrive? && e.n == k)
  {
    match e {
      case Arrive(n, g) =>
        if n != k && !PassedBy(c, a, e, k) { HeldThroughArrival(c, a, n, g, k); }
      case Fetch(synced, early) =>
      case Announce(n, silence) =>
      case RemoveFrame =>
      case Answer(nothingSent, resent) =>
    }
  }

  lemma HeldThroughArrival(c: Config, a: Ring, n: int, f: Frame, k: int)
    requires a.Valid() && CanPut(c, a, n, f) && k in a.got && k != n && !PassedBy(c, a, Arrive(n, f), k)
    ensures Holds(Put(c, a, n, f), k, a.got[k])
  {
    if !Refused(a, n) {
      OpenedValid(a, n);
      var b := Opened(a, n);
      if a.mode == Stream && a.first.Some? {
        var start := if a.r < a.first.value then a.first.value else a.r;
        assert start <= k;
        assert b.r <= k;
      }
      assert Holds(b, k, a.got[k]) && b.r <= k && b.w == a.w;
      HeldThroughPlacing(c, Unpaused(b, n), n, f, k);
    }
  }

  lemma HeldThroughPlacing(c: Config, b: Ring, n: int, f: Frame, k: int)
    requires b.r <= k && k in b.got && k != n && !(IsSilence(f) && b.silence)
    requires !(c.delay != 0 && n > b.w + 1 && n - b.r > c.delay && n - k >= c.delay)
    ensures Holds(Accepted(c, b, n, f), k, b.got[k])
  {}

  // ---- Whole runs --------------------------------------------------------------------------------------

  /** Every packet of the run is within reach of the ring. */
  ghost predicate WithinReach(c: Config, a: Ring, events: seq<Event>)
    decreases |events|
  {
    events != [] ==>
      && (events[0].Arrive? ==> CanPut(c, a, events[0].n, events[0].f))
      && WithinReach(c, Next(c, a, events[0]).0, events[1..])
  }

  function After(c: Config, a: Ring, events: seq<Event>): Ring
    decreases |events|
  {
    if events == [] then a else After(c, Next(c, a, events[0]).0, events[1..])
  }

  /** At some step of the run there is a reason to pass packet k over, or another packet of its number arrives. */
  ghost predicate PassedDuring(c: Config, a: Ring, events: seq<Event>, k: int)
    decreases |events|
  {
    events != [] &&
    (PassedBy(c, a, events[0], k) || (events[0].Arrive? && events[0].n == k)
     || PassedDuring(c, Next(c, a, events[0]).0, events[1..], k))
  }

  /** Over every run, a packet held is played with its contents, or still held at the end, or there was a reason. */
  lemma {:induction false} HeldIsPlayed(c: Config, a: Ring, events: seq<Event>, k: int, f: Frame)
    requires a.Valid() && WithinReach(c, a, events) && Holds(a, k, f)
    ensures (k, f) in Played(c, a, events) || Holds(After(c, a, events), k, f) || PassedDuring(c, a, events, k)
    decreases |events|
  {
    if events != [] {
      var e, rest := events[0], events[1..];
      NextValid(c, a, e);
      HeldStays(c, a, e, k, f);
      if Holds(Next(c, a, e).0, k, f) { HeldIsPlayed(c, Next(c, a, e).0, rest, k, f); }
    }
  }

  /** The same from the arrival of the packet on. */
  lemma {:induction false} ArrivedIsPlayed(c: Config, a: Ring, n: int, f: Frame, rest: seq<Event>)
    requires a.Valid() && WithinReach(c, a, [Arrive(n, f)] + rest) && InTime(a, n) && !LeadingSilence(a, f)
    ensures var b := Next(c, a, Arrive(n, f)).0;
            || (n, f) in Played(c, a, [Arrive(n, f)] + rest)
            || Holds(After(c, b, rest), n, f) || PassedDuring(c, b, rest, n)
  {
    var events := [Arrive(n, f)] + rest;
    assert events[0] == Arrive(n, f) && events[1..] == rest;
    NextValid(c, a, events[0]);
    ArrivalHeld(c, a, n, f);
    HeldIsPlayed(c, Next(c, a, events[0]).0, rest, n, f);
  }

  // ---- Playing -----------------------------------------------------------------------------------------

  /** Nothing keeps the reader from the packet at the read position. */
  ghost predicate Running(a: Ring) { a.mode == Play && a.silenceCount == 0 && !a.pause && a.skip == 0 }

  /** A packet whose turn it is is played, early or not; one that is missing is waited for until its time, and then
      silence takes its place; an empty buffer gives silence only when that is allowed. Each moves the read position
      by one or not at all. */
  lemma FetchIs(c: Config, a: Ring, early: bool)
    requires a.Valid() && Running(a)
    ensures var (b, out) := Next(c, a, Fetch(true, early));
            && (a.r in a.got <==> out == Packet(a.r, if a.r in a.got then a.got[a.r] else []))
            && (a.r !in a.got ==> (out == Nothing <==> early || (a.w < a.r && !c.httpFill)))
            && (out == Nothing ==> b == a)
            && (out != Nothing ==> b.r == a.r + 1 && b.w == (if a.w < a.r then a.w + 1 else a.w))
            && (out != Nothing ==> b.got == a.got - {a.r} && Running(b) && b.first == a.first)
  {
    if a.r !in a.got { assert a.got - {a.r} == a.got; }
  }

  /** Waiting for a session, for the clocks or for a pause to end, and the silence that is owed. */
  lemma FetchHeldBack(c: Config, a: Ring, synced: bool, early: bool)
    ensures var (b, out) := Next(c, a, Fetch(synced, early));
            && (a.mode != Play || !synced ==> b == a && out == Nothing)
            && (a.mode == Play && synced && (a.silenceCount > 0 || a.pause) ==>
                  && out == Silence && b == a.(silenceCount := b.silenceCount)
                  && b.silenceCount == if a.silenceCount > 0 then a.silenceCount - 1 else 0)
  {}

  /** Fetches whose time has come. */
  function Fetches(k: nat): (e: seq<Event>)
    ensures |e| == k
  {
    seq(k, _ => Fetch(true, false))
  }

  /** As many fetches as it is ahead of the read position, and one more, play a packet held. */
  lemma {:induction false} Drained(c: Config, a: Ring, n: int, k: nat)
    requires a.Valid() && Running(a) && n in a.got && k == n - a.r
    ensures (n, a.got[n]) in Played(c, a, Fetches(k + 1))
    decreases k
  {
    var events := Fetches(k + 1);
    var (b, out) := Next(c, a, events[0]);
    FetchIs(c, a, false);
    NextValid(c, a, events[0]);
    if k > 0 {
      Drained(c, b, n, k - 1);
      assert events[1..] == Fetches(k);
    }
  }

  // ---- Holding and skipping ----------------------------------------------------------------------------

  /** A packet that leaves a gap does not find more than delay packets waiting in front of it. */
  lemma HoldBounded(c: Config, a: Ring, n: int, f: Frame)
    requires a.Valid() && CanPut(c, a, n, f) && InTime(a, n) && a.mode != Wait && n > a.w + 1 && c.delay > 0
    ensures var b := Next(c, a, Arrive(n, f)).0; b.w == n && n - b.r <= c.delay
  {
    OpenedValid(a, n);
  }

  /** Before the first sound every silent packet makes room for itself, when the fill is read without wrap-around. */
  lemma SilenceMakesRoom(c: Config, a: Ring, f: Frame)
    requires a.Valid() && a.mode == Play && a.silence && IsSilence(f) && a.first.None? && !a.pause
    requires CanPut(c, a, a.w + 1, f) && a.w % SEQ < SEQ - 1 && a.r % SEQ <= a.w % SEQ
    ensures var b := Next(c, a, Arrive(a.w + 1, f)).0;
            b.w == a.w + 1 && b.silence && b.Fill() == if a.Fill() >= 2 then a.Fill() else a.Fill() + 1
  {
    assert (a.w + 1) % SEQ == a.w % SEQ + 1;
    var d := a.w - a.r;
    assert a.w % SEQ - a.r % SEQ == d by { Unwrapped(a.r, a.w); }
  }

  lemma Unwrapped(r: int, w: int)
    requires r - 1 <= w < r + BUFFER_FRAMES && r % SEQ <= w % SEQ < SEQ - 1
    ensures w % SEQ - r % SEQ == w - r
  {
    var k := w / SEQ - r / SEQ;
    assert w - r == SEQ * k + (w % SEQ - r % SEQ);
  }

  /** The first sound while playing ends it, and nothing else. */
  lemma SoundEndsSilence(c: Config, a: Ring, n: int, f: Frame)
    requires a.Valid() && CanPut(c, a, n, f) && a.mode != Wait && InTime(a, n)
    ensures var b := Next(c, a, Arrive(n, f)).0; b.silence <==> a.silence && (IsSilence(f) || b.mode == Stream)
  {}

  /** Each frame that the drift correction removes is passed at once or owed, and each one owed is passed when there are
      frames to pass: position and debt together move by exactly one. */
  lemma RemovedOnce(c: Config, a: Ring)
    ensures var b := Next(c, a, RemoveFrame).0;
            b.r + b.skip == a.r + a.skip + 1 && b.w == a.w && (b.skip > a.skip <==> a.r >= a.w)
  {}

  lemma {:induction false} DebtPaid(a: Ring)
    ensures var b := Skipped(a);
            && b.r + b.skip == a.r + a.skip && b.w == a.w && (b.skip == 0 || b.r >= b.w)
            && (b.r > a.r ==> b.r <= b.w) && b.mode == a.mode
    decreases a.skip
  {
    if a.skip > 0 && a.r < a.w { DebtPaid(a.Step().(skip := a.skip - 1)); }
  }

  /** A fetch pays what is owed, as far as there are frames, and then goes on from there. */
  lemma FetchPaysDebt(c: Config, a: Ring, early: bool)
    requires a.Valid() && a.mode == Play && a.silenceCount == 0 && !a.pause
    ensures var (b, out) := Next(c, a, Fetch(true, early));
            && b.r + b.skip == a.r + a.skip + (if out == Nothing then 0 else 1)
            && (b.skip == 0 || b.r >= b.w)
  {
    DebtPaid(a);
  }

  // ---- Sessions ----------------------------------------------------------------------------------------

  /** Packets before an announced number change nothing at all. */
  lemma AnnouncedFirst(c: Config, a: Ring, n: int, f: Frame)
    requires a.first.Some? && n < a.first.value
    ensures Next(c, a, Arrive(n, f)).0 == a
  {}

  /** The first packet of a session, at or after an announced number, becomes the read position: playing starts at once
      if it was announced, and else waits for the announcement. Silence before the first sound is dropped again. */
  lemma SessionOpens(c: Config, a: Ring, n: int, f: Frame)
    requires a.Valid() && CanPut(c, a, n, f) && InTime(a, n) && a.mode == Wait
    ensures var b := Next(c, a, Arrive(n, f)).0;
            && b.r == b.w == n && b.got == map[n := f] && b.first == None && b.skip == 0
            && b.mode == (if a.first.Some? then Play else Stream)
            && (b.silence <==> IsSilence(f) || b.mode == Stream)
  {
    assert n % SEQ - n % SEQ == 0;
  }

  /** The announcement of a number lets playing go on, with the next packet that arrives, at the first packet held at or
      after that number. */
  lemma AnnouncementPlays(c: Config, a: Ring, n: int, f: Frame)
    requires a.Valid() && CanPut(c, a, n, f) && a.mode == Stream && a.first.Some? && n >= a.first.value
    ensures var b := Next(c, a, Arrive(n, f)).0;
            && b.mode == Play && b.first == None && b.r >= a.first.value && b.r >= a.r
            && forall m :: m in a.got && a.first.value <= m && b.r > m ==> PassedBy(c, a, Arrive(n, f), m)
  {
    OpenedValid(a, n);
    var start := if a.r < a.first.value then a.first.value else a.r;
    forall m | m in a.got && a.first.value <= m && Next(c, a, Arrive(n, f)).0.r > m
      ensures PassedBy(c, a, Arrive(n, f), m)
    {
      assert Opened(a, n).r <= m;
    }
  }

  /** A flush while playing empties the buffer and waits for the number announced; a silent one only pauses; before
      playing it only announces. */
  lemma FlushIs(c: Config, a: Ring, n: int, silence: bool)
    ensures var b := Next(c, a, Announce(n, silence)).0;
            && b.first == Some(n) && b.w == a.w && b.skip == a.skip
            && (if !silence && a.mode == Play then b.mode == Wait && b.got == map[] && b.Fill() == 0
                else b.mode == a.mode && b.got == a.got && b.r == a.r)
            && b.pause == (a.pause || silence)
  {}

  /** A pause ends with the first packet after the announced one, and with no other. */
  lemma PauseEnds(c: Config, a: Ring, n: int, f: Frame)
    requires a.Valid() && CanPut(c, a, n, f) && a.mode == Play && a.pause && a.first.Some?
    ensures Next(c, a, Arrive(n, f)).0.pause <==> n <= a.first.value
  {
    SeqOrderIs(a.first.value, n);
  }

  /** A RECORD on an empty buffer starts a session: with a number, packets before it are ignored and the first other one
      plays at once; without, the first packet is held until a number is announced. */
  lemma RecordIs(c: Config, a: Ring, k: int, n: int, f: Frame)
    requires a.Valid() && a.got == map[] && CanPut(c, Recorded(a, Some(k)), n, f) && CanPut(c, Recorded(a, None), n, f)
    ensures var b := Next(c, Recorded(a, Some(k)), Arrive(n, f)).0;
            if n < k then b == Recorded(a, Some(k)) else b.mode == Play && b.r == b.w == n && Holds(b, n, f)
    ensures var b := Next(c, Recorded(a, None), Arrive(n, f)).0;
            b.mode == Stream && b.r == b.w == n && Holds(b, n, f)
  {
    assert n % SEQ - n % SEQ == 0;
  }

  /** When nothing has been sent, the silence still to come and the frames there make up the delay, or are more. */
  lemma AnswerFillsUp(c: Config, a: Ring, resent: bool)
    requires a.Valid()
    ensures var b := Next(c, a, Answer(true, resent)).0;
            && b == a.(silenceCount := b.silenceCount) && b.silenceCount + b.Fill() >= c.delay
            && (b.silenceCount > 0 ==> b.silenceCount + b.Fill() == c.delay)
  {}

  /** When the audio sent before is sent again there is none, and otherwise nothing changes. */
  lemma AnswerAgain(c: Config, a: Ring, resent: bool)
    ensures Next(c, a, Answer(false, resent)).0 == if resent then a.(silenceCount := 0) else a
  {}
}
