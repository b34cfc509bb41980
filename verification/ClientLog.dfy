/** What an audio client may put on the wire, and when: a monitor over the log of its actions. */
module ClientLog {
  import opened Words

  datatype RState = Down | Flushing | Flushed | Streaming

  datatype Event =
    | Entry(before: RState)                     // state becomes RAOP_STREAMING
    | Left                                    // state becomes something else
    | FirstSync(ts: u64)
    | Sync(ts: u64)
    | Built(number: u16, ts: u64, marker: bool)  // a packet gets its number, stamp and marker bit
    | Audio(number: u16)                         // a packet goes to the audio port
    | Resent(number: u16)                        // a stored packet goes to the control port
    | Cleared                                 // first_pkt is dropped

  /** Streaming; a first sync is due; the first packet since the last entry is still to be built. */
  datatype Monitor = Monitor(streaming: bool, syncDue: bool, pending: bool)

  /** None when the protocol does not allow the event. */
  function Watch1(m: Monitor, e: Event): Option<Monitor> {
    match e
    case Entry(before) => if before == Flushed && !m.streaming && !m.syncDue then Some(Monitor(true, true, true))
          else None
    case FirstSync(_) => if m.streaming && m.syncDue then Some(m.(syncDue := false)) else None
    case Left => if m.syncDue then None else Some(m.(streaming := false))
    case Sync(_) => if m.syncDue then None else Some(m)
    case Built(_, _, marker) => if m.syncDue || marker != m.pending then None else Some(m.(pending := false))
    case Audio(_) => if m.streaming && !m.syncDue then Some(m) else None
    case Resent(_) => if m.syncDue then None else Some(m)
    case Cleared => if m.syncDue then None else Some(m.(pending := false))
  }

  function Watch(log: seq<Event>): Option<Monitor> {
    if log == [] then Some(Monitor(false, false, false))
    else
      match Watch(log[..|log| - 1])
      case None => None
      case Some(m) => Watch1(m, log[|log| - 1])
  }

  /** The protocol allows the log, and the monitor then says m. */
  ghost predicate Watched(log: seq<Event>, m: Monitor) {
    forall u {:trigger Unfold(u)} :: u == 0 ==> Watch(log) == Some(m)
  }

  lemma WatchedIs(log: seq<Event>, m: Monitor)
    ensures Watched(log, m) <==> Watch(log) == Some(m)
  {
    assert Unfold(0);
  }

  lemma WatchedNext(log: seq<Event>, m: Monitor, e: Event)
    requires Watched(log, m) && Watch1(m, e).Some?
    ensures Watched(log + [e], Watch1(m, e).value)
  {
    WatchedIs(log, m);
    WatchMore(log, e);
  }

  lemma WatchMore(log: seq<Event>, e: Event)
    ensures Watch(log + [e]) == match Watch(log) case None => None case Some(m) => Watch1(m, e)
  {
    assert (log + [e])[..|log|] == log;
  }

  lemma {:induction false} WatchPrefix(log: seq<Event>, n: nat)
    requires n <= |log| && Watch(log).Some?
    ensures Watch(log[..n]).Some?
    decreases |log|
  {
    if n < |log| {
      WatchPrefix(log[..|log| - 1], n);
      assert log[..|log| - 1][..n] == log[..n];
    } else {
      assert log[..n] == log;
    }
  }

  /** Entered at j, out of RAOP_FLUSHED, with its one first sync right behind, and not left since. */
  predicate StreamingSince(log: seq<Event>, j: nat) {
    && j + 1 < |log| && log[j] == Entry(Flushed) && log[j + 1].FirstSync?
    && forall k :: j + 1 < k < |log| ==> !log[k].Left? && !log[k].Entry? && !log[k].FirstSync?
  }

  /** Nothing has been built or dropped since the entry at j. */
  predicate FreshSince(log: seq<Event>, j: nat) {
    j < |log| && log[j].Entry? && forall k :: j < k < |log| ==> !log[k].Built? && !log[k].Cleared? && !log[k].Entry?
  }

  /** What the monitor's flags mean. */
  lemma {:induction false} Meaning(log: seq<Event>)
    requires Watch(log).Some?
    ensures var m := Watch(log).value;
            && (m.streaming && !m.syncDue <==> exists j: nat :: StreamingSince(log, j))
            && (m.syncDue <==> log != [] && log[|log| - 1].Entry?)
            && (m.syncDue ==> log[|log| - 1] == Entry(Flushed) && m.streaming)
            && (m.pending <==> exists j: nat :: FreshSince(log, j))
  {
    if log != [] {
      var n := |log| - 1;
      var past, e := log[..n], log[n];
      Meaning(past);
      forall j: nat ensures StreamingSince(past, j) && !e.Left? && !e.Entry? && !e.FirstSync? ==>
            StreamingSince(log, j) {}
      forall j: nat ensures StreamingSince(log, j) && j + 1 < n ==>
            StreamingSince(past, j) && !e.Left? && !e.Entry? && !e.FirstSync? {}
      forall j: nat ensures FreshSince(past, j) && !e.Built? && !e.Cleared? && !e.Entry? ==> FreshSince(log, j) {}
      forall j: nat ensures FreshSince(log, j) && j < n ==>
            FreshSince(past, j) && !e.Built? && !e.Cleared? && !e.Entry? {}
      if e.FirstSync? {
        assert past[n - 1] == log[n - 1];
        assert StreamingSince(log, n - 1);
      }
      if e.Entry? { assert FreshSince(log, n); }
    }
  }

  /** No audio packet is sent except in an episode of streaming, entered from RAOP_FLUSHED, whose one first sync
      preceded it. */
  lemma AudioOnlyWhileStreaming(log: seq<Event>, i: nat)
    requires Watch(log).Some? && i < |log| && log[i].Audio?
    ensures exists j: nat :: StreamingSince(log[..i], j)
  {
    WatchPrefix(log, i + 1);
    assert log[..i + 1] == log[..i] + [log[i]];
    WatchMore(log[..i], log[i]);
    Meaning(log[..i]);
  }

  /** The marker is on exactly the first packet built after an entry. */
  lemma MarkerOnFirstPacket(log: seq<Event>, i: nat)
    requires Watch(log).Some? && i < |log| && log[i].Built?
    ensures log[i].marker <==> exists j: nat :: FreshSince(log[..i], j)
  {
    WatchPrefix(log, i + 1);
    assert log[..i + 1] == log[..i] + [log[i]];
    WatchMore(log[..i], log[i]);
    Meaning(log[..i]);
  }

  /** Every entry is from RAOP_FLUSHED, and its first sync is the next event of all. */
  lemma EntryThenSync(log: seq<Event>, i: nat)
    requires Watch(log).Some? && i < |log| && log[i].Entry?
    ensures log[i].before == Flushed && (i + 1 < |log| ==> log[i + 1].FirstSync?)
  {
    WatchPrefix(log, i + 1);
    assert log[..i + 1] == log[..i] + [log[i]];
    WatchMore(log[..i], log[i]);
    if i + 1 < |log| {
      WatchPrefix(log, i + 2);
      assert log[..i + 2] == log[..i + 1] + [log[i + 1]];
      WatchMore(log[..i + 1], log[i + 1]);
    }
  }
}
