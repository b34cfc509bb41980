/** The HTTP side of the streamer (common/libraop/src/raop_streamer.c): the cache of what has been encoded, and the
    ICY metadata put between the audio bytes. */
module StreamCache {
  import opened Words

  const CACHE_SIZE := 2048 * 1024

  // ----- What a player makes of the bytes it receives -----

  /** A metadata block is a length byte and sixteen times as many bytes. */
  function BlockSize(length: u8): nat { 1 + 16 * (length as int) }

  /** The audio in s, when remain more audio bytes come before the next metadata block, and how many are to come after
      s.
      None: s ends inside a block. */
  function Listen(s: seq<u8>, interval: nat, remain: nat): (r: Option<(seq<u8>, nat)>)
    ensures r.Some? ==> |r.value.0| <= |s|
    decreases |s|
  {
    if s == [] then Some(([], remain))
    else if remain > 0 then
      (match Listen(s[1..], interval, remain - 1) case None => None case Some((audio, k)) => Some(([s[0]] + audio, k)))
    else if BlockSize(s[0]) > |s| then None
    else Listen(s[BlockSize(s[0])..], interval, interval)
  }

  /** What is heard of more bytes, after x. */
  function Prepended(x: seq<u8>, r: Option<(seq<u8>, nat)>): Option<(seq<u8>, nat)> {
    match r case None => None case Some((y, m)) => Some((x + y, m))
  }

  lemma PrependTwice(x: seq<u8>, y: seq<u8>, r: Option<(seq<u8>, nat)>)
    ensures Prepended(x, Prepended(y, r)) == Prepended(x + y, r) && Prepended([], r) == r
  {
    if r.Some? {
      assert x + (y + r.value.0) == (x + y) + r.value.0 && [] + r.value.0 == r.value.0;
    }
  }

  /** Bytes that end between blocks leave the player ready for what follows. */
  lemma {:induction false} ListenSplits(a: seq<u8>, b: seq<u8>, interval: nat, remain: nat)
    requires Listen(a, interval, remain).Some?
    ensures var (x, k) := Listen(a, interval, remain).value;
            Listen(a + b, interval, remain) == Prepended(x, Listen(b, interval, k))
    decreases |a|
  {
    if a == [] {
      assert a + b == b;
      PrependTwice([], [], Listen(b, interval, remain));
    } else if remain > 0 {
      ListenSplits(a[1..], b, interval, remain - 1);
      var (x, k) := Listen(a[1..], interval, remain - 1).value;
      assert (a + b)[1..] == a[1..] + b;
      PrependTwice([a[0]], x, Listen(b, interval, k));
    } else {
      var n := BlockSize(a[0]);
      ListenSplits(a[n..], b, interval, interval);
      assert (a + b)[n..] == a[n..] + b;
    }
  }

  /** Audio up to the next block. */
  lemma {:induction false} ListenAudio(a: seq<u8>, interval: nat, remain: nat)
    requires |a| <= remain
    ensures Listen(a, interval, remain) == Some((a, remain - |a|))
    decreases |a|
  {
    if a != [] {
      ListenAudio(a[1..], interval, remain - 1);
      assert [a[0]] + a[1..] == a;
    }
  }

  /** A whole block where one is due. */
  lemma ListenBlock(b: seq<u8>, interval: nat)
    requires b != [] && |b| == BlockSize(b[0])
    ensures Listen(b, interval, 0) == Some(([], interval))
  {
    assert b[|b|..] == [];
  }

  /** Audio past the place for a block is not heard as it was sent. */
  lemma {:induction false} ListenTooFar(a: seq<u8>, interval: nat, remain: nat)
    requires |a| > remain
    ensures Listen(a, interval, remain).Some? ==> |Listen(a, interval, remain).value.0| < |a|
    decreases |a|
  {
    if remain > 0 { ListenTooFar(a[1..], interval, remain - 1); }
  }

  /** The metadata blocks that stand between the audio in s. */
  function Blocks(s: seq<u8>, interval: nat, remain: nat): seq<seq<u8>>
    decreases |s|
  {
    if s == [] then []
    else if remain > 0 then Blocks(s[1..], interval, remain - 1)
    else if BlockSize(s[0]) > |s| then []
    else [s[..BlockSize(s[0])]] + Blocks(s[BlockSize(s[0])..], interval, interval)
  }

  lemma {:induction false} BlocksSplit(a: seq<u8>, b: seq<u8>, interval: nat, remain: nat)
    requires Listen(a, interval, remain).Some?
    ensures var k := Listen(a, interval, remain).value.1;
            Blocks(a + b, interval, remain) == Blocks(a, interval, remain) + Blocks(b, interval, k)
    decreases |a|
  {
    if a == [] {
      assert a + b == b;
    } else if remain > 0 {
      BlocksSplit(a[1..], b, interval, remain - 1);
      assert (a + b)[1..] == a[1..] + b;
    } else {
      var n := BlockSize(a[0]);
      var rest := a[n..];
      BlocksSplit(rest, b, interval, interval);
      assert (a + b)[n..] == rest + b && (a + b)[..n] == a[..n];
    }
  }

  lemma {:induction false} BlocksAudio(a: seq<u8>, interval: nat, remain: nat)
    requires |a| <= remain
    ensures Blocks(a, interval, remain) == []
    decreases |a|
  {
    if a != [] { BlocksAudio(a[1..], interval, remain - 1); }
  }

  lemma BlocksOne(b: seq<u8>, interval: nat)
    requires b != [] && |b| == BlockSize(b[0])
    ensures Blocks(b, interval, 0) == [b]
  {
    assert b[|b|..] == [] && b[..|b|] == b;
  }

  /** A whole block; with new metadata it holds the text and zeros to the next multiple of sixteen, and else nothing. */
  predicate Carries(block: seq<u8>, updated: bool, title: seq<u8>) {
    && block != [] && |block| == BlockSize(block[0])
    && if updated then
         title <= block[1..] && |block| <= |title| + 16 && forall i :: |title| < i < |block| ==> block[i] == 0
       else block == [0]
  }

  /** The length byte counts in sixteens: a text of sixteen bytes fills one, and one more needs a second. */
  lemma BlocksOfSixteen(block: seq<u8>, title: seq<u8>)
    requires Carries(block, true, title)
    ensures |title| == 16 ==> block == [1] + title
    ensures |title| == 17 ==> |block| == 33 && block[0] == 2
  {
    if |title| == 16 {
      assert |block| == 17;
      assert block == [block[0]] + block[1..];
    }
  }

  // ----- The cache -----

  /** Byte i of the stream is in the cache, for the last CACHE_SIZE of them. */
  ghost predicate Cached(cache: seq<u8>, stream: seq<u8>) {
    && |cache| == CACHE_SIZE
    && forall i {:trigger stream[i]} :: 0 <= i < |stream| && |stream| - CACHE_SIZE <= i ==>
          cache[i % CACHE_SIZE] == stream[i]
  }

  /** n bytes of data from position at on, copied to the cache. */
  function Copied(cache: seq<u8>, at: nat, data: seq<u8>): (r: seq<u8>)
    requires at + |data| <= |cache|
    ensures |r| == |cache|
  {
    cache[..at] + data + cache[at + |data|..]
  }

  lemma CachedMore(cache: seq<u8>, stream: seq<u8>, data: seq<u8>, at: nat, space: nat)
    requires Cached(cache, stream) && |data| <= CACHE_SIZE && at == |stream| % CACHE_SIZE
    requires space == if |data| < CACHE_SIZE - at then |data| else CACHE_SIZE - at
    ensures Cached(Copied(Copied(cache, at, data[..space]), 0, data[space..]), stream + data)
  {
    var c, s := Copied(Copied(cache, at, data[..space]), 0, data[space..]), stream + data;
    forall i | 0 <= i < |s| && |s| - CACHE_SIZE <= i ensures c[i % CACHE_SIZE] == s[i] {
      if i < |stream| {
        OldPlace(i, |stream|, |data|, at, space);
        assert cache[i % CACHE_SIZE] == stream[i];
      } else {
        NewPlace(i - |stream|, |stream|, at, space);
      }
    }
  }

  /** A byte that stays in the cache is not where the new ones go. */
  lemma OldPlace(i: nat, count: nat, n: nat, at: nat, space: nat)
    requires i < count && count + n - CACHE_SIZE <= i && at == count % CACHE_SIZE
    requires space == if n < CACHE_SIZE - at then n else CACHE_SIZE - at
    ensures n - space <= i % CACHE_SIZE && !(at <= i % CACHE_SIZE < at + space)
  {
    var q, j := count / CACHE_SIZE, i - count + at;
    assert i == CACHE_SIZE * q + j;
    if j >= 0 { DivUnique(i, CACHE_SIZE, q, j); } else { DivUnique(i, CACHE_SIZE, q - 1, j + CACHE_SIZE); }
  }

  lemma NewPlace(k: nat, count: nat, at: nat, space: nat)
    requires at == count % CACHE_SIZE && k < CACHE_SIZE && space <= CACHE_SIZE - at
          && (k >= space ==> space == CACHE_SIZE - at)
    ensures (count + k) % CACHE_SIZE == if k < space then at + k else k - space
  {
    var q := count / CACHE_SIZE;
    assert count + k == CACHE_SIZE * q + (at + k);
    if k < space { DivUnique(count + k, CACHE_SIZE, q, at + k); }
          else { DivUnique(count + k, CACHE_SIZE, q + 1, k - space); }
  }

  // ----- Sending -----

  /** What a player hears of the bytes sent on a connection: with ICY, the audio between the blocks. */
  ghost predicate Heard(out: seq<u8>, active: bool, interval: nat, remain: nat, audio: seq<u8>) {
    if active then Listen(out, interval, interval) == Some((audio, remain)) else out == audio
  }

  lemma HeardAudio(out: seq<u8>, active: bool, interval: nat, remain: nat, audio: seq<u8>, a: seq<u8>)
    requires Heard(out, active, interval, remain, audio) && (active ==> |a| <= remain)
    ensures Heard(out + a, active, interval, if active then remain - |a| else remain, audio + a)
  {
    if active {
      ListenSplits(out, a, interval, interval);
      ListenAudio(a, interval, remain);
    }
  }

  lemma HeardBlock(out: seq<u8>, interval: nat, audio: seq<u8>, b: seq<u8>)
    requires Heard(out, true, interval, 0, audio) && b != [] && |b| == BlockSize(b[0])
    ensures Heard(out + b, true, interval, interval, audio)
  {
    ListenSplits(out, b, interval, interval);
    ListenBlock(b, interval);
    assert audio + [] == audio;
  }

  class HttpStream {
    const cache: array<u8>
    const interval: nat
    /** http_count. */
    var count: nat
    /** icy.active, icy.remain and icy.updated, and the text of the metadata. */
    var active: bool
    var remain: nat
    var updated: bool
    var title: seq<u8>
    /** The bytes sent on the connection. */
    var out: seq<u8>
    /** The bytes encoded since the count was last reset, and the audio sent on the connection. */
    ghost var stream: seq<u8>
    ghost var audio: seq<u8>

    ghost predicate Valid()
      reads this, cache
    {
      && cache.Length == CACHE_SIZE && interval > 0 && count == |stream| && Cached(cache[..], stream)
      && remain <= interval && Heard(out, active, interval, remain, audio)
    }

    constructor (interval: nat)
      requires interval > 0
      ensures Valid() && stream == [] && audio == [] && !active && fresh(cache) && this.interval == interval
            && title == []
    {
      cache := new u8[CACHE_SIZE];
      this.interval, count, active, remain, updated, title := interval, 0, false, 0, false, [];
      out, stream, audio := [], [], [];
    }

    /** memcpy to the cache. */
    method Copy(at: nat, data: seq<u8>)
      requires at + |data| <= cache.Length
      modifies cache
      ensures cache[..] == Copied(old(cache[..]), at, data)
    {
      var i := 0;
      ghost var before := cache[..];
      while i < |data|
        invariant 0 <= i <= |data| && cache[..] == Copied(before, at, data[..i])
      {
        cache[at + i] := data[i];
        i := i + 1;
      }
      assert data[..i] == data;
    }

    /** The encoded bytes go to the cache, which wraps around. */
    method Store(data: seq<u8>)
      requires Valid() && |data| <= CACHE_SIZE
      modifies `count, `stream, cache
      ensures Valid() && stream == old(stream) + data
    {
      var at := count % CACHE_SIZE;
      var space := if |data| < CACHE_SIZE - at then |data| else CACHE_SIZE - at;
      CachedMore(cache[..], stream, data, at, space);
      Copy(at, data[..space]);
      Copy(0, data[space..]);
      count := count + |data|;
      stream := stream + data;
    }

    /** The metadata block: the length byte, the text when it is new, and zeros to a multiple of sixteen. */
    method MakeBlock() returns (block: seq<u8>)
      requires |title| <= 255 * 16
      modifies `updated
      ensures Carries(block, old(updated), title) && !updated
    {
      var len16 := 0;
      block := [];
      if updated {
        len16 := (|title| + 15) / 16;
        block := title + seq(len16 * 16 - |title|, _ => 0);
        updated := false;
      }
      block := [len16] + block;
    }

    /** New metadata. */
    method SetTitle(text: seq<u8>)
      requires Valid()
      modifies `title, `updated
      ensures Valid() && title == text && updated
    {
      title, updated := text, true;
    }

    /** raopst_flush while playing closes the connection, and the stream starts anew. */
    method Restart()
      requires Valid()
      modifies `count, `stream, `out, `audio, `active
      ensures Valid() && stream == [] && audio == [] && !active
    {
      count, stream, out, audio, active := 0, [], [], [], false;
    }

    /** send_data, when everything is taken. */
    method Send(data: seq<u8>, ghost isAudio: bool)
      modifies `out, `audio
      ensures out == old(out) + data && audio == old(audio) + if isAudio then data else []
    {
      out := out + data;
      audio := audio + if isAudio then data else [];
    }

    /** The block is due inside the data: the audio before it, and the block. */
    method SendBlock(data: seq<u8>) returns (rest: seq<u8>, ghost block: seq<u8>)
      requires Valid() && active && remain < |data| && |title| <= 255 * 16
      modifies `updated, `out, `audio, `remain
      ensures Valid() && remain == interval && old(remain) <= |data| && rest == data[old(remain)..]
      ensures audio == old(audio) + data[..old(remain)]
      ensures Carries(block, old(updated), title) && !updated
      ensures Blocks(out, interval, interval) == old(Blocks(out, interval, interval)) + [block]
    {
      var made := MakeBlock();
      block := made;
      var before := data[..remain];
      DueBlock(out, interval, remain, audio, before, made);
      if remain != 0 {
        Send(before, true);
      } else {
        assert out + before == out && audio + before == audio;
      }
      Send(made, false);
      assert audio == old(audio) + before;
      rest := data[remain..];
      remain := interval;
    }

    /** The part of http_thread_func after encoder_encode. With ICY, the block goes out once the audio before it is
        complete; the data may be no longer than what fits before the block after. The blocks sent are none, or one with
        the metadata. */
    method Encoded(data: seq<u8>) returns (ghost blocks: seq<seq<u8>>)
      requires Valid() && 0 < |data| <= CACHE_SIZE && |title| <= 255 * 16
      requires active ==> |data| <= remain + interval
      modifies `count, `stream, `updated, `out, `audio, `remain, cache
      ensures Valid() && stream == old(stream) + data && audio == old(audio) + data
      ensures |blocks| == if active && |data| > old(remain) then 1 else 0
      ensures forall b :: b in blocks ==> Carries(b, old(updated), title)
      ensures updated == (old(updated) && blocks == [])
      ensures active ==> Blocks(out, interval, interval) == old(Blocks(out, interval, interval)) + blocks
    {
      Store(data);
      var rest := data;
      blocks := [];
      if active && |data| > remain {
        ghost var block;
        rest, block := SendBlock(data);
        blocks := [block];
        assert data[..old(remain)] + rest == data;
      }
      HeardAudio(out, active, interval, remain, audio, rest);
      if active { NoBlocks(out, interval, remain, audio, rest); }
      Send(rest, true);
      if active { remain := remain - |rest|; }
    }

    /** handle_http, without a range: ICY starts anew, and what is still in the cache from the start of the stream is
        sent again, with empty blocks. */
    method AnswerGet(icy: bool)
      requires Valid()
      modifies `out, `audio, `remain, `active
      ensures Valid() && active == icy
      ensures audio == if 0 < |stream| <= CACHE_SIZE then stream else []
      ensures active ==> forall b :: b in Blocks(out, interval, interval) ==> b == [0]
    {
      out, audio := [], [];
      if icy {
        remain := interval;
        active := true;
      } else {
        active := false;
      }
      if count != 0 && count <= CACHE_SIZE {
        Resend();
      }
    }

    /** The loop that sends the cache again. */
    method Resend()
      requires Valid() && audio == [] && |stream| <= CACHE_SIZE && (active ==> remain == interval)
      modifies `out, `audio, `remain
      requires active ==> out == []
      ensures Valid() && audio == stream
      ensures active ==> forall b :: b in Blocks(out, interval, interval) ==> b == [0]
    {
      var sent := 0;
      while sent != count
        invariant Valid() && sent <= count && audio == stream[..sent] && (active ==> remain > 0)
        invariant active ==> forall b :: b in Blocks(out, interval, interval) ==> b == [0]
        decreases count - sent
      {
        sent := ResendPart(sent);
      }
      assert stream[..sent] == stream;
    }

    /** Up to the next block, or 16384 bytes; then an empty block if one is due. */
    method ResendPart(sent0: nat) returns (sent: nat)
      requires Valid() && sent0 < count <= CACHE_SIZE && audio == stream[..sent0] && (active ==> remain > 0)
      requires active ==> forall b :: b in Blocks(out, interval, interval) ==> b == [0]
      modifies `out, `audio, `remain
      ensures Valid() && sent0 < sent <= count && audio == stream[..sent] && (active ==> remain > 0)
      ensures active ==> forall b :: b in Blocks(out, interval, interval) ==> b == [0]
    {
      var bytes := if active then remain else 16384;
      if bytes > count - sent0 { bytes := count - sent0; }
      var at := sent0 % CACHE_SIZE;
      FromCache(cache[..], stream, sent0, bytes);
      var data := cache[at..at + bytes];
      HeardAudio(out, active, interval, remain, audio, data);
      if active { NoBlocks(out, interval, remain, audio, data); }
      Send(data, true);
      sent := sent0 + bytes;
      if active {
        remain := remain - bytes;
        if remain == 0 { SendEmptyBlock(); }
      }
    }

    method SendEmptyBlock()
      requires Valid() && active && remain == 0
      modifies `out, `audio, `remain
      ensures Valid() && remain == interval && audio == old(audio)
      ensures Blocks(out, interval, interval) == old(Blocks(out, interval, interval)) + [[0]]
    {
      HeardBlock(out, interval, audio, [0]);
      OneBlock(out, interval, audio, [0]);
      Send([0], false);
      assert audio == old(audio);
      remain := interval;
    }

    /** A run of encoded blocks: new metadata goes out with the first block due, and only there. */
    method EncodeAll(blocks: seq<seq<u8>>) returns (ghost sent: seq<seq<u8>>)
      requires Valid() && |title| <= 255 * 16
      requires forall b :: b in blocks ==> 0 < |b| <= CACHE_SIZE && |b| <= interval
      modifies `count, `stream, `updated, `out, `audio, `remain, cache
      ensures Valid() && stream == old(stream) + Joined(blocks) && audio == old(audio) + Joined(blocks)
      ensures active ==> Blocks(out, interval, interval) == old(Blocks(out, interval, interval)) + sent
      ensures Once(sent, old(updated), title) && updated == (old(updated) && sent == [])
    {
      ghost var start, heard, was, isNew := stream, audio, Blocks(out, interval, interval), updated;
      var i := 0;
      sent := [];
      assert was + [] == was;
      while i < |blocks|
        invariant 0 <= i <= |blocks| && Valid()
        invariant stream == start + Joined(blocks[..i]) && audio == heard + Joined(blocks[..i])
        invariant active ==> Blocks(out, interval, interval) == was + sent
        invariant Once(sent, isNew, title) && updated == (isNew && sent == [])
      {
        assert blocks[i] in blocks;
        JoinedNext(start, blocks, i);
        JoinedNext(heard, blocks, i);
        ghost var more := Encoded(blocks[i]);
        OnceMore(sent, more, isNew, title);
        JoinTwice(was, sent, more);
        sent := sent + more;
        i := i + 1;
      }
      assert blocks[..i] == blocks;
    }
  }

  /** The first of the blocks carries the metadata, if it is new, and the others nothing. */
  predicate Once(blocks: seq<seq<u8>>, updated: bool, title: seq<u8>) {
    && (blocks != [] ==> Carries(blocks[0], updated, title))
    && forall i :: 1 <= i < |blocks| ==> blocks[i] == [0]
  }

  lemma OnceMore(sent: seq<seq<u8>>, more: seq<seq<u8>>, updated: bool, title: seq<u8>)
    requires Once(sent, updated, title) && |more| <= 1
    requires forall b :: b in more ==> Carries(b, updated && sent == [], title)
    ensures Once(sent + more, updated, title)
  {
    if more != [] { assert more[0] in more; }
  }

  lemma JoinTwice(a: seq<seq<u8>>, b: seq<seq<u8>>, c: seq<seq<u8>>)
    ensures a + (b + c) == a + b + c
  {}

  lemma NoBlocks(out: seq<u8>, interval: nat, remain: nat, audio: seq<u8>, a: seq<u8>)
    requires Heard(out, true, interval, remain, audio) && |a| <= remain
    ensures Blocks(out + a, interval, interval) == Blocks(out, interval, interval)
  {
    BlocksSplit(out, a, interval, interval);
    BlocksAudio(a, interval, remain);
    assert Blocks(out, interval, interval) + [] == Blocks(out, interval, interval);
  }

  lemma OneBlock(out: seq<u8>, interval: nat, audio: seq<u8>, b: seq<u8>)
    requires Heard(out, true, interval, 0, audio) && b != [] && |b| == BlockSize(b[0])
    ensures Blocks(out + b, interval, interval) == Blocks(out, interval, interval) + [b]
  {
    BlocksSplit(out, b, interval, interval);
    BlocksOne(b, interval);
  }

  lemma JoinedNext(front: seq<u8>, blocks: seq<seq<u8>>, i: nat)
    requires i < |blocks|
    ensures front + Joined(blocks[..i + 1]) == (front + Joined(blocks[..i])) + blocks[i]
  {
    assert blocks[..i + 1][..i] == blocks[..i];
  }

  /** Audio that follows a block is heard as it was sent exactly when it is no longer than the interval. */
  lemma HeardExactly(out: seq<u8>, interval: nat, audio: seq<u8>, rest: seq<u8>)
    requires Heard(out, true, interval, interval, audio)
    ensures (Listen(out + rest, interval, interval).Some?
          && Listen(out + rest, interval, interval).value.0 == audio + rest)
       <==> |rest| <= interval
  {
    if |rest| <= interval {
      HeardAudio(out, true, interval, interval, audio, rest);
    } else {
      ListenSplits(out, rest, interval, interval);
      ListenTooFar(rest, interval, interval);
    }
  }

  lemma DueBlock(out: seq<u8>, interval: nat, remain: nat, audio: seq<u8>, before: seq<u8>, block: seq<u8>)
    requires Heard(out, true, interval, remain, audio) && |before| == remain && block != []
          && |block| == BlockSize(block[0])
    ensures Heard((out + before) + block, true, interval, interval, audio + before)
    ensures Blocks((out + before) + block, interval, interval) == Blocks(out, interval, interval) + [block]
  {
    HeardAudio(out, true, interval, remain, audio, before);
    HeardBlock(out + before, interval, audio + before, block);
    NoBlocks(out, interval, remain, audio, before);
    OneBlock(out + before, interval, audio + before, block);
  }

  /** The cache of a stream that has not filled it is the stream. */
  lemma FromCache(cache: seq<u8>, stream: seq<u8>, sent: nat, bytes: nat)
    requires Cached(cache, stream) && |stream| <= CACHE_SIZE && sent + bytes <= |stream| && bytes > 0
    ensures var at := sent % CACHE_SIZE;
            at + bytes <= |cache| && stream[..sent] + cache[at..at + bytes] == stream[..sent + bytes]
  {
    assert sent % CACHE_SIZE == sent;
    forall i | sent <= i < sent + bytes ensures cache[i] == stream[i] { assert i % CACHE_SIZE == i; }
  }

  // ----- Whole runs -----

  function Joined(blocks: seq<seq<u8>>): seq<u8> {
    if blocks == [] then [] else Joined(blocks[..|blocks| - 1]) + blocks[|blocks| - 1]
  }

  /** Blocks encoded before a player connects and after: the cache holds the last of them, and what the player hears is
      all of them if the cache still had the first, and else those after it connected. The metadata it sees are the
      text, once, and before and after it nothing. */
  method Run(before: seq<seq<u8>>, icy: bool, text: seq<u8>, after: seq<seq<u8>>, interval: nat)
    returns (s: HttpStream, ghost again: seq<seq<u8>>, ghost since: seq<seq<u8>>)
    requires interval > 0 && |text| <= 255 * 16
    requires forall b :: b in before || b in after ==> 0 < |b| <= CACHE_SIZE && |b| <= interval
    ensures fresh(s) && Cached(s.cache[..], Joined(before) + Joined(after))
    ensures var audio := (if |Joined(before)| <= CACHE_SIZE then Joined(before) else []) + Joined(after);
            if icy then Listen(s.out, interval, interval) == Some((audio, s.remain)) else s.out == audio
    ensures icy ==> Blocks(s.out, interval, interval) == again + since
                    && (forall b :: b in again ==> b == [0]) && Once(since, true, text)
  {
    s := new HttpStream(interval);
    ghost var none := s.EncodeAll(before);
    assert s.stream == Joined(before);
    s.AnswerGet(icy);
    assert s.audio == if |Joined(before)| <= CACHE_SIZE then Joined(before) else [];
    again := Blocks(s.out, interval, interval);
    s.SetTitle(text);
    since := s.EncodeAll(after);
  }
}
