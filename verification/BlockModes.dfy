/** Cipher block chaining as used on audio packets, and the counter mode of aes_ctr.c. */
module BlockModes {
  import opened AesField
  import opened AesTables
  import opened Aes
  import opened Words
  import AesStandard

  // ---- Byte strings ----------------------------------------------------------------------------------

  type Block = b: seq<bv8> | |b| == 16 witness seq(16, _ => 0)

  function XorBytewise(a: seq<bv8>, b: seq<bv8>): (c: seq<bv8>)
    requires |a| == |b|
    ensures |c| == |a| && forall i :: 0 <= i < |c| ==> c[i] == Add(a[i], b[i])
  {
    seq(|a|, i requires 0 <= i < |a| => Add(a[i], b[i]))
  }

  lemma XorTwice(a: seq<bv8>, b: seq<bv8>)
    requires |a| == |b|
    ensures XorBytewise(XorBytewise(a, b), b) == a
  {
    forall i | 0 <= i < |a| ensures Add(Add(a[i], b[i]), b[i]) == a[i] { AddLaws(a[i], b[i]); }
  }

  // ---- Cipher block chaining, section 6.2 of NIST SP 800-38A ------------------------------------------

  /** Encryption of the whole blocks; a last part shorter than a block stays clear. */
  function CbcEncrypt(e: Block -> Block, iv: Block, p: seq<bv8>): (c: seq<bv8>)
    ensures |c| == |p|
    decreases |p|
  {
    if |p| < 16 then p
    else
      var c := e(XorBytewise(p[..16], iv));
      c + CbcEncrypt(e, c, p[16..])
  }

  /** CBC decryption of a whole number of blocks. */
  function CbcDecrypt(d: Block -> Block, iv: Block, c: seq<bv8>): (p: seq<bv8>)
    requires |c| % 16 == 0
    ensures |p| == |c|
    decreases |c|
  {
    if c == [] then []
    else XorBytewise(d(c[..16]), iv) + CbcDecrypt(d, c[..16], c[16..])
  }

  /** Block k of the ciphertext, and of the plaintext. */
  function Nth(s: seq<bv8>, k: nat): Block
    requires 16 * k + 16 <= |s|
  {
    s[16 * k..16 * k + 16]
  }

  /** Each block is encrypted after the block before it has been added, the first after the initialization vector; the
      rest of the packet is not encrypted. */
  lemma {:induction false} CbcBlock(e: Block -> Block, iv: Block, p: seq<bv8>, k: nat)
    requires 16 * k + 16 <= |p|
    ensures Nth(CbcEncrypt(e, iv, p), k)
         == e(XorBytewise(Nth(p, k), if k == 0 then iv else Nth(CbcEncrypt(e, iv, p), k - 1)))
    decreases k
  {
    var c: Block := e(XorBytewise(p[..16], iv));
    var q, r := CbcEncrypt(e, iv, p), CbcEncrypt(e, c, p[16..]);
    assert q == c + r && q[..16] == c;
    if k > 0 {
      var j := k - 1;
      CbcBlock(e, c, p[16..], j);
      assert Nth(p[16..], j) == Nth(p, k) && Nth(r, j) == Nth(q, k);
      if j > 0 { assert Nth(r, j - 1) == Nth(q, j); } else { assert Nth(q, j) == c; }
    }
  }

  lemma {:induction false} CbcTail(e: Block -> Block, iv: Block, p: seq<bv8>)
    ensures CbcEncrypt(e, iv, p)[|p| - |p| % 16..] == p[|p| - |p| % 16..]
    decreases |p|
  {
    if |p| >= 16 {
      var c: Block := e(XorBytewise(p[..16], iv));
      CbcTail(e, c, p[16..]);
      assert (c + CbcEncrypt(e, c, p[16..]))[|p| - |p| % 16..] == CbcEncrypt(e, c, p[16..])[|p| - 16 - |p| % 16..];
    }
  }

  /** The packet that alac_decode hands on: the length rounded down to blocks is decrypted, the rest copied. */
  function PacketDecrypt(d: Block -> Block, iv: Block, c: seq<bv8>): seq<bv8> {
    var aeslen := |c| - |c| % 16;
    CbcDecrypt(d, iv, c[..aeslen]) + c[aeslen..]
  }

  /** The first block and the rest of a packet that is decrypted up to byte n. */
  lemma FirstBlock(d: Block -> Block, iv: Block, c: Block, rest: seq<bv8>, n: nat, m: nat)
    requires m == |rest| - |rest| % 16 && n == m + 16
    ensures (c + rest)[n..] == rest[m..] && |(c + rest)[..n]| % 16 == 0
    ensures CbcDecrypt(d, iv, (c + rest)[..n]) == XorBytewise(d(c), iv) + CbcDecrypt(d, c, rest[..m])
  {
    var head := (c + rest)[..n];
    assert head[..16] == c && head[16..] == rest[..m];
  }

  lemma PacketStep(d: Block -> Block, iv: Block, c: Block, rest: seq<bv8>)
    ensures PacketDecrypt(d, iv, c + rest) == XorBytewise(d(c), iv) + PacketDecrypt(d, c, rest)
  {
    var m := |rest| - |rest| % 16;
    var n := |c + rest| - |c + rest| % 16;
    FirstBlock(d, iv, c, rest, n, m);
  }

  lemma ShortPacket(d: Block -> Block, iv: Block, p: seq<bv8>)
    requires |p| < 16
    ensures PacketDecrypt(d, iv, p) == p
  {
    assert p[..0] == [] && p[0..] == p;
  }

  /** For every packet length, decryption as the receiver applies it undoes the sender's encryption. */
  lemma {:induction false} PacketRoundTrip(e: Block -> Block, d: Block -> Block, iv: Block, p: seq<bv8>)
    requires forall b: Block :: d(e(b)) == b
    ensures PacketDecrypt(d, iv, CbcEncrypt(e, iv, p)) == p
    decreases |p|
  {
    if |p| < 16 {
      ShortPacket(d, iv, p);
    } else {
      var first, tail := p[..16], p[16..];
      var x: Block := XorBytewise(first, iv);
      var c: Block := e(x);
      PacketRoundTrip(e, d, c, tail);
      PacketStep(d, iv, c, CbcEncrypt(e, c, tail));
      XorTwice(first, iv);
      assert p == first + tail;
    }
  }

  /** The sender and receiver use AES under the same key. */
  lemma AesPacketRoundTrip(f: Field, key: seq<Col>, iv: Block, p: seq<bv8>)
    requires f.Valid() && |key| >= 4
    ensures PacketDecrypt((b: Block) => DecryptBlock(f, key, b), iv,
          CbcEncrypt((b: Block) => EncryptBlock(f, key, b), iv, p)) == p
  {
    var e: Block -> Block := (b: Block) => EncryptBlock(f, key, b);
    var d: Block -> Block := (b: Block) => DecryptBlock(f, key, b);
    forall b: Block ensures d(e(b)) == b { DecryptEncryptBlock(f, key, b); }
    PacketRoundTrip(e, d, iv, p);
  }

  /** The same with the S-box of FIPS 197. */
  lemma StandardPacketRoundTrip(key: seq<Col>, iv: Block, p: seq<bv8>)
    requires |key| >= 4
    ensures PacketDecrypt((b: Block) => DecryptBlock(AesStandard.Standard(), key, b), iv,
                          CbcEncrypt((b: Block) => EncryptBlock(AesStandard.Standard(), key, b), iv, p)) == p
  {
    AesStandard.StandardValid();
    AesPacketRoundTrip(AesStandard.Standard(), key, iv, p);
  }

  function Encrypting(f: Field, key: seq<Col>): Block -> Block
    requires |key| >= 4
  {
    (b: Block) => EncryptBlock(f, key, b)
  }

  /** e is the block function of the context's key. */
  ghost predicate Keyed(ctx: AesContext, e: Block -> Block)
    reads ctx
  {
    |ctx.key| >= 4 && forall u {:trigger Unfold(u)} :: u == 0 ==> e == Encrypting(ctx.field, ctx.key)
  }

  /** raopcl_encrypt: in place; returns how much was encrypted. */
  method PacketEncrypt(ctx: AesContext, t: Tables, iv: Block, data: array<bv8>, size: nat, ghost e: Block -> Block)
    returns (done: nat)
    requires ctx.Valid() && Generated(t, ctx.field) && Keyed(ctx, e) && size <= data.Length
    modifies data
    ensures data[..size] == CbcEncrypt(e, iv, old(data[..size])) && data[size..] == old(data[size..])
    ensures done == size - size % 16
  {
    ghost var p, now := data[..size], data[..];
    var nv: Block := iv;
    done := 0;
    ChainStarts(e, iv, p, now);
    while done + 16 <= size
      invariant now == data[..] && done <= size && done % 16 == 0
      invariant Chained(e, iv, p, old(data[..]), now, nv, done)
    {
      ghost var was := now;
      var c := EncryptOne(ctx, t, nv, data, done, e);
      now := data[..];
      Chaining(e, iv, p, old(data[..]), was, now, nv, c, done);
      nv := c;
      done := done + 16;
    }
    ChainedAll(e, iv, p, old(data[..]), now, nv, done);
    assert data[..size] == now[..size] && data[size..] == now[size..] && old(data[size..]) == old(data[..])[size..];
  }

  /** The packet p after its first part has been encrypted in place. */
  ghost predicate Chained(e: Block -> Block, iv: Block, p: seq<bv8>, before: seq<bv8>, now: seq<bv8>, nv: Block,
        done: nat) {
    forall u {:trigger Unfold(u)} :: u == 0 ==>
      && done <= |p| <= |now| == |before| && now[done..|p|] == p[done..] && now[|p|..] == before[|p|..]
      && now[..done] + CbcEncrypt(e, nv, p[done..]) == CbcEncrypt(e, iv, p)
  }

  lemma ChainStarts(e: Block -> Block, iv: Block, p: seq<bv8>, before: seq<bv8>)
    requires p <= before
    ensures Chained(e, iv, p, before, before, iv, 0)
  {
    assert p[0..] == p && before[0..|p|] == p && before[..0] == [];
    assert [] + CbcEncrypt(e, iv, p) == CbcEncrypt(e, iv, p);
  }

  lemma Chaining(e: Block -> Block, iv: Block, p: seq<bv8>, before: seq<bv8>, was: seq<bv8>, now: seq<bv8>, nv: Block,
                 c: Block, done: nat)
    requires Chained(e, iv, p, before, was, nv, done) && done + 16 <= |p| <= |was| && Outside(done, now, was)
    requires c == e(XorBytewise(was[done..done + 16], nv)) && now[done..done + 16] == c
    ensures Chained(e, iv, p, before, now, c, done + 16)
  {
    assert Unfold(0);
    Advanced(e, nv, p, c, was, now, done);
  }

  lemma ChainedAll(e: Block -> Block, iv: Block, p: seq<bv8>, before: seq<bv8>, now: seq<bv8>, nv: Block, done: nat)
    requires Chained(e, iv, p, before, now, nv, done) && |p| < done + 16
    ensures |p| <= |now| == |before| && now[..|p|] == CbcEncrypt(e, iv, p) && now[|p|..] == before[|p|..]
  {
    assert Unfold(0);
    assert now[..|p|] == now[..done] + now[done..|p|];
  }

  /** One pass of the loop. */
  method EncryptOne(ctx: AesContext, t: Tables, nv: Block, data: array<bv8>, at: nat, ghost e: Block -> Block)
    returns (c: Block)
    requires ctx.Valid() && Generated(t, ctx.field) && Keyed(ctx, e) && at + 16 <= data.Length
    modifies data
    ensures c == e(XorBytewise(old(data[at..at + 16]), nv)) && data[at..at + 16] == c
    ensures Outside(at, data[..], old(data[..]))
  {
    XorInto(data, at, nv);
    ctx.Encrypt(t, data, at, data, at);
    c := data[at..at + 16];
    assert Unfold(0);
  }

  lemma Advanced(e: Block -> Block, nv: Block, p: seq<bv8>, c: Block, was: seq<bv8>, now: seq<bv8>, done: nat)
    requires done + 16 <= |p| <= |was| && Outside(done, now, was)
    requires was[done..|p|] == p[done..] && c == e(XorBytewise(was[done..done + 16], nv)) && now[done..done + 16] == c
    ensures now[..done + 16] + CbcEncrypt(e, c, p[done + 16..]) == was[..done] + CbcEncrypt(e, nv, p[done..])
    ensures now[done + 16..|p|] == p[done + 16..] && now[|p|..] == was[|p|..]
  {
    assert was[done..done + 16] == was[done..|p|][..16] == p[done..][..16];
    assert p[done..][16..] == p[done + 16..];
    assert now[..done + 16] == was[..done] + c;
    forall i | done + 16 <= i < |p| ensures now[i] == p[i] { assert was[i] == was[done..|p|][i - done]; }
  }

  method XorInto(data: array<bv8>, at: nat, nv: Block)
    requires at + 16 <= data.Length
    modifies data
    ensures data[at..at + 16] == XorBytewise(old(data[at..at + 16]), nv)
    ensures Outside(at, data[..], old(data[..]))
  {
    for j := 0 to 16
      invariant forall i :: 0 <= i < data.Length ==>
                  data[i] == if at <= i < at + j then Add(old(data[i]), nv[i - at]) else old(data[i])
    {
      data[at + j] := Add(data[at + j], nv[j]);
    }
  }
}
