/** The write-through block cache (block/cache.c) over a device that may fail. */
module BlockCache {
  import opened Arith
  import opened Lists

  newtype byte = x: int | 0 <= x < 256

  type Block = seq<byte>

  // ----- Bytes and blocks -----

  ghost predicate Shaped(blocks: seq<Block>, bs: nat) { bs > 0 && forall p | 0 <= p < |blocks| :: |blocks[p]| == bs }

  /** The device as one flat run of bytes. */
  ghost function Flat(blocks: seq<Block>): seq<byte> {
    if blocks == [] then [] else Flat(blocks[..|blocks| - 1]) + blocks[|blocks| - 1]
  }

  /** The bytes from x on replaced. */
  function Overwrite(s: seq<byte>, x: nat, data: seq<byte>): seq<byte>
    requires x + |data| <= |s|
  {
    s[..x] + data + s[x + |data|..]
  }

  lemma {:induction false} FlatLength(blocks: seq<Block>, bs: nat)
    requires Shaped(blocks, bs)
    ensures |Flat(blocks)| == |blocks| * bs
  {
    if blocks != [] {
      var n := |blocks| - 1;
      FlatLength(blocks[..n], bs);
      assert (n + 1) * bs == n * bs + bs;
    }
  }

  lemma {:induction false} FlatBlock(blocks: seq<Block>, bs: nat, p: nat)
    requires Shaped(blocks, bs) && p < |blocks|
    ensures p * bs + bs <= |Flat(blocks)| && Flat(blocks)[p * bs..p * bs + bs] == blocks[p]
  {
    var n := |blocks| - 1;
    FlatLength(blocks[..n], bs);
    if p < n {
      FlatBlock(blocks[..n], bs, p);
      assert Flat(blocks)[p * bs..p * bs + bs] == Flat(blocks[..n])[p * bs..p * bs + bs];
    }
  }

  lemma {:induction false} FlatSet(blocks: seq<Block>, bs: nat, p: nat, b: Block)
    requires Shaped(blocks, bs) && p < |blocks| && |b| == bs
    ensures p * bs + bs <= |Flat(blocks)| && Flat(blocks[p := b]) == Overwrite(Flat(blocks), p * bs, b)
  {
    FlatBlock(blocks, bs, p);
    var n := |blocks| - 1;
    FlatLength(blocks[..n], bs);
    if p < n {
      FlatSet(blocks[..n], bs, p, b);
      assert blocks[p := b][..n] == blocks[..n][p := b];
    } else {
      assert blocks[p := b][..n] == blocks[..n];
    }
  }

  lemma {:induction false} SubSlice(s: seq<byte>, a: nat, m: nat, r: nat, n: nat)
    requires a + m <= |s| && r + n <= m
    ensures s[a + r..a + r + n] == s[a..a + m][r..r + n]
  {
    var u, v := s[a + r..a + r + n], s[a..a + m][r..r + n];
    forall i | 0 <= i < n ensures u[i] == v[i] {}
    assert |u| == |v|;
  }

  /** Where a byte is in its block. */
  lemma {:induction false} Split(pos: nat, bs: nat)
    requires bs > 0
    ensures pos == (pos / bs) * bs + pos % bs
  {}

  /** A chunk of one block, in the flat disk. */
  lemma {:induction false} ChunkRead(blocks: seq<Block>, bs: nat, pos: nat, n: nat)
    requires Shaped(blocks, bs) && pos / bs < |blocks| && pos % bs + n <= bs
    ensures pos + n <= |Flat(blocks)| && Flat(blocks)[pos..pos + n] == blocks[pos / bs][pos % bs..pos % bs + n]
  {
    var p, r := pos / bs, pos % bs;
    Split(pos, bs);
    FlatBlock(blocks, bs, p);
    SubSlice(Flat(blocks), p * bs, bs, r, n);
  }

  lemma {:induction false} ChunkWrite(blocks: seq<Block>, bs: nat, pos: nat, data: seq<byte>)
    requires Shaped(blocks, bs) && pos / bs < |blocks| && pos % bs + |data| <= bs
    ensures pos + |data| <= |Flat(blocks)|
    ensures Flat(blocks[pos / bs := Overwrite(blocks[pos / bs], pos % bs, data)]) == Overwrite(Flat(blocks), pos, data)
  {
    var p, r := pos / bs, pos % bs;
    Split(pos, bs);
    FlatBlock(blocks, bs, p);
    FlatSet(blocks, bs, p, Overwrite(blocks[p], r, data));
    Nested(Flat(blocks), p * bs, bs, r, data);
  }

  lemma {:induction false} Nested(s: seq<byte>, a: nat, n: nat, r: nat, data: seq<byte>)
    requires a + n <= |s| && r + |data| <= n
    ensures Overwrite(s, a, Overwrite(s[a..a + n], r, data)) == Overwrite(s, a + r, data)
  {}

  lemma {:induction false} OverwriteTwice(s: seq<byte>, x: nat, d: seq<byte>, e: seq<byte>)
    requires x + |d| + |e| <= |s|
    ensures Overwrite(Overwrite(s, x, d), x + |d|, e) == Overwrite(s, x, d + e)
  {}

  /**
   The cache rounds a logical block down to the first one of its physical block; that is the
   physical block of the byte.
   */
  lemma {:induction false} PhysicalBlock(off: nat, logical: nat, per: nat)
    requires logical > 0 && per > 0
    ensures logical * per > 0 && (off / logical) / per == off / (logical * per)
  {
    var b, r := off / logical, off % logical;
    var p, s := b / per, b % per;
    assert off == b * logical + r && b == p * per + s;
    Times(logical, per - 1);
    assert off == p * (logical * per) + (s * logical + r) by {
      assert (p * per + s) * logical == p * (logical * per) + s * logical;
    }
    assert s * logical + r < logical * per by { Below(s, per, logical); }
    assert s * logical >= 0;
    DivUnique(off, logical * per, p, s * logical + r);
  }

  lemma {:induction false} Below(s: nat, per: nat, logical: nat)
    requires s < per
    ensures s * logical + logical <= logical * per
  {
    var d := per - s - 1;
    assert logical * per == s * logical + logical + d * logical;
    assert d * logical >= 0;
  }

  /** The end of a chunk: inside the same block, or at the start of the next. */
  lemma {:induction false} NextChunk(x: nat, n: nat, bs: nat)
    requires bs > 0 && x % bs + n == bs
    ensures (x + n) % bs == 0
  {
    assert x == (x / bs) * bs + x % bs;
    assert x + n == (x / bs + 1) * bs;
    DivUnique(x + n, bs, x / bs + 1, 0);
  }

  lemma {:induction false} Ordered(a: nat, b: nat, bs: nat)
    requires bs > 0 && a <= b
    ensures a / bs <= b / bs
  {
    var d := b / bs - a / bs;
    assert a == (a / bs) * bs + a % bs && b == (b / bs) * bs + b % bs;
    assert bs * d == (b / bs) * bs - (a / bs) * bs;
    if d < 0 {
      AtLeast(bs, d);
      assert false;
    }
  }

  /** Only blocks from lo to hi differ. */
  ghost predicate Outside(before: seq<Block>, after: seq<Block>, lo: nat, hi: nat) {
    |after| == |before| && forall q | 0 <= q < |after| && !(lo <= q <= hi) :: after[q] == before[q]
  }

  lemma {:induction false} Reached(start: seq<Block>, before: seq<Block>, after: seq<Block>, off: nat, pos: nat,
    last: nat, bs: nat)
    requires bs > 0 && off <= pos <= last
    requires Outside(start, before, off / bs, last / bs) && Outside(before, after, pos / bs, pos / bs)
    ensures Outside(start, after, off / bs, last / bs)
  {
    Ordered(off, pos, bs);
    Ordered(pos, last, bs);
  }

  // ----- The device -----

  /** A device whose requests may fail: a failed write may leave anything in its block, but only there. */
  class Device {
    var blocks: seq<Block>
    ghost var faults: nat   // failed requests so far
    const bs: nat

    ghost predicate Valid()
      reads this
    {
      Shaped(blocks, bs)
    }

    constructor (bs: nat, blocks: seq<Block>)
      requires Shaped(blocks, bs)
      ensures Valid() && this.bs == bs && this.blocks == blocks
    {
      this.bs := bs;
      this.blocks := blocks;
      faults := 0;
    }

    /** blk_read of one physical block. */
    method Read(p: nat) returns (ok: bool, data: Block)
      requires Valid()
      modifies this`faults
      ensures |data| == bs && (ok ==> p < |blocks| && data == blocks[p])
      ensures faults == old(faults) + One(!ok)
    {
      ok := *;
      if p < |blocks| && ok {
        return true, blocks[p];
      }
      faults := faults + 1;
      return false, seq(bs, _ => 0);
    }

    /** blk_write of one physical block. */
    method Write(p: nat, data: Block) returns (ok: bool)
      requires Valid() && |data| == bs
      modifies this
      ensures Valid() && |blocks| == |old(blocks)| && faults == old(faults) + One(!ok)
      ensures ok ==> p < |blocks| && blocks == old(blocks)[p := data]
      ensures forall q | 0 <= q < |blocks| && q != p :: blocks[q] == old(blocks)[q]
    {
      ok := *;
      if p >= |blocks| {
        faults := faults + 1;
        return false;
      }
      if ok {
        blocks := blocks[p := data];
      } else {
        faults := faults + 1;
        var k :| 0 <= k <= bs;
        blocks := blocks[p := data[..k] + blocks[p][k..]];
      }
    }
  }

  // ----- The cache -----

  datatype Buf = Buf(data: Block, ok: bool, ref: nat)

  type Bufs = map<nat, Buf>

  /** A good buffer holds what the device holds. */
  ghost predicate Faithful(bufs: Bufs, blocks: seq<Block>, bs: nat) {
    forall p | p in bufs :: |bufs[p].data| == bs && (bufs[p].ok ==> p < |blocks| && bufs[p].data == blocks[p])
  }

  /** A buffer of these blocks holds nothing good. */
  ghost predicate Spoiled(bufs: Bufs, lo: nat, hi: nat) { exists p :: lo <= p <= hi && p in bufs && !bufs[p].ok }

  /** What is in the cache now is as good as it was. */
  ghost predicate NoWorse(before: Bufs, after: Bufs) {
    forall p | p in after && !after[p].ok :: p in before && !before[p].ok
  }

  lemma {:induction false} SpoiledBefore(before: Bufs, after: Bufs, off: nat, pos: nat, last: nat, bs: nat)
    requires bs > 0 && off <= pos <= last && NoWorse(before, after) && Spoiled(after, pos / bs, pos / bs)
    ensures Spoiled(before, off / bs, last / bs)
  {
    Ordered(off, pos, bs);
    Ordered(pos, last, bs);
  }

  /** The reference counts count the users, and the buffers without any are those on the list to reclaim from. */
  ghost predicate Shelved(bufs: Bufs, lru: seq<nat>, users: multiset<nat>) {
    NoDup(lru) && forall p {:trigger ShelvedAt(bufs, lru, users, p)} :: ShelvedAt(bufs, lru, users, p)
  }

  ghost predicate ShelvedAt(bufs: Bufs, lru: seq<nat>, users: multiset<nat>, p: nat) {
    && (p in lru <==> p in bufs && bufs[p].ref == 0)
    && (p in bufs ==> bufs[p].ref == users[p]) && (p in users ==> p in bufs)
  }

  /** The list is in the order of the last releases. */
  ghost predicate Aged(lru: seq<nat>, released: map<nat, nat>, clock: nat) {
    && (forall p | p in lru :: p in released && released[p] < clock)
    && forall i, j | 0 <= i < j < |lru| :: released[lru[i]] < released[lru[j]]
  }

  lemma {:induction false} AgedWithout(lru: seq<nat>, released: map<nat, nat>, clock: nat, p: nat)
    requires Aged(lru, released, clock)
    ensures Aged(Without(lru, p), released, clock) && forall q | q in Without(lru, p) :: q in lru
  {
    if lru != [] {
      assert forall q | q in lru[1..] :: q in lru;
      AgedWithout(lru[1..], released, clock, p);
      assert forall q | q in lru[1..] :: released[lru[0]] < released[q];
    }
  }

  lemma {:induction false} RefShelved(bufs: Bufs, lru: seq<nat>, users: multiset<nat>, p: nat)
    requires Shelved(bufs, lru, users) && p in bufs
    ensures
      var b := bufs[p];
      Shelved(bufs[p := Buf(b.data, b.ok, b.ref + 1)], if b.ref == 0 then Without(lru, p) else lru, users + multiset{p})
  {
    WithoutElems(lru, p);
    var b := bufs[p];
    var bufs', lru', users' := bufs[p := Buf(b.data, b.ok, b.ref + 1)], if b.ref == 0
      then Without(lru, p) else lru, users + multiset{p};
    assert ShelvedAt(bufs, lru, users, p);
    forall q ensures ShelvedAt(bufs', lru', users', q) { assert ShelvedAt(bufs, lru, users, q); }
  }

  lemma {:induction false} UnrefShelved(bufs: Bufs, lru: seq<nat>, users: multiset<nat>, p: nat)
    requires Shelved(bufs, lru, users) && p in users
    ensures p in bufs && bufs[p].ref > 0
    ensures
      var b := bufs[p];
      Shelved(bufs[p := Buf(b.data, b.ok, b.ref - 1)], if b.ref == 1 then lru + [p] else lru, users - multiset{p})
  {
    assert ShelvedAt(bufs, lru, users, p);
    var b := bufs[p];
    var bufs', lru', users' := bufs[p := Buf(b.data, b.ok, b.ref - 1)], if b.ref == 1
      then lru + [p] else lru, users - multiset{p};
    forall q ensures ShelvedAt(bufs', lru', users', q) { assert ShelvedAt(bufs, lru, users, q); }
  }

  lemma {:induction false} NewShelved(bufs: Bufs, lru: seq<nat>, users: multiset<nat>, p: nat, data: Block, ok: bool)
    requires Shelved(bufs, lru, users) && p !in bufs
    ensures Shelved(bufs[p := Buf(data, ok, 1)], lru, users + multiset{p})
  {
    var bufs', users' := bufs[p := Buf(data, ok, 1)], users + multiset{p};
    assert ShelvedAt(bufs, lru, users, p);
    forall q ensures ShelvedAt(bufs', lru, users', q) { assert ShelvedAt(bufs, lru, users, q); }
  }

  /** Of the buffers without a user p was given back first. */
  ghost predicate Eldest(bufs: Bufs, released: map<nat, nat>, p: nat) {
    && p in bufs && bufs[p].ref == 0 && p in released
    && forall q | q in bufs && bufs[q].ref == 0 :: q in released && released[p] <= released[q]
  }

  lemma {:induction false} EldestFirst(bufs: Bufs, lru: seq<nat>, users: multiset<nat>, released: map<nat, nat>,
    clock: nat)
    requires Shelved(bufs, lru, users) && Aged(lru, released, clock) && lru != []
    ensures Eldest(bufs, released, lru[0])
  {
    assert lru[0] in lru && ShelvedAt(bufs, lru, users, lru[0]);
    forall q | q in bufs && bufs[q].ref == 0 ensures q in released && released[lru[0]] <= released[q] {
      assert ShelvedAt(bufs, lru, users, q);
      var i :| 0 <= i < |lru| && lru[i] == q;
    }
  }

  lemma {:induction false} CutShelved(bufs: Bufs, lru: seq<nat>, users: multiset<nat>)
    requires Shelved(bufs, lru, users) && lru != []
    ensures lru[0] in bufs && bufs[lru[0]].ref == 0 && Shelved(bufs - {lru[0]}, lru[1..], users)
  {
    var p := lru[0];
    assert lru == [p] + lru[1..] && p in lru;
    assert ShelvedAt(bufs, lru, users, p);
    var bufs', lru' := bufs - {p}, lru[1..];
    forall q ensures ShelvedAt(bufs', lru', users, q) { assert ShelvedAt(bufs, lru, users, q); }
  }

  lemma {:induction false} SameShelved(bufs: Bufs, lru: seq<nat>, users: multiset<nat>, p: nat, data: Block, ok: bool)
    requires Shelved(bufs, lru, users) && p in bufs
    ensures Shelved(bufs[p := Buf(data, ok, bufs[p].ref)], lru, users)
  {
    var bufs' := bufs[p := Buf(data, ok, bufs[p].ref)];
    forall q ensures ShelvedAt(bufs', lru, users, q) { assert ShelvedAt(bufs, lru, users, q); }
  }

  class Cache {
    const dev: Device
    var bufs: Bufs
    var lru: seq<nat>
    ghost var users: multiset<nat>

    // When each buffer was given back last.
    ghost var released: map<nat, nat>
    ghost var clock: nat

    ghost predicate Shelf()
      reads this
    {
      Shelved(bufs, lru, users) && Aged(lru, released, clock)
    }

    ghost predicate Valid()
      reads this, dev
    {
      dev.Valid() && Faithful(bufs, dev.blocks, dev.bs) && Shelf()
    }

    /** blk_cache_add */
    constructor (dev: Device)
      requires dev.Valid()
      ensures Valid() && this.dev == dev && bufs == map[] && users == multiset{}
    {
      this.dev := dev;
      bufs := map[];
      lru := [];
      users := multiset{};
      released, clock := map[], 0;
    }

    /** blk_cbuf_ref */
    method Ref(p: nat)
      requires Shelf() && p in bufs
      modifies this`bufs, this`lru, this`users
      ensures Shelf() && users == old(users) + multiset{p}
      ensures bufs == old(bufs)[p := Buf(old(bufs)[p].data, old(bufs)[p].ok, old(bufs)[p].ref + 1)]
    {
      RefShelved(bufs, lru, users, p);
      AgedWithout(lru, released, clock, p);
      var b := bufs[p];
      lru := if b.ref == 0 then Without(lru, p) else lru;
      bufs := bufs[p := Buf(b.data, b.ok, b.ref + 1)];
      users := users + multiset{p};
    }

    /** blk_cbuf_unref */
    method Unref(p: nat)
      requires Shelf() && p in users
      modifies this
      ensures Shelf() && users == old(users) - multiset{p}
      ensures released == old(released)[p := old(clock)] && clock == old(clock) + 1
      ensures p in old(bufs) && old(bufs)[p].ref > 0
      ensures bufs == old(bufs)[p := Buf(old(bufs)[p].data, old(bufs)[p].ok, old(bufs)[p].ref - 1)]
    {
      UnrefShelved(bufs, lru, users, p);
      assert ShelvedAt(bufs, lru, users, p);
      var b := bufs[p];
      if b.ref == 1 {
        lru := lru + [p];
      }
      bufs := bufs[p := Buf(b.data, b.ok, b.ref - 1)];
      users := users - multiset{p};
      released, clock := released[p := clock], clock + 1;
    }

    /** blk_cache_get: a buffer for the block, filled from the device if it is new. */
    method Get(p: nat) returns (ok: bool)
      requires Valid()
      modifies this, dev`faults
      ensures Valid() && users == if ok then old(users) + multiset{p} else old(users)
      ensures p in old(bufs) ==> ok
      ensures dev.faults == old(dev.faults) + One(!ok)
      ensures forall q | q in old(bufs) ::
        q in bufs && bufs[q].data == old(bufs)[q].data && bufs[q].ok == old(bufs)[q].ok
      ensures bufs.Keys == old(bufs).Keys + {p} && (p !in old(bufs) ==> bufs[p].ok == ok)
    {
      if p in bufs {
        Ref(p);
        return true;
      }
      var data;
      ok, data := dev.Read(p);
      NewShelved(bufs, lru, users, p, data, ok);
      bufs := bufs[p := Buf(data, ok, 1)];
      users := users + multiset{p};
      if !ok {
        Unref(p);
      }
    }

    /** blk_cache_reclaim: free the buffer unused for longest; one in use is never on the list. */
    method Reclaim() returns (freed: bool)
      requires Valid()
      modifies this`bufs, this`lru
      ensures Valid() && users == old(users)
      ensures freed <==> exists q :: q in old(bufs) && old(bufs)[q].ref == 0
      ensures freed ==> exists p :: Eldest(old(bufs), released, p) && bufs == old(bufs) - {p}
      ensures !freed ==> bufs == old(bufs)
    {
      if lru == [] {
        forall q ensures !(q in bufs && bufs[q].ref == 0) { assert ShelvedAt(bufs, lru, users, q); }
        return false;
      }
      var p := lru[0];
      EldestFirst(bufs, lru, users, released, clock);
      CutShelved(bufs, lru, users);
      lru := lru[1..];
      bufs := bufs - {p};
      return true;
    }

    /** bio for a read: exactly the bytes of the flat disk. */
    method Read(off: nat, size: nat) returns (ok: bool, out: seq<byte>)
      requires Valid() && size > 0
      modifies this, dev`faults
      ensures Valid() && users == old(users)
      ensures ok ==> dev.faults == old(dev.faults)
      ensures !ok ==> dev.faults > old(dev.faults) || Spoiled(old(bufs), off / dev.bs, (off + size - 1) / dev.bs)
      ensures ok ==> off + size <= |Flat(dev.blocks)| && out == Flat(dev.blocks)[off..off + size]
    {
      ghost var lo: nat, hi: nat, flat := off / dev.bs, (off + size - 1) / dev.bs, Flat(dev.blocks);
      var pos, from := off, off % dev.bs;
      out := [];
      ok := true;
      while |out| < size && ok
        invariant Valid() && users == old(users) && |out| <= size
        invariant ok ==> dev.faults == old(dev.faults) && NoWorse(old(bufs), bufs)
        invariant !ok ==> dev.faults > old(dev.faults) || Spoiled(old(bufs), lo, hi)
        invariant ok ==> pos == off + |out| && (|out| < size ==> from == pos % dev.bs)
        invariant ok && out != [] ==> pos <= |flat| && out == flat[off..pos]
        decreases size - |out|, ok
      {
        var n := if dev.bs - from < size - |out| then dev.bs - from else size - |out|;
        var part;
        ghost var before := bufs;
        ok, part := ReadChunk(pos, n);
        if !ok && dev.faults == old(dev.faults) {
          SpoiledBefore(old(bufs), before, off, pos, off + size - 1, dev.bs);
        }
        if ok {
          if from + n == dev.bs { NextChunk(pos, n, dev.bs); }
          from := 0;
          out := out + part;
          pos := pos + n;
        }
      }
    }

    /** bio for a write: exactly the bytes of the flat disk change, and only the blocks it reaches if it fails. */
    method Write(off: nat, data: seq<byte>) returns (ok: bool)
      requires Valid() && |data| > 0
      modifies this, dev
      ensures Valid() && users == old(users) && |dev.blocks| == |old(dev.blocks)|
      ensures ok ==> dev.faults == old(dev.faults)
      ensures !ok ==> dev.faults > old(dev.faults) || Spoiled(old(bufs), off / dev.bs, (off + |data| - 1) / dev.bs)
      ensures ok ==>
        off + |data| <= |Flat(old(dev.blocks))| && Flat(dev.blocks) == Overwrite(Flat(old(dev.blocks)), off, data)
      ensures Outside(old(dev.blocks), dev.blocks, off / dev.bs, (off + |data| - 1) / dev.bs)
    {
      ghost var lo: nat, hi: nat := off / dev.bs, (off + |data| - 1) / dev.bs;
      var from, done := off % dev.bs, 0;
      ok := true;
      while done < |data| && ok
        invariant Valid() && users == old(users) && |dev.blocks| == |old(dev.blocks)| && done <= |data|
        invariant ok && done < |data| ==> from == (off + done) % dev.bs
        invariant ok ==> SoFar(Flat(old(dev.blocks)), Flat(dev.blocks), off, data, done)
        invariant Outside(old(dev.blocks), dev.blocks, lo, hi)
        invariant ok ==> dev.faults == old(dev.faults) && NoWorse(old(bufs), bufs)
        invariant !ok ==> dev.faults > old(dev.faults) || Spoiled(old(bufs), lo, hi)
        decreases |data| - done, ok
      {
        ghost var before, had := dev.blocks, bufs;
        var n;
        ok, n := WriteRound(off, data, done, from);
        if !ok && dev.faults == old(dev.faults) {
          SpoiledBefore(old(bufs), had, off, off + done, off + |data| - 1, dev.bs);
        }
        Reached(old(dev.blocks), before, dev.blocks, off, off + done, off + |data| - 1, dev.bs);
        if ok {
          Further(Flat(old(dev.blocks)), Flat(before), Flat(dev.blocks), off, data, done, n);
          from := 0;
          done := done + n;
        }
      }
      assert ok ==> data[..done] == data;
    }

    /** One round of bio for a write: as much as the block still takes. */
    method WriteRound(off: nat, data: seq<byte>, done: nat, from: nat) returns (ok: bool, n: nat)
      requires Valid() && done < |data| && from == (off + done) % dev.bs
      modifies this, dev
      ensures Valid() && users == old(users) && |dev.blocks| == |old(dev.blocks)|
      ensures dev.faults >= old(dev.faults) && (ok ==> dev.faults == old(dev.faults) && NoWorse(old(bufs), bufs))
      ensures !ok ==> dev.faults > old(dev.faults) || Spoiled(old(bufs), (off + done) / dev.bs, (off + done) / dev.bs)
      ensures 0 < n && done + n <= |data| && (done + n < |data| ==> (off + done + n) % dev.bs == 0)
      ensures Outside(old(dev.blocks), dev.blocks, (off + done) / dev.bs, (off + done) / dev.bs)
      ensures ok ==> off + done + n <= |Flat(old(dev.blocks))|
      ensures ok ==> Flat(dev.blocks) == Overwrite(Flat(old(dev.blocks)), off + done, data[done..done + n])
    {
      n := if dev.bs - from < |data| - done then dev.bs - from else |data| - done;
      ok := WriteChunk(off + done, data[done..done + n]);
      if from + n == dev.bs { NextChunk(off + done, n, dev.bs); }
    }

    /** One round of bio for a read. */
    method ReadChunk(pos: nat, n: nat) returns (ok: bool, out: seq<byte>)
      requires Valid() && pos % dev.bs + n <= dev.bs
      modifies this, dev`faults
      ensures Valid() && users == old(users)
      ensures dev.faults >= old(dev.faults) && (ok ==> dev.faults == old(dev.faults) && NoWorse(old(bufs), bufs))
      ensures !ok ==> dev.faults > old(dev.faults) || Spoiled(old(bufs), pos / dev.bs, pos / dev.bs)
      ensures ok ==> pos + n <= |Flat(dev.blocks)| && out == Flat(dev.blocks)[pos..pos + n]
    {
      var p, from := pos / dev.bs, pos % dev.bs;
      out := [];
      ok := Get(p);
      if ok {
        ok := bufs[p].ok;
        if ok {
          out := bufs[p].data[from..from + n];
          ChunkRead(dev.blocks, dev.bs, pos, n);
        }
        Unref(p);
      }
    }

    /** One round of bio for a write. */
    method WriteChunk(pos: nat, data: seq<byte>) returns (ok: bool)
      requires Valid() && pos % dev.bs + |data| <= dev.bs
      modifies this, dev
      ensures Valid() && users == old(users) && |dev.blocks| == |old(dev.blocks)|
      ensures dev.faults >= old(dev.faults) && (ok ==> dev.faults == old(dev.faults) && NoWorse(old(bufs), bufs))
      ensures !ok ==> dev.faults > old(dev.faults) || Spoiled(old(bufs), pos / dev.bs, pos / dev.bs)
      ensures Outside(old(dev.blocks), dev.blocks, pos / dev.bs, pos / dev.bs)
      ensures ok ==>
        pos + |data| <= |Flat(old(dev.blocks))| && Flat(dev.blocks) == Overwrite(Flat(old(dev.blocks)), pos, data)
    {
      var p, from := pos / dev.bs, pos % dev.bs;
      ok := PutChunk(p, from, data);
      if ok {
        ChunkWrite(old(dev.blocks), dev.bs, pos, data);
      }
    }

    /** Get the buffer, change it and write the block; part of a block only if the buffer is good. */
    method PutChunk(p: nat, from: nat, data: seq<byte>) returns (ok: bool)
      requires Valid() && from + |data| <= dev.bs
      modifies this, dev
      ensures Valid() && users == old(users) && |dev.blocks| == |old(dev.blocks)|
      ensures dev.faults >= old(dev.faults) && (ok ==> dev.faults == old(dev.faults) && NoWorse(old(bufs), bufs))
      ensures !ok ==> dev.faults > old(dev.faults) || Spoiled(old(bufs), p, p)
      ensures Outside(old(dev.blocks), dev.blocks, p, p)
      ensures ok ==> p < |dev.blocks| && dev.blocks == old(dev.blocks)[p := Overwrite(old(dev.blocks)[p], from, data)]
    {
      ok := Get(p);
      if ok {
        if |data| != dev.bs && !bufs[p].ok {
          ok := false;
        } else {
          ok := Flush(p, from, data);
        }
        Unref(p);
      }
    }

    method Flush(p: nat, from: nat, data: seq<byte>) returns (ok: bool)
      requires Valid() && p in bufs && from + |data| <= dev.bs && (|data| == dev.bs || bufs[p].ok)
      modifies this`bufs, dev
      ensures Valid() && p in bufs && |dev.blocks| == |old(dev.blocks)|
      ensures dev.faults == old(dev.faults) + One(!ok) && (ok ==> NoWorse(old(bufs), bufs))
      ensures Outside(old(dev.blocks), dev.blocks, p, p)
      ensures ok ==> p < |dev.blocks| && dev.blocks == old(dev.blocks)[p := Overwrite(old(dev.blocks)[p], from, data)]
    {
      var b := bufs[p];
      var patched := Overwrite(b.data, from, data);
      WholeOrGood(b.data, dev.blocks, dev.bs, p, from, data, b.ok);
      ok := dev.Write(p, patched);
      SameShelved(bufs, lru, users, p, patched, ok);
      bufs := bufs[p := Buf(patched, ok, b.ref)];
    }
  }

  /** A whole block written, or a part of a good one, leaves the device's own block changed as asked. */
  lemma {:induction false} WholeOrGood(had: Block, blocks: seq<Block>, bs: nat, p: nat, from: nat, data: seq<byte>,
    good: bool)
    requires Shaped(blocks, bs) && |had| == bs && from + |data| <= bs && (|data| == bs || good)
    requires good ==> p < |blocks| && had == blocks[p]
    ensures p < |blocks| ==> Overwrite(had, from, data) == Overwrite(blocks[p], from, data)
  {
    if p < |blocks| && !good { assert Overwrite(had, from, data) == data == Overwrite(blocks[p], from, data); }
  }

  /** The first `done` bytes have been written. */
  ghost predicate SoFar(start: seq<byte>, now: seq<byte>, off: nat, data: seq<byte>, done: nat) {
    && done <= |data|
    && if done == 0 then now == start
       else off + done <= |start| && now == Overwrite(start, off, data[..done])
  }

  lemma {:induction false} Further(start: seq<byte>, now: seq<byte>, next: seq<byte>, off: nat, data: seq<byte>,
    done: nat, n: nat)
    requires SoFar(start, now, off, data, done) && 0 < n && done + n <= |data| && off + done + n <= |now|
    requires next == Overwrite(now, off + done, data[done..done + n])
    ensures SoFar(start, next, off, data, done + n)
  {
    assert data[..done + n] == data[..done] + data[done..done + n];
    assert |now| == |start|;
    if done > 0 { OverwriteTwice(start, off, data[..done], data[done..done + n]); }
  }
}
