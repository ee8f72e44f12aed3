/** What the allocator (lj_alloc.c) keeps true between calls, stated over values: the
    client's view of the chunks, which free chunks belong in a bin, and how the steps of
    malloc, free and realloc change both. */
module AllocState {
  import opened AllocBits
  import opened AllocRings
  import opened AllocTrie
  import opened AllocBins
  import opened AllocFit
  import opened AllocFreeBins
  import opened AllocLayout
  import opened AllocSegs
  import opened AllocHeap
  import opened AllocGrow

  const MIN_CHUNK_SIZE: nat := 32
  const MAX_REQUEST: nat := 0xFFFF_FFFF_FFFF_FF80
  const DEFAULT_GRANULARITY: nat := 0x2_0000
  const DEFAULT_TRIM_THRESHOLD: nat := 0x20_0000
  /** The padded size of struct malloc_state, and the offset of its seg field. */
  const STATE_SIZE: nat := 880
  const SEG_OFFSET: nat := 840
  const MAX_SMALL_REQUEST: nat := 240

  /** pad_request, and the minimum for small requests */
  function PadRequest(nsize: nat): nat {
    if nsize < 23 then MIN_CHUNK_SIZE else (nsize + 15) / 8 * 8
  }

  /** The chunk size for a request; a size no chunk has if the request is too big. */
  function RequestSize(nsize: nat): nat {
    if nsize >= MAX_REQUEST then WORD - 1 else PadRequest(nsize)
  }

  lemma PadBounds(nsize: nat)
    requires nsize < MAX_REQUEST
    ensures PadRequest(nsize) % 8 == 0 && 32 <= PadRequest(nsize) < WORD && PadRequest(nsize) >= nsize + 8
    ensures PadRequest(nsize) == 32 || PadRequest(nsize) < nsize + 16
    ensures nsize <= MAX_SMALL_REQUEST ==> PadRequest(nsize) <= 248
    ensures nsize > MAX_SMALL_REQUEST ==> PadRequest(nsize) >= 256
  {
  }

  /** The size alloc_sys asks the system for, computed in machine words. */
  function MapSize(nb: nat): nat {
    var req := (nb + TOP_FOOT_SIZE + 1) % WORD;
    (req + DEFAULT_GRANULARITY - 1) % WORD / DEFAULT_GRANULARITY * DEFAULT_GRANULARITY
  }

  lemma RoundedDown(y: nat)
    ensures y - DEFAULT_GRANULARITY < y / DEFAULT_GRANULARITY * DEFAULT_GRANULARITY <= y
    ensures y / DEFAULT_GRANULARITY * DEFAULT_GRANULARITY % 8 == 0
  {
  }

  lemma NoWrap(x: nat)
    ensures x < WORD ==> x % WORD == x
    ensures WORD <= x < 2 * WORD ==> x % WORD == x - WORD
  {
  }

  /** Either the computation wraps around, and then the result is too small, or the area
      has room for the chunk, the spare room behind the top, and a bit more. */
  lemma MapSizeFits(nb: nat)
    requires nb < WORD
    ensures MapSize(nb) % 8 == 0 && MapSize(nb) < WORD
    ensures MapSize(nb) > nb ==> MapSize(nb) > nb + TOP_FOOT_SIZE && nb + TOP_FOOT_SIZE + DEFAULT_GRANULARITY < WORD
    ensures MapSize(nb) <= nb <==> nb + TOP_FOOT_SIZE + DEFAULT_GRANULARITY >= WORD
  {
    hide MapSize;
    NoWrap(nb + TOP_FOOT_SIZE + 1);
    var req := (nb + TOP_FOOT_SIZE + 1) % WORD;
    NoWrap(req + DEFAULT_GRANULARITY - 1);
    MapSizeOf(nb, req, (req + DEFAULT_GRANULARITY - 1) % WORD);
  }

  lemma MapSizeOf(nb: nat, req: nat, y: nat)
    requires req == (nb + TOP_FOOT_SIZE + 1) % WORD && y == (req + DEFAULT_GRANULARITY - 1) % WORD
    ensures y - DEFAULT_GRANULARITY < MapSize(nb) <= y && MapSize(nb) % 8 == 0
  {
    RoundedDown(y);
  }

  // ---- what a client may rely on ----------------------------------------------------

  /** A word stored at a overlaps the bytes of chunk q that belong to its user. */
  ghost predicate Hits(c: Chunks, q: Addr, a: Addr) {
    q in c && q + 16 < a + 8 && a < q + 8 + c[q].size
  }

  /** A word store at a touches no block in use. */
  ghost predicate SparesAt(c: Chunks, a: Addr) {
    forall q {:trigger Hits(c, q, a)} :: q in c && c[q].inuse ==> !Hits(c, q, a)
  }

  /** The chunks, and every word the allocator has stored to. */
  datatype Snap = Snap(chunks: Chunks, wrote: set<Addr>)

  /** Between two moments, blocks in use stay where they are and are not written to. */
  ghost predicate Follows(a: Snap, b: Snap) {
    && (forall q {:trigger q in b.chunks} {:trigger q in a.chunks} :: q in a.chunks && a.chunks[q].inuse ==> q in b.chunks && b.chunks[q] == a.chunks[q])
    && (forall w {:trigger w in b.wrote} :: w in b.wrote && w !in a.wrote ==> SparesAt(a.chunks, w))
  }

  lemma FollowsTrans(a: Snap, b: Snap, d: Snap)
    requires Follows(a, b) && Follows(b, d)
    ensures Follows(a, d)
  {
    forall w | w in d.wrote && w !in a.wrote ensures SparesAt(a.chunks, w) {
      if w !in b.wrote {
        forall q | q in a.chunks && a.chunks[q].inuse ensures !Hits(a.chunks, q, w) {
          assert q in b.chunks && !Hits(b.chunks, q, w);
        }
      }
    }
  }

  /** The free chunks that belong in a bin. */
  ghost function Binned(c: Chunks, top: Addr, dv: Addr): map<Addr, int> {
    map p | p in c && !c[p].inuse && p != top && p != dv :: c[p].size
  }

  /** A chunk that has been put into the bins is there. */
  lemma MemberAt(size: map<Addr, int>, m: map<Addr, int>, p: Addr, s: int)
    requires Members(size) == m[p := s]
    ensures p in size && size[p] == s
  {
    assert p in Members(size);
  }

  lemma BinnedSizes(c: Chunks, top: Addr, dv: Addr, h: set<Addr>, size: map<Addr, int>, y: Addr)
    requires Members(size) == Binned(c, top, dv) - h
    ensures y in size && y > 0 ==> y in c && !c[y].inuse && y != top && y != dv && y !in h && c[y].size == size[y]
    ensures y in c && !c[y].inuse && y != top && y != dv && y !in h ==> y in size && size[y] == c[y].size && y > 0
  {
    assert y in size && y > 0 ==> y in Members(size);
    assert y in c && !c[y].inuse && y != top && y != dv && y !in h ==> y in Binned(c, top, dv) - h;
  }

  lemma HeadsOfBinned(t: Tags, c: Chunks, fences: set<Addr>, top: Addr, segs: seq<Seg>, dv: Addr, h: set<Addr>, size: map<Addr, int>)
    requires HeapOk(t, c, fences, top, segs) && Members(size) == Binned(c, top, dv) - h
    ensures HeadsAgree(t.head, size)
  {
    hide HeapOk, Members, Binned;
    forall y | y in size && y > 0 ensures y in t.head && t.head[y].size == size[y] {
      BinnedSizes(c, top, dv, h, size, y);
      ChunkFacts(t, c, fences, top, segs, y);
    }
  }

  /** Link words of binned chunks lie outside every block in use. */
  lemma LinkWordsSpare(t: Tags, c: Chunks, fences: set<Addr>, top: Addr, segs: seq<Seg>, dv: Addr, h: set<Addr>,
                       size: map<Addr, int>, a: Addr)
    requires HeapOk(t, c, fences, top, segs) && Members(size) == Binned(c, top, dv) - h && LinkWord(size, a)
    requires forall y {:trigger size[y]} :: y in size && y <= 0 ==> y < -100
    ensures SparesAt(c, a)
  {
    hide HeapOk, Members, Binned;
    var y :| y in size && y + 16 <= a < y + (if IsSmall(size[y]) then 32 else 64);
    forall q | q in c && c[q].inuse ensures !Hits(c, q, a) {
      ChunkFacts(t, c, fences, top, segs, q);
      if y <= 0 {
        assert size[y] == size[y];
      } else {
        BinnedSizes(c, top, dv, h, size, y);
        ChunkFacts(t, c, fences, top, segs, y);
        HeapApart(t, c, fences, top, segs, q, y);
      }
    }
  }

  lemma HeapApart(t: Tags, c: Chunks, fences: set<Addr>, top: Addr, segs: seq<Seg>, p: Addr, q: Addr)
    requires HeapOk(t, c, fences, top, segs) && p in c && q in c && p != q
    ensures p + c[p].size <= q || q + c[q].size <= p
  {
    assert Before(c, p, q) && Before(c, q, p);
  }

  lemma AllLinkWordsSpare(t: Tags, c: Chunks, fences: set<Addr>, top: Addr, segs: seq<Seg>, dv: Addr, h: set<Addr>,
                          l: Links, tr: Tree, smallmap: set<nat>, size: map<Addr, int>, v: View, tip: map<int, Addr>)
    requires HeapOk(t, c, fences, top, segs) && Members(size) == Binned(c, top, dv) - h
    requires BinsOk(l, tr, smallmap, size, v, tip)
    ensures forall a {:trigger LinkWord(size, a)} :: LinkWord(size, a) ==> SparesAt(c, a)
  {
    hide HeapOk, Members, Binned, BinsOk, LinkWord, SparesAt;
    SentinelsFarBelow(l, tr, smallmap, size, v, tip);
    forall a | LinkWord(size, a) ensures SparesAt(c, a) {
      LinkWordsSpare(t, c, fences, top, segs, dv, h, size, a);
    }
  }

  lemma SentinelsFarBelow(l: Links, t: Tree, smallmap: set<nat>, size: map<Addr, int>, v: View, tip: map<int, Addr>)
    requires BinsOk(l, t, smallmap, size, v, tip)
    ensures forall y {:trigger size[y]} :: y in size && y <= 0 ==> y < -100
  {
    LargePositive(t, size, v, tip);
  }

  /** Every segment lies in the address space. */
  ghost predicate InAddressSpace(segs: seq<Seg>) {
    forall i {:trigger segs[i]} :: 0 <= i < |segs| ==> segs[i].base + segs[i].size < WORD
  }

  lemma SizesAreWords(t: Tags, c: Chunks, fences: set<Addr>, top: Addr, segs: seq<Seg>, p: Addr)
    requires HeapOk(t, c, fences, top, segs) && InAddressSpace(segs) && p in c
    ensures p + c[p].size < WORD
  {
    assert c[p] == c[p];
    var i: nat :| In(segs, i, p, p + c[p].size);
  }

  lemma DropBinned(c: Chunks, top: Addr, dv: Addr, h: set<Addr>, m: map<Addr, int>, p: Addr)
    requires m == Binned(c, top, dv) - h
    ensures m - {p} == Binned(c, top, dv) - (h + {p})
  {
  }

  lemma AddBinned(c: Chunks, top: Addr, dv: Addr, h: set<Addr>, m: map<Addr, int>, p: Addr)
    requires m == Binned(c, top, dv) - h && p in h && p in Binned(c, top, dv)
    ensures m[p := c[p].size] == Binned(c, top, dv) - (h - {p})
  {
  }

  /** A chunk that is already out of the bins comes into use. */
  lemma UseBinned(c: Chunks, top: Addr, dv: Addr, h: set<Addr>, m: map<Addr, int>, p: Addr)
    requires m == Binned(c, top, dv) - h && p in h && p in c
    ensures m == Binned(c[p := c[p].(inuse := true)], top, dv) - (h - {p})
  {
  }

  lemma SplitBinned(c: Chunks, top: Addr, dv: Addr, h: set<Addr>, m: map<Addr, int>, p: Addr, nb: nat, s: nat)
    requires m == Binned(c, top, dv) - h && p in h && p in c && p + nb !in c && nb > 0
    ensures m == Binned(c[p := Chunk(nb, true)][p + nb := Chunk(s, false)], top, dv) - (h - {p} + {p + nb})
  {
  }

  lemma FollowsUse(t: Tags, c: Chunks, fences: set<Addr>, top: Addr, segs: seq<Seg>, p: Addr, w: set<Addr>)
    requires HeapOk(t, c, fences, top, segs) && p in c && !c[p].inuse && p != top
    ensures Follows(Snap(c, w), Snap(c[p := c[p].(inuse := true)], w + {p + 8, p + c[p].size + 8}))
  {
    hide HeapOk;
    ChunkFacts(t, c, fences, top, segs, p);
    HeaderSpares(t, c, fences, top, segs, p);
    HeaderSpares(t, c, fences, top, segs, p + c[p].size);
  }

  /** The header word of a chunk lies outside every block in use. */
  lemma HeaderSpares(t: Tags, c: Chunks, fences: set<Addr>, top: Addr, segs: seq<Seg>, p: Addr)
    requires HeapOk(t, c, fences, top, segs) && p in c
    ensures SparesAt(c, p + 8)
  {
    hide HeapOk;
    forall q | q in c && c[q].inuse ensures !Hits(c, q, p + 8) {
      ChunkFacts(t, c, fences, top, segs, q);
      ChunkFacts(t, c, fences, top, segs, p);
      if p != q {
        HeapApart(t, c, fences, top, segs, p, q);
      }
    }
  }

  /** So does every word inside a free chunk, up to the prev_foot of the next. */
  lemma InsideSpares(t: Tags, c: Chunks, fences: set<Addr>, top: Addr, segs: seq<Seg>, p: Addr, a: Addr)
    requires HeapOk(t, c, fences, top, segs) && p in c && !c[p].inuse && p + 8 <= a <= p + c[p].size + 8
    ensures SparesAt(c, a)
  {
    hide HeapOk;
    forall q | q in c && c[q].inuse ensures !Hits(c, q, a) {
      ChunkFacts(t, c, fences, top, segs, q);
      HeapApart(t, c, fences, top, segs, p, q);
    }
  }

  lemma FollowsSplit(t: Tags, c: Chunks, fences: set<Addr>, top: Addr, segs: seq<Seg>, p: Addr, nb: nat, w: set<Addr>)
    requires HeapOk(t, c, fences, top, segs) && p in c && !c[p].inuse && p + nb !in c && 0 < nb < c[p].size
    ensures Follows(Snap(c, w), Snap(c[p := Chunk(nb, true)][p + nb := Chunk(c[p].size - nb, false)],
                                     w + {p + 8, p + nb + 8, p + c[p].size}))
  {
    hide HeapOk;
    ChunkFacts(t, c, fences, top, segs, p);
    InsideSpares(t, c, fences, top, segs, p, p + 8);
    InsideSpares(t, c, fences, top, segs, p, p + nb + 8);
    InsideSpares(t, c, fences, top, segs, p, p + c[p].size);
  }

  function FirstTags(b: Addr, mn: Addr, n: nat): Tags {
    Tags(map[b := Head(STATE_SIZE, true, true), mn := Head(n, true, false), mn + n := Head(TOP_FOOT_SIZE, false, false)], map[])
  }

  ghost function FirstChunks(b: Addr, mn: Addr, n: nat): Chunks {
    map[b := Chunk(STATE_SIZE, true), mn := Chunk(n, false)]
  }

  lemma FirstHeap(b: Addr, mn: Addr, n: nat)
    requires b > 0 && b % 8 == 0 && mn == b + STATE_SIZE && n == DEFAULT_GRANULARITY - STATE_SIZE - TOP_FOOT_SIZE
    ensures HeapOk(FirstTags(b, mn, n), FirstChunks(b, mn, n), {}, mn, [Seg(b, DEFAULT_GRANULARITY, b + 16 + SEG_OFFSET)])
    ensures Binned(FirstChunks(b, mn, n), mn, 0) == map[]
  {
    hide LayoutOk, SegsOk, FirstTags, FirstChunks, Binned;
    FirstLayout(b, mn, n);
    FirstSegs(b, mn, n);
  }

  lemma FirstLayout(b: Addr, mn: Addr, n: nat)
    requires b > 0 && b % 8 == 0 && mn == b + STATE_SIZE && n == DEFAULT_GRANULARITY - STATE_SIZE - TOP_FOOT_SIZE
    ensures LayoutOk(FirstTags(b, mn, n), FirstChunks(b, mn, n), {}, mn)
    ensures Binned(FirstChunks(b, mn, n), mn, 0) == map[]
  {
    hide ChunkOk;
    var c, t := FirstChunks(b, mn, n), FirstTags(b, mn, n);
    FirstChunk(b, mn, n, b);
    FirstChunk(b, mn, n, mn);
    assert forall p :: p in c ==> p == b || p == mn;
  }

  lemma FirstChunk(b: Addr, mn: Addr, n: nat, p: Addr)
    requires b > 0 && b % 8 == 0 && mn == b + STATE_SIZE && n == DEFAULT_GRANULARITY - STATE_SIZE - TOP_FOOT_SIZE
    requires p == b || p == mn
    ensures p in FirstChunks(b, mn, n) && ChunkOk(FirstTags(b, mn, n), FirstChunks(b, mn, n), {}, mn, p)
  {
    hide ChunkOk;
    assert b % 8 == 0 && mn % 8 == 0 && n % 8 == 0;
    TwoChunks(b, mn, n, FirstTags(b, mn, n), FirstChunks(b, mn, n), p);
  }

  lemma TwoChunks(b: Addr, mn: Addr, n: nat, t: Tags, c: Chunks, p: Addr)
    requires b > 0 && b % 8 == 0 && mn == b + STATE_SIZE && n % 8 == 0 && n > 0
    requires c == map[b := Chunk(STATE_SIZE, true), mn := Chunk(n, false)]
    requires b in t.head && t.head[b] == Head(STATE_SIZE, true, true) && mn in t.head && t.head[mn] == Head(n, true, false)
    requires p == b || p == mn
    ensures p in c && ChunkOk(t, c, {}, mn, p)
  {
  }

  lemma FirstSizes(b: Addr, mn: Addr, n: nat)
    requires b != mn
    ensures mn in FirstChunks(b, mn, n) && FirstChunks(b, mn, n)[mn].size == n
    ensures b in FirstChunks(b, mn, n)
  {
  }

  lemma FirstSegs(b: Addr, mn: Addr, n: nat)
    requires b > 0 && b % 8 == 0 && mn == b + STATE_SIZE && n == DEFAULT_GRANULARITY - STATE_SIZE - TOP_FOOT_SIZE
    ensures SegsOk(FirstTags(b, mn, n), FirstChunks(b, mn, n), {}, mn, [Seg(b, DEFAULT_GRANULARITY, b + 16 + SEG_OFFSET)])
  {
    hide Covers, Starts, EndsWithTop, FirstTags, FirstChunks;
    var segs := [Seg(b, DEFAULT_GRANULARITY, b + 16 + SEG_OFFSET)];
    FirstSizes(b, mn, n);
    FirstCovers(b, mn, n, segs);
    FirstStarts(b, mn, n, segs);
    FirstEnd(b, mn, n, segs);
  }

  lemma FirstEnd(b: Addr, mn: Addr, n: nat, segs: seq<Seg>)
    requires mn == b + STATE_SIZE && n == DEFAULT_GRANULARITY - STATE_SIZE - TOP_FOOT_SIZE
    requires segs == [Seg(b, DEFAULT_GRANULARITY, b + 16 + SEG_OFFSET)]
    ensures EndsWithTop(segs, mn, mn + n)
  {
    assert TopSeg(segs, 0, mn, mn + n);
  }

  lemma FirstCovers(b: Addr, mn: Addr, n: nat, segs: seq<Seg>)
    requires mn == b + STATE_SIZE && n == DEFAULT_GRANULARITY - STATE_SIZE - TOP_FOOT_SIZE
    requires segs == [Seg(b, DEFAULT_GRANULARITY, b + 16 + SEG_OFFSET)]
    ensures Covers(segs, FirstChunks(b, mn, n), {}) && NothingBehind(FirstChunks(b, mn, n), {}, mn, mn + n)
  {
    assert In(segs, 0, b, mn) && In(segs, 0, mn, mn + n);
  }

  lemma FirstStarts(b: Addr, mn: Addr, n: nat, segs: seq<Seg>)
    requires b > 0 && b % 8 == 0 && mn == b + STATE_SIZE && n > 0
    requires segs == [Seg(b, DEFAULT_GRANULARITY, b + 16 + SEG_OFFSET)]
    ensures Starts(segs, FirstTags(b, mn, n), FirstChunks(b, mn, n))
  {
    assert b % 8 == 0;
  }

  /** p0 is in use, p is p0 or a free chunk right in front of it, next is what follows. */
  ghost predicate Leaving(t: Tags, c: Chunks, top: Addr, p0: Addr, p: Addr, next: Addr) {
    && p0 in c && c[p0].inuse && next == p0 + c[p0].size
    && (p != p0 ==> p in c && !c[p].inuse && p != top && p + c[p].size == p0)
    && p in t.head && t.head[p].pinuse
  }

  ghost function Leavers(p0: Addr, p: Addr): set<Addr> {
    {p, p0}
  }

  /** The state as a client sees it once p0 is given up. */
  ghost function Released(a: Snap, p0: Addr): Snap {
    if p0 in a.chunks then Snap(a.chunks[p0 := a.chunks[p0].(inuse := false)], a.wrote) else a
  }

  lemma LeavingFacts(t: Tags, c: Chunks, fences: set<Addr>, top: Addr, segs: seq<Seg>, p0: Addr, p: Addr, next: Addr)
    requires HeapOk(t, c, fences, top, segs) && Leaving(t, c, top, p0, p, next) && next !in fences
    ensures p <= p0 < next && next in c && next in t.head && p > 0 && p % 8 == 0 && (next - p) % 8 == 0 && p in c
    ensures t.head[next].pinuse && t.head[next].cinuse == c[next].inuse && t.head[next].size == c[next].size
    ensures p in t.head && t.head[p].pinuse
    ensures Row(c, Leavers(p0, p), p, next)
    ensures Row(c, Leavers(p0, p) + {next}, p, next + c[next].size)
    ensures top !in Leavers(p0, p) && p0 in c && c[p0].inuse && (p != p0 ==> !c[p].inuse) && next == p0 + c[p0].size
  {
    hide HeapOk;
    TopIsFree(t, c, fences, top, segs);
    UsedEnd(t, c, fences, top, segs, p0);
    ChunkFacts(t, c, fences, top, segs, p0);
    ChunkFacts(t, c, fences, top, segs, p);
    ChunkFacts(t, c, fences, top, segs, next);
    UsedPinuse(t, c, fences, top, segs, p0);
    assert {p, p0} == if p == p0 then {p0} else {p, p0};
  }

  /** Stores from the header of p to the header behind the merged chunks. */
  lemma LeavingSpares(t: Tags, c: Chunks, fences: set<Addr>, top: Addr, segs: seq<Seg>, p0: Addr, p: Addr, next: Addr, w: Addr)
    requires HeapOk(t, c, fences, top, segs) && Leaving(t, c, top, p0, p, next) && next !in fences
    requires p + 8 <= w <= next + 8 || (next in c && !c[next].inuse && p + 8 <= w <= next + c[next].size + 8)
    ensures SparesAt(c[p0 := c[p0].(inuse := false)], w)
  {
    hide HeapOk;
    LeavingFacts(t, c, fences, top, segs, p0, p, next);
    var d := c[p0 := c[p0].(inuse := false)];
    forall q | q in d && d[q].inuse ensures !Hits(d, q, w) {
      HeapApart(t, c, fences, top, segs, q, p0);
      if p != p0 {
        HeapApart(t, c, fences, top, segs, q, p);
      }
      if !c[next].inuse {
        HeapApart(t, c, fences, top, segs, q, next);
      }
    }
  }

  /** A clear pinuse bit leads to the free chunk before. */
  lemma PrevFree(t: Tags, c: Chunks, fences: set<Addr>, top: Addr, segs: seq<Seg>, p: Addr)
    requires HeapOk(t, c, fences, top, segs) && p in c && p in t.head && !t.head[p].pinuse
    ensures p in t.foot && p - t.foot[p] in c && c[p - t.foot[p]] == Chunk(t.foot[p], false)
    ensures p - t.foot[p] != top && p - t.foot[p] in t.head && t.head[p - t.foot[p]].pinuse && t.foot[p] > 0
  {
    hide LayoutOk, SegsOk;
    assert LayoutOk(t, c, fences, top) by { HeapParts(t, c, fences, top, segs); }
    PrevFreeLayout(t, c, fences, top, p);
  }

  lemma PrevFreeLayout(t: Tags, c: Chunks, fences: set<Addr>, top: Addr, p: Addr)
    requires LayoutOk(t, c, fences, top) && p in c && p in t.head && !t.head[p].pinuse
    ensures p in t.foot && p - t.foot[p] in c && c[p - t.foot[p]] == Chunk(t.foot[p], false)
    ensures p - t.foot[p] != top && p - t.foot[p] in t.head && t.head[p - t.foot[p]].pinuse && t.foot[p] > 0
  {
    hide Apart;
    assert ChunkOk(t, c, fences, top, p);
    assert ChunkOk(t, c, fences, top, p - t.foot[p]);
  }

  lemma ReleasedTrans(a: Snap, b: Snap, d: Snap, p0: Addr)
    requires Follows(a, b) && a.chunks == b.chunks && Follows(Released(b, p0), d)
    ensures Follows(Released(a, p0), d)
  {
    hide SparesAt;
    if p0 in a.chunks {
      forall w | w in d.wrote && w !in a.wrote ensures SparesAt(Released(a, p0).chunks, w) {
        if w in b.wrote {
          ReleasedSpares(a.chunks, p0, w);
        }
      }
    }
  }

  lemma ReleasedSpares(c: Chunks, p0: Addr, w: Addr)
    requires SparesAt(c, w) && p0 in c
    ensures SparesAt(c[p0 := c[p0].(inuse := false)], w)
  {
    var d := c[p0 := c[p0].(inuse := false)];
    forall q | q in d && d[q].inuse ensures !Hits(d, q, w) {
      assert !Hits(c, q, w);
    }
  }

  lemma UsedPinuse(t: Tags, c: Chunks, fences: set<Addr>, top: Addr, segs: seq<Seg>, p: Addr)
    requires HeapOk(t, c, fences, top, segs) && p in c && c[p].inuse && p + c[p].size in c
    ensures p + c[p].size in t.head && t.head[p + c[p].size].pinuse
  {
    hide SegsOk, Apart;
    assert ChunkOk(t, c, fences, top, p);
  }

  /** The binned chunks after the chunks p, p0 and n became the one free chunk p. */
  lemma MergeBinned(c: Chunks, top: Addr, dv: Addr, p0: Addr, p: Addr, n: set<Addr>, h: set<Addr>, m: map<Addr, int>, c': Chunks)
    requires m == Binned(c, top, dv) - h && p0 in c && c[p0].inuse && p in c && p != top && top !in n
    requires p != p0 ==> !c[p].inuse
    requires h == (Leavers(p0, p) + n) - {p0, dv}
    requires p in c' && c' == (c - (Leavers(p0, p) + n))[p := Chunk(c'[p].size, false)]
    requires p0 !in n && p !in n && forall q {:trigger q in n} :: q in n ==> q in c && !c[q].inuse
    ensures m == Binned(c', top, if dv in n then p else dv) - (if p == dv || dv in n then {} else {p})
    ensures (if p == dv || dv in n then {} else {p}) <= Binned(c', top, if dv in n then p else dv).Keys
  {
  }

  lemma TopBinned(c: Chunks, top: Addr, dv: Addr, p0: Addr, p: Addr, h: set<Addr>, m: map<Addr, int>, c': Chunks)
    requires m == Binned(c, top, dv) - h && p0 in c && c[p0].inuse && p in c && (p != p0 ==> !c[p].inuse)
    requires h == Leavers(p0, p) - {p0, dv}
    requires p in c' && c' == (c - (Leavers(p0, p) + {top}))[p := Chunk(c'[p].size, false)] && 0 !in c
    ensures m == Binned(c', p, if p == dv then 0 else dv) - {}
  {
  }

  /** Merging the chunks gone, which are free or being freed, touches no other block. */
  lemma ReleasedFollows(a: Snap, p0: Addr, gone: set<Addr>, p: Addr, c': Chunks, w: set<Addr>)
    requires p0 in a.chunks && forall q {:trigger q in gone} :: q in gone && q != p0 ==> q in a.chunks && !a.chunks[q].inuse
    requires p in gone && p in c' && c' == (a.chunks - gone)[p := c'[p]]
    requires forall x :: x in w ==> SparesAt(Released(a, p0).chunks, x)
    ensures Follows(Released(a, p0), Snap(c', a.wrote + w))
  {
    hide SparesAt;
  }

  lemma LiveStays(c: Chunks, live: set<Addr>, fences: set<Addr>, gone: set<Addr>, p0: Addr, p: Addr, top: Addr, c': Chunks)
    requires forall q {:trigger q in live} :: q in live ==> q in c && c[q].inuse && q + c[q].size !in fences
    requires p0 !in live && p in gone && forall q {:trigger q in gone} :: q in gone && q != p0 ==> q in c && !c[q].inuse
    requires p in c' && c' == (c - gone)[p := c'[p]]
    ensures forall q {:trigger q in live} :: q in live ==> q in c' && c'[q].inuse && q + c'[q].size !in fences
  {
  }

  lemma AddSegmentHeap(t: Tags, c: Chunks, fences: set<Addr>, top: Addr, segs: seq<Seg>, i: nat, csp: Addr, tt: Addr, n: nat,
                       posts: set<Addr>, e: Addr, t2: Tags)
    requires HeapOk(t, c, fences, top, segs) && TopSeg(segs, i, top, e - TOP_FOOT_SIZE) && top in c && e == top + c[top].size + TOP_FOOT_SIZE
    requires Outside(segs, tt, tt + n + TOP_FOOT_SIZE) && tt > 0 && tt % 8 == 0 && n > 0 && n % 8 == 0 && csp == RecordAt(top, e)
    requires csp + 32 in posts && forall f {:trigger f in posts} :: f in posts ==> csp + 32 <= f && f + 16 <= e
    requires Fenced(t, tt, n, csp, posts, t2)
    ensures AddFits(c, fences, top, csp, 32, tt, n, posts, e)
    ensures HeapOk(if csp != top then FreeTags(t2, top, csp) else t2, AddChunks(c, top, csp, 32, tt, n), fences + posts, tt,
                   PushSeg(segs, tt, n + TOP_FOOT_SIZE, csp + 16))
  {
    hide HeapOk, Outside, AddFits, AddedTags, FreeTags, PushSeg, Fenced, AddChunks;
    AddShapeHolds(t, c, fences, top, segs, i, tt, n, posts, e);
    NoFence(t, c, fences, top, segs, top);
    AddedTagsHold(t, c, fences, top, csp, tt, n, posts, e, t2);
    ChunkFacts(t, c, fences, top, segs, top);
    TopPinuse(t, c, fences, top, segs);
    HeapAdd(t, c, fences, top, segs, i, csp, 32, tt, n, posts, e, if csp != top then FreeTags(t2, top, csp) else t2);
  }

  lemma TopPinuse(t: Tags, c: Chunks, fences: set<Addr>, top: Addr, segs: seq<Seg>)
    requires HeapOk(t, c, fences, top, segs)
    ensures top in t.head && t.head[top].pinuse
  {
    hide SegsOk, Apart;
    assert ChunkOk(t, c, fences, top, top);
  }

  lemma PushedInSpace(segs: seq<Seg>, b: Addr, size: nat, w: Addr)
    requires InAddressSpace(segs) && b + size < WORD && |segs| > 0
    ensures InAddressSpace(PushSeg(segs, b, size, w))
  {
    var segs' := PushSeg(segs, b, size, w);
    forall i | 0 <= i < |segs'| ensures segs'[i].base + segs'[i].size < WORD {
      assert i > 0 ==> segs'[i].base == segs[i - 1].base && segs'[i].size == segs[i - 1].size;
    }
  }

  /** Stores into the old top, the room behind it and a new area touch no block in use. */
  lemma AddSegmentSpares(t: Tags, c: Chunks, fences: set<Addr>, top: Addr, segs: seq<Seg>, i: nat, csp: Addr, tt: Addr, n: nat,
                         posts: set<Addr>, e: Addr, s0: Snap, s1: Snap)
    requires HeapOk(t, c, fences, top, segs) && top in c && !c[top].inuse && e == top + c[top].size + TOP_FOOT_SIZE && s0.chunks == c
    requires Outside(segs, tt, tt + n + TOP_FOOT_SIZE) && tt > 0 && n > 0 && top <= csp
    requires s1.chunks == AddChunks(c, top, csp, 32, tt, n) && AddFits(c, fences, top, csp, 32, tt, n, posts, e)
    requires forall w {:trigger w in s1.wrote} :: w in s1.wrote && w !in s0.wrote ==> top + 8 <= w <= e || tt <= w <= tt + n + 8
    ensures Follows(s0, s1)
  {
    hide HeapOk, Outside, SparesAt, AddChunks, AddFits;
    AddSegmentChunks(c, fences, top, csp, tt, n, posts, e);
    forall w | w in s1.wrote && w !in s0.wrote ensures SparesAt(c, w) {
      BehindTopSpares(t, c, fences, top, segs, tt, n, e, w);
    }
  }

  lemma BehindTopSpares(t: Tags, c: Chunks, fences: set<Addr>, top: Addr, segs: seq<Seg>, tt: Addr, n: nat, e: Addr, w: Addr)
    requires HeapOk(t, c, fences, top, segs) && top in c && !c[top].inuse && e == top + c[top].size + TOP_FOOT_SIZE
    requires Outside(segs, tt, tt + n + TOP_FOOT_SIZE) && n > 0
    requires top + 8 <= w <= e || tt <= w <= tt + n + 8
    ensures SparesAt(c, w)
  {
    hide HeapOk, Outside, LayoutOk, SegsOk;
    HeapParts(t, c, fences, top, segs);
    OnlyTopThere(t, c, fences, top, segs);
    FrontApart(t, c, fences, top, segs, tt, tt + n + TOP_FOOT_SIZE);
    forall q | q in c && c[q].inuse ensures !Hits(c, q, w) {
      HeapApart(t, c, fences, top, segs, top, q);
    }
  }

  /** The free and the used chunks after add_segment. */
  lemma AddSegmentClient(t: Tags, c: Chunks, fences: set<Addr>, top: Addr, segs: seq<Seg>, i: nat, csp: Addr, tt: Addr, n: nat,
                         posts: set<Addr>, e: Addr, dv: Addr, m: map<Addr, int>, live: set<Addr>)
    requires HeapOk(t, c, fences, top, segs) && AddFits(c, fences, top, csp, 32, tt, n, posts, e) && top in c && !c[top].inuse
    requires m == Binned(c, top, dv) - {} && (dv != 0 ==> dv in c && dv != top) && top != 0
    requires forall p {:trigger p in live} :: p in live ==> p in c && c[p].inuse && p + c[p].size !in fences
    ensures var c', h := AddChunks(c, top, csp, 32, tt, n), if csp != top then {top} else {};
            && m == Binned(c', tt, dv) - h && h <= Binned(c', tt, dv).Keys
            && (csp != top ==> top in c' && c'[top].size == csp - top)
            && tt in c' && c'[tt].size == n
            && (dv != 0 ==> dv in c' && c'[dv] == c[dv] && dv != tt)
            && (forall p {:trigger p in live} :: p in live ==> p in c' && c'[p].inuse && p + c'[p].size !in fences + posts)
  {
    hide HeapOk, AddFits, Binned, AddChunks;
    AddSegmentBinned(c, fences, top, csp, tt, n, posts, e, dv, m);
    AddSegmentChunks(c, fences, top, csp, tt, n, posts, e);
    var c' := AddChunks(c, top, csp, 32, tt, n);
    forall p | p in live ensures p in c' && c'[p].inuse && p + c'[p].size !in fences + posts {
      UsedEnd(t, c, fences, top, segs, p);
      NotPosts(c, fences, top, csp, tt, n, posts, e, p + c[p].size);
    }
  }

  lemma UsedEnd(t: Tags, c: Chunks, fences: set<Addr>, top: Addr, segs: seq<Seg>, p: Addr)
    requires HeapOk(t, c, fences, top, segs) && p in c && p != top
    ensures p + c[p].size in c || p + c[p].size in fences
  {
    hide SegsOk, Apart;
    assert ChunkOk(t, c, fences, top, p);
  }

  lemma NotPosts(c: Chunks, fences: set<Addr>, top: Addr, csp: Addr, tt: Addr, n: nat, posts: set<Addr>, e: Addr, q: Addr)
    requires AddFits(c, fences, top, csp, 32, tt, n, posts, e) && (q in c || q in fences)
    ensures q !in posts
  {
  }

  lemma AddSegmentBinned(c: Chunks, fences: set<Addr>, top: Addr, csp: Addr, tt: Addr, n: nat, posts: set<Addr>, e: Addr, dv: Addr,
                         m: map<Addr, int>)
    requires AddFits(c, fences, top, csp, 32, tt, n, posts, e) && top in c && !c[top].inuse
    requires m == Binned(c, top, dv) - {} && (dv != 0 ==> dv in c && dv != top)
    requires top != 0
    ensures var c', h := AddChunks(c, top, csp, 32, tt, n), if csp != top then {top} else {};
            m == Binned(c', tt, dv) - h && h <= Binned(c', tt, dv).Keys
  {
    AddSegmentChunks(c, fences, top, csp, tt, n, posts, e);
  }

  lemma AddSegmentChunks(c: Chunks, fences: set<Addr>, top: Addr, csp: Addr, tt: Addr, n: nat, posts: set<Addr>, e: Addr)
    requires AddFits(c, fences, top, csp, 32, tt, n, posts, e) && top in c
    ensures var c' := AddChunks(c, top, csp, 32, tt, n);
            && (csp != top ==> top in c' && c'[top].size == csp - top)
            && tt in c' && c'[tt].size == n
            && (forall q {:trigger q in c'} {:trigger c'[q]} :: q in c && q != top ==> q in c' && c'[q] == c[q])
            && (forall q {:trigger q in c} :: q in c && q != top ==> q != csp && q != tt)
  {
    assert csp + 32 in posts;
  }

  /** The chunk behind a free chunk, and what its tag words say. */
  lemma VictimEnd(t: Tags, c: Chunks, fences: set<Addr>, top: Addr, segs: seq<Seg>, p: Addr)
    requires HeapOk(t, c, fences, top, segs) && p in c && !c[p].inuse && p != top
    ensures p + c[p].size in c && p + c[p].size in t.head && p + c[p].size != top
    ensures c[p + c[p].size].inuse && !t.head[p + c[p].size].pinuse
  {
    hide HeapOk, LayoutOk;
    assert LayoutOk(t, c, fences, top) by { HeapParts(t, c, fences, top, segs); }
    FreeEnd(t, c, fences, top, p);
  }

  lemma VictimEndSpares(t: Tags, c: Chunks, fences: set<Addr>, top: Addr, segs: seq<Seg>, p: Addr)
    requires HeapOk(t, c, fences, top, segs) && p in c && !c[p].inuse && p != top
    ensures SparesAt(c, p + c[p].size) && SparesAt(c, p + c[p].size + 8)
  {
    hide HeapOk;
    ChunkFacts(t, c, fences, top, segs, p);
    InsideSpares(t, c, fences, top, segs, p, p + c[p].size);
    InsideSpares(t, c, fences, top, segs, p, p + c[p].size + 8);
  }

  lemma FrontFreeTags(t: Tags, p: Addr, nb: nat, f: Addr, b: Addr)
    requires p + nb <= f && nb > 0 && p in t.head && t.head[p] == Head(nb, true, true) && b > p + nb && b in t.head && !t.head[b].pinuse
    ensures FreeTags(FrontTags(t, p, nb, f), p + nb, b) == Tags(t.head[p + nb := Head(b - p - nb, true, false)], t.foot[b := b - p - nb])
  {
    assert t.head[b := t.head[b].(pinuse := false)] == t.head;
    assert t.head[p := Head(nb, true, true)] == t.head;
  }

  lemma FrontFreeTagsPlain(t: Tags, p: Addr, nb: nat, f: Addr, b: Addr)
    requires p + nb <= f && nb > 0 && p in t.head && t.head[p] == Head(nb, true, true) && b > p + nb
    ensures FreeTags(FrontTags(t, p, nb, f), p + nb, b) == FreeTags(t, p + nb, b)
  {
    assert t.head[p := Head(nb, true, true)] == t.head;
  }

  lemma FrontDvBinned(c: Chunks, top: Addr, dv: Addr, p: Addr, nb: nat, c2: Chunks)
    requires p !in c && p + nb !in c && p + nb < dv && nb > 0
    requires p + nb in c2 && c2 == (FrontChunks(c, p, nb, dv) - {p + nb, dv})[p + nb := Chunk(c2[p + nb].size, false)]
    ensures Binned(c2, top, p + nb) == Binned(c, top, dv)
  {
  }

  lemma FrontBinned(c: Chunks, top: Addr, dv: Addr, p: Addr, nb: nat, f: Addr, gone: set<Addr>, b: Addr, h: set<Addr>, m: map<Addr, int>)
    requires p !in c && p + nb !in c && p + nb < f && nb > 0 && f in c && b >= p + nb && top in c && (dv != 0 ==> dv in c)
    requires gone == {p + nb} + h && (h == {} || (h == {f} && !c[f].inuse)) && m == Binned(c, top, dv) - h && p > 0
    ensures var c2 := (FrontChunks(c, p, nb, f) - gone)[p + nb := Chunk(b - p - nb, false)];
            m == Binned(c2, top, dv) - {p + nb} && p + nb in Binned(c2, top, dv)
  {
  }

  lemma FollowsMore(a: Snap, w: set<Addr>)
    requires forall x :: x in w ==> SparesAt(a.chunks, x)
    ensures Follows(a, Snap(a.chunks, a.wrote + w))
  {
  }

  /** Used chunks are the same before and after. */
  lemma FollowsSame(a: Snap, c: Chunks, c': Chunks, w: set<Addr>)
    requires a.chunks == c && Follows(a, Snap(c, a.wrote + w))
    requires forall q {:trigger q in c} :: q in c && c[q].inuse ==> q in c' && c'[q] == c[q]
    ensures Follows(a, Snap(c', a.wrote + w))
  {
  }

  lemma FirstChunkOf(t: Tags, c: Chunks, fences: set<Addr>, top: Addr, segs: seq<Seg>, i: nat)
    requires HeapOk(t, c, fences, top, segs) && i < |segs|
    ensures segs[i].base in c && segs[i].base in t.head && t.head[segs[i].base].pinuse
  {
    StartFacts(t, c, fences, top, segs, i);
  }

  lemma FrontTop(t: Tags, c: Chunks, fences: set<Addr>, top: Addr, segs: seq<Seg>, q: Addr, qsize: nat)
    requires HeapOk(t, c, fences, top, segs) && q in c && c[q] == Chunk(qsize, true) && q + qsize == top && q in t.head && t.head[q].pinuse
    ensures top in c && q <= top && Row(c, {q, top}, q, top + c[top].size)
  {
    hide HeapOk;
    TopIsFree(t, c, fences, top, segs);
  }

  /** The provisional head word of the remainder is overwritten. */
  lemma FrontRewrite(t: Tags, p: Addr, nb: nat, f: Addr, h: Head)
    requires p + nb <= f && nb > 0 && p in t.head && t.head[p] == Head(nb, true, true)
    ensures FrontTags(t, p, nb, f).head[p + nb := h] == t.head[p + nb := h]
    ensures FrontTags(t, p, nb, f).foot == t.foot
    ensures p + nb in FrontTags(t, p, nb, f).head && FrontTags(t, p, nb, f).head[p + nb].pinuse
    ensures forall q {:trigger FrontTags(t, p, nb, f).head[q]} {:trigger q in FrontTags(t, p, nb, f).head} :: q != p + nb && q in t.head ==>
              q in FrontTags(t, p, nb, f).head && FrontTags(t, p, nb, f).head[q] == t.head[q]
  {
  }

  lemma FrontTopBinned(c: Chunks, top: Addr, dv: Addr, p: Addr, nb: nat, c2: Chunks)
    requires p !in c && p + nb !in c && p + nb < top && nb > 0
    requires p + nb in c2 && c2 == (FrontChunks(c, p, nb, top) - {p + nb, top})[p + nb := Chunk(c2[p + nb].size, false)]
    ensures Binned(c2, p + nb, dv) == Binned(c, top, dv)
  {
  }

  lemma SameSegment(segs: seq<Seg>, i: nat, k: nat, a: Addr)
    requires Disjoint(segs) && i < |segs| && k < |segs|
    requires segs[i].base <= a < segs[i].base + segs[i].size && segs[k].base <= a < segs[k].base + segs[k].size
    ensures i == k
  {
  }

  /** A segment starts at a. */
  ghost predicate StartsAt(segs: seq<Seg>, a: Addr) {
    exists i {:trigger segs[i]} :: 0 <= i < |segs| && segs[i].base == a
  }

  /** The segment with the top holds the record of a segment, and cannot be cut. */
  ghost predicate Pinned(segs: seq<Seg>, t: Addr) {
    exists i, j {:trigger segs[i], segs[j]} :: 0 <= i < |segs| && 0 <= j < |segs|
      && segs[i].base <= t < segs[i].base + segs[i].size && segs[i].base <= segs[j].where < segs[i].base + segs[i].size
  }

  lemma PinnedIn(segs: seq<Seg>, i: nat, t: Addr)
    requires Disjoint(segs) && i < |segs| && segs[i].base <= t < segs[i].base + segs[i].size
    ensures Pinned(segs, t) <==> exists j :: 0 <= j < |segs| && segs[i].base <= segs[j].where < segs[i].base + segs[i].size
  {
    if Pinned(segs, t) {
      var k, j :| 0 <= k < |segs| && 0 <= j < |segs|
        && segs[k].base <= t < segs[k].base + segs[k].size && segs[k].base <= segs[j].where < segs[k].base + segs[k].size;
      SameSegment(segs, i, k, t);
    }
  }

  /** A top that has grown is no larger than the threshold, or trimmed to a unit, if that is possible. */
  ghost predicate Trimmed(n: nat, threshold: nat, unmaps: bool, segs: seq<Seg>, t: Addr) {
    n <= threshold || n <= TOP_FOOT_SIZE + DEFAULT_GRANULARITY || !unmaps || Pinned(segs, t)
  }

  /** What alloc_trim leaves of x bytes: at least one, and at most a unit. */
  lemma TrimRest(x: nat)
    requires x > 0
    ensures var e := ((x + (DEFAULT_GRANULARITY - 1)) / DEFAULT_GRANULARITY - 1) * DEFAULT_GRANULARITY;
            0 <= e && 0 < x - e <= DEFAULT_GRANULARITY
  {
  }

  lemma ResizeBinned(c: Chunks, top: Addr, dv: Addr, n: nat)
    requires top in c
    ensures Binned(c[top := Chunk(n, false)], top, dv) == Binned(c, top, dv)
  {
  }

  lemma ResizeLive(c: Chunks, fences: set<Addr>, top: Addr, n: nat, live: set<Addr>)
    requires top in c && !c[top].inuse && LiveIn(c, fences, live)
    ensures LiveIn(c[top := Chunk(n, false)], fences, live)
  {
  }

  lemma ResizeSpares(t: Tags, c: Chunks, fences: set<Addr>, top: Addr, segs: seq<Seg>, n: nat, w: set<Addr>)
    requires HeapOk(t, c, fences, top, segs) && top in c && !c[top].inuse
    requires n > c[top].size ==> Outside(segs, top + c[top].size + TOP_FOOT_SIZE, top + n + TOP_FOOT_SIZE)
    ensures Follows(Snap(c, w), Snap(c[top := Chunk(n, false)], w + {top + 8, top + n + 8}))
  {
    hide HeapOk, Outside;
    BehindTop(t, c, fences, top, segs, n);
    HeaderSpares(t, c, fences, top, segs, top);
    forall q | q in c && c[q].inuse ensures !Hits(c, q, top + n + 8) {
      HeapApart(t, c, fences, top, segs, top, q);
    }
  }

  lemma TopIsFree(t: Tags, c: Chunks, fences: set<Addr>, top: Addr, segs: seq<Seg>)
    requires HeapOk(t, c, fences, top, segs)
    ensures top in c && !c[top].inuse
  {
  }

  lemma FollowsSelf(a: Snap)
    ensures Follows(a, a)
  {
  }

  lemma FewerWords(a: Snap, c: Chunks, w: set<Addr>, w': set<Addr>)
    requires Follows(a, Snap(c, w)) && w' <= w
    ensures Follows(a, Snap(c, w'))
  {
  }

  lemma DvSplitBinned(c: Chunks, top: Addr, dv: Addr, nb: nat)
    requires dv in c && dv + nb !in c && 0 < nb <= c[dv].size
    ensures Binned(c[dv := Chunk(nb, true)][dv + nb := Chunk(c[dv].size - nb, false)], top, dv + nb) == Binned(c, top, dv)
  {
  }

  lemma DvUseBinned(c: Chunks, top: Addr, dv: Addr)
    requires dv in c && 0 !in c
    ensures Binned(c[dv := c[dv].(inuse := true)], top, 0) == Binned(c, top, dv)
  {
  }

  lemma TopSplitBinned(c: Chunks, top: Addr, dv: Addr, nb: nat)
    requires top in c && top + nb !in c && 0 < nb <= c[top].size
    ensures Binned(c[top := Chunk(nb, true)][top + nb := Chunk(c[top].size - nb, false)], top + nb, dv) == Binned(c, top, dv)
  {
  }

  lemma NoneLarge(l: Links, t: Tree, smallmap: set<nat>, size: map<Addr, int>, v: View, tip: map<int, Addr>)
    requires BinsOk(l, t, smallmap, size, v, tip) && t.marks == {}
    ensures forall y {:trigger size[y]} :: y in size ==> IsSmall(size[y])
  {
    hide HeadOk, NodeOk, RingsOk;
    forall y | y in size ensures IsSmall(size[y]) {
      if !IsSmall(size[y]) {
        assert MemberOk(t, size, v, tip, y);
        BinMarked(t, v, tip[size[y]]);
      }
    }
  }

  /** No bin holds a chunk of nb bytes or more. */
  lemma NoneFits(l: Links, t: Tree, smallmap: set<nat>, size: map<Addr, int>, v: View, tip: map<int, Addr>, nb: nat)
    requires BinsOk(l, t, smallmap, size, v, tip) && t.marks == {} && nb % 8 == 0
    requires forall i {:trigger i in smallmap} :: i in smallmap ==> i < nb / 8
    ensures forall y :: y in size ==> size[y] < nb
  {
    NoneLarge(l, t, smallmap, size, v, tip);
    forall y | y in size ensures size[y] < nb {
      assert IsSmall(size[y]);
      assert size[y] / 8 in smallmap;
    }
  }

  /** The first non-empty small bin at or behind that for nb bytes holds the best fit of all bins. */
  lemma SmallBest(l: Links, t: Tree, smallmap: set<nat>, size: map<Addr, int>, v: View, tip: map<int, Addr>, nb: nat, i: nat)
    requires BinsOk(l, t, smallmap, size, v, tip) && nb % 8 == 0 && i in smallmap && nb <= 8 * i
    requires forall j {:trigger j in smallmap} :: j in smallmap && nb / 8 <= j ==> i <= j
    ensures FitsFrom(size, nb, 8 * i)
  {
    forall y | y in size && size[y] >= nb ensures 8 * i <= size[y] {
      if IsSmall(size[y]) {
        assert size[y] / 8 in smallmap;
      }
    }
  }

  /** Only the bins in the small map hold small chunks. */
  lemma SmallPassed(l: Links, t: Tree, smallmap: set<nat>, size: map<Addr, int>, v: View, tip: map<int, Addr>, nb: nat)
    requires BinsOk(l, t, smallmap, size, v, tip) && nb % 8 == 0 && nb / 8 !in smallmap && nb / 8 + 1 !in smallmap
    ensures !NearlyExact(size, nb)
    ensures (forall i {:trigger i in smallmap} :: i in smallmap ==> i < nb / 8) ==>
              forall y {:trigger size[y]} :: y in size && IsSmall(size[y]) ==> size[y] < nb
  {
    forall y | y in size && IsSmall(size[y]) ensures size[y] % 8 == 0 && size[y] / 8 in smallmap {
    }
  }

  /** A tree node is a large binned chunk. */
  lemma LargeHere(l: Links, t: Tree, smallmap: set<nat>, size: map<Addr, int>, v: View, tip: map<int, Addr>, x: Addr)
    requires BinsOk(l, t, smallmap, size, v, tip) && x in v.key
    ensures x in size && !IsSmall(size[x])
  {
    KeysAreMembers(t, size, v, tip, x);
  }

  /** Link word stores outside every block in use change nothing for a client. */
  lemma OnlySpared(a: Snap, b: Snap, size: map<Addr, int>, w0: set<Addr>, w1: set<Addr>)
    requires a.chunks == b.chunks && (forall w :: w in b.wrote && w !in a.wrote ==> w in w1 && w !in w0)
    requires forall w :: w in w1 && w !in w0 ==> LinkWord(size, w)
    requires forall w {:trigger LinkWord(size, w)} :: LinkWord(size, w) ==> SparesAt(a.chunks, w)
    ensures Follows(a, b)
  {
  }

  /** p, in transit, becomes the victim and the old victim, now binned, becomes ordinary. */
  lemma NewVictim(c: Chunks, top: Addr, dv: Addr, h: set<Addr>, m: map<Addr, int>, p: Addr)
    requires m == Binned(c, top, dv) - h && h <= Binned(c, top, dv).Keys && p in h
    requires dv != 0 ==> dv in c && !c[dv].inuse && dv != top
    requires 0 !in c
    ensures (if dv != 0 then m[dv := c[dv].size] else m) == Binned(c, top, p) - (h - {p})
    ensures h - {p} <= Binned(c, top, p).Keys
  {
  }

  lemma ZeroIsNoChunk(t: Tags, c: Chunks, fences: set<Addr>, top: Addr, segs: seq<Seg>)
    requires HeapOk(t, c, fences, top, segs)
    ensures 0 !in c
  {
    if 0 in c {
      ChunkFacts(t, c, fences, top, segs, 0);
    }
  }

  lemma NoFence(t: Tags, c: Chunks, fences: set<Addr>, top: Addr, segs: seq<Seg>, n: Addr)
    requires HeapOk(t, c, fences, top, segs) && n in c
    ensures n !in fences
  {
  }

  /** The other chunks in transit are still free and still not the victim or the top. */
  lemma StillBinned(c: Chunks, top: Addr, dv: Addr, h: set<Addr>, p: Addr, c': Chunks)
    requires h <= Binned(c, top, dv).Keys
    requires forall q {:trigger q in c'} :: q in c && q != p ==> q in c' && c'[q] == c[q]
    ensures h - {p} <= Binned(c', top, dv).Keys
  {
    forall q | q in h - {p} ensures q in Binned(c', top, dv).Keys {
      assert q in Binned(c, top, dv);
      assert q in c' && c'[q] == c[q];
    }
  }

  lemma BinnedKey(c: Chunks, top: Addr, dv: Addr, p: Addr)
    ensures p in Binned(c, top, dv) <==> p in c && !c[p].inuse && p != top && p != dv
  {
  }

  /** A free chunk that could serve a request for a chunk of nb bytes. */
  ghost predicate Fitting(c: Chunks, top: Addr, q: Addr, nb: nat) {
    q in c && !c[q].inuse && (if q == top then c[q].size > nb else c[q].size >= nb)
  }

  /** A small bin holds a chunk of nb bytes, or of the next size. */
  ghost predicate NearlyExact(size: map<Addr, int>, nb: nat) {
    exists y {:trigger size[y]} :: y in size && IsSmall(size[y]) && nb <= size[y] <= nb + 8
  }

  /** Every binned chunk that holds nb bytes has at least n. */
  ghost predicate FitsFrom(size: map<Addr, int>, nb: nat, n: int) {
    forall y {:trigger size[y]} :: y in size && size[y] >= nb ==> n <= size[y]
  }

  /** Chunk p is the best fitting binned one for nb bytes. */
  ghost predicate BestFit(size: map<Addr, int>, nb: nat, p: Addr) {
    p in size && size[p] >= nb && FitsFrom(size, nb, size[p])
  }

  /** Where a request for nb bytes goes: to a binned chunk of (nearly) that small size, then for a
      small request to the victim; then to the best fit among the bins and the victim; then to the
      top. Only if there is none of these the system is asked. */
  ghost predicate Chosen(size: map<Addr, int>, dv: Addr, dvsize: nat, top: Addr, topsize: nat, nb: nat, p: Addr) {
    if NearlyExact(size, nb) then BestFit(size, nb, p)
    else if nb <= dvsize && (IsSmall(nb) || FitsFrom(size, nb, dvsize)) then p == dv
    else if exists y {:trigger size[y]} :: y in size && size[y] >= nb then BestFit(size, nb, p)
    else nb < topsize ==> p == top
  }

  lemma IsBest(size: map<Addr, int>, nb: nat, p: Addr)
    requires p in size && size[p] >= nb && FitsFrom(size, nb, size[p])
    ensures BestFit(size, nb, p) && exists y {:trigger size[y]} :: y in size && size[y] >= nb
    ensures IsSmall(size[p]) && size[p] <= nb + 8 ==> NearlyExact(size, nb)
  {
    hide FitsFrom;
    assert size[p] >= nb;
  }

  lemma LargeBest(size: map<Addr, int>, nb: nat, p: Addr)
    requires p in size && size[p] >= nb
    requires forall y {:trigger size[y]} :: y in size ==> if IsSmall(size[y]) then size[y] < nb else size[p] <= size[y]
    ensures FitsFrom(size, nb, size[p])
  {
  }

  /** The bins have nothing for a request of nb bytes that would go before the victim. */
  ghost predicate Passed(size: map<Addr, int>, dvsize: nat, nb: nat) {
    && !NearlyExact(size, nb)
    && if nb <= dvsize then IsSmall(nb) || FitsFrom(size, nb, dvsize) else forall y {:trigger size[y]} :: y in size ==> size[y] < nb
  }

  /** The chunks in use, with their sizes. */
  ghost function Used(c: Chunks): map<Addr, nat> {
    map p | p in c && c[p].inuse :: c[p].size
  }

  lemma MergedUsed(c: Chunks, p0: Addr, gone: set<Addr>, p: Addr, s: nat)
    requires p0 in gone && p in gone && forall q {:trigger q in gone} :: q in gone && q != p0 ==> q in c && !c[q].inuse
    ensures Used((c - gone)[p := Chunk(s, false)]) == Used(c) - {p0}
  {
    var d := (c - gone)[p := Chunk(s, false)];
    forall q ensures q in Used(d) <==> q in Used(c) - {p0} {
      assert q in d <==> q == p || (q in c && q !in gone);
    }
  }

  lemma SameUsed(c: Chunks, c': Chunks, top: Addr)
    requires c'.Keys == c.Keys && top in c && !c[top].inuse && !c'[top].inuse
    requires forall q {:trigger c'[q]} :: q in c && q != top ==> c'[q] == c[q]
    ensures Used(c') == Used(c)
  {
    forall q ensures q in Used(c') <==> q in Used(c) {
      assert q in c && q != top ==> c'[q] == c[q];
    }
  }

  /** Chunk x is the same before and after. */
  ghost predicate SameAt(c: Chunks, c': Chunks, x: Addr) {
    x in c && x in c' && c'[x] == c[x]
  }

  ghost predicate LiveIn(c: Chunks, fences: set<Addr>, live: set<Addr>) {
    forall p {:trigger p in live} :: p in live ==> p in c && c[p].inuse && p + c[p].size !in fences
  }

  /** p0, the free chunk before it, if any, and the top become the top. */
  lemma MergedTop(t: Tags, c: Chunks, fences: set<Addr>, top: Addr, segs: seq<Seg>, dv: Addr, live: set<Addr>, p0: Addr, p: Addr,
                  h: set<Addr>, m: map<Addr, int>, s0: Snap) returns (c': Chunks)
    requires HeapOk(t, c, fences, top, segs) && Leaving(t, c, top, p0, p, top) && top !in fences && top in c && s0.chunks == c
    requires m == Binned(c, top, dv) - h && h == Leavers(p0, p) - {p0, dv} && (dv == 0 || dv != top) && LiveIn(c, fences, live) && p0 !in live
    requires dv != 0 ==> dv in c && !c[dv].inuse
    ensures var s := top + c[top].size - p;
            && s > 0 && HeapOk(t.(head := t.head[p := Head(s, true, false)]), c', fences, p, segs)
            && p in c' && c'[p].size == s
    ensures m == Binned(c', p, if p == dv then 0 else dv) - {} && LiveIn(c', fences, live)
    ensures Follows(Released(s0, p0), Snap(c', s0.wrote + {p + 8}))
    ensures dv != 0 && dv != p ==> SameAt(c, c', dv)
    ensures Used(c') == Used(c) - {p0}
  {
    hide HeapOk, Leaving, Binned, Follows, SparesAt, FreeTags, Row, Used;
    LeavingFacts(t, c, fences, top, segs, p0, p, top);
    LeavingSpares(t, c, fences, top, segs, p0, p, top, p + 8);
    ZeroIsNoChunk(t, c, fences, top, segs);
    TopIsFree(t, c, fences, top, segs);
    var gone := Leavers(p0, p) + {top};
    HeapCoalesceTop(t, c, fences, top, segs, gone, p);
    c' := (c - gone)[p := Chunk(top + c[top].size - p, false)];
    TopBinned(c, top, dv, p0, p, h, m, c');
    ReleasedFollows(s0, p0, gone, p, c', {p + 8});
    LiveStays(c, live, fences, gone, p0, p, top, c');
    MergedUsed(c, p0, gone, p, top + c[top].size - p);
  }

  /** p0 and the free chunk before it, if any, become one free chunk. */
  lemma Merged(t: Tags, c: Chunks, fences: set<Addr>, top: Addr, segs: seq<Seg>, dv: Addr, live: set<Addr>, p0: Addr, p: Addr,
               next: Addr, h: set<Addr>, m: map<Addr, int>, s0: Snap) returns (c': Chunks)
    requires HeapOk(t, c, fences, top, segs) && Leaving(t, c, top, p0, p, next) && next !in fences && next in c && c[next].inuse
    requires m == Binned(c, top, dv) - h && h == Leavers(p0, p) - {p0, dv} && LiveIn(c, fences, live) && p0 !in live
    requires s0.chunks == c && (dv == 0 || dv != top) && (dv != 0 ==> dv in c && !c[dv].inuse)
    ensures next > p && HeapOk(FreeTags(t, p, next), c', fences, top, segs) && p in c' && c'[p] == Chunk(next - p, false)
    ensures m == Binned(c', top, dv) - (if p == dv then {} else {p}) && LiveIn(c', fences, live)
    ensures (if p == dv then {} else {p}) <= Binned(c', top, dv).Keys
    ensures Follows(Released(s0, p0), Snap(c', s0.wrote + {p + 8, next + 8, next}))
    ensures SameAt(c, c', top) && p != top && p != 0
    ensures dv != 0 && dv != p ==> SameAt(c, c', dv)
    ensures Used(c') == Used(c) - {p0}
  {
    hide HeapOk, Leaving, Binned, Follows, SparesAt, FreeTags, Row, Used;
    LeavingFacts(t, c, fences, top, segs, p0, p, next);
    TopIsFree(t, c, fences, top, segs);
    ZeroIsNoChunk(t, c, fences, top, segs);
    HeapCoalesce(t, c, fences, top, segs, Leavers(p0, p), p, next);
    c' := (c - Leavers(p0, p))[p := Chunk(next - p, false)];
    MergedClient(t, c, fences, top, segs, dv, live, p0, p, next, h, m, s0, c');
    MergedUsed(c, p0, Leavers(p0, p), p, next - p);
  }

  lemma MergedClient(t: Tags, c: Chunks, fences: set<Addr>, top: Addr, segs: seq<Seg>, dv: Addr, live: set<Addr>, p0: Addr, p: Addr,
                     next: Addr, h: set<Addr>, m: map<Addr, int>, s0: Snap, c': Chunks)
    requires HeapOk(t, c, fences, top, segs) && Leaving(t, c, top, p0, p, next) && next !in fences && next in c && c[next].inuse
    requires m == Binned(c, top, dv) - h && h == Leavers(p0, p) - {p0, dv} && LiveIn(c, fences, live) && p0 !in live
    requires s0.chunks == c && p < next && c' == (c - Leavers(p0, p))[p := Chunk(next - p, false)]
    ensures m == Binned(c', top, dv) - (if p == dv then {} else {p}) && LiveIn(c', fences, live)
    ensures (if p == dv then {} else {p}) <= Binned(c', top, dv).Keys
    ensures Follows(Released(s0, p0), Snap(c', s0.wrote + {p + 8, next + 8, next}))
  {
    hide HeapOk, Leaving, Binned, Follows, SparesAt, FreeTags, Row, Used;
    LeavingFacts(t, c, fences, top, segs, p0, p, next);
    LeavingSpares(t, c, fences, top, segs, p0, p, next, p + 8);
    LeavingSpares(t, c, fences, top, segs, p0, p, next, next + 8);
    LeavingSpares(t, c, fences, top, segs, p0, p, next, next);
    TopIsFree(t, c, fences, top, segs);
    var gone := Leavers(p0, p);
    assert gone + {} == gone;
    MergeBinned(c, top, dv, p0, p, {}, h, m, c');
    ReleasedFollows(s0, p0, gone, p, c', {p + 8, next + 8, next});
    LiveStays(c, live, fences, gone, p0, p, top, c');
  }

  /** p0, the free chunk before it, if any, and the free chunk next become one free chunk. */
  lemma MergedNext(t: Tags, c: Chunks, fences: set<Addr>, top: Addr, segs: seq<Seg>, dv: Addr, live: set<Addr>, p0: Addr, p: Addr,
                   next: Addr, h: set<Addr>, m: map<Addr, int>, s0: Snap) returns (c': Chunks)
    requires HeapOk(t, c, fences, top, segs) && Leaving(t, c, top, p0, p, next) && next !in fences && next in c && !c[next].inuse && next != top
    requires m == Binned(c, top, dv) - h && h == (Leavers(p0, p) + {next}) - {p0, dv} && LiveIn(c, fences, live) && p0 !in live
    requires s0.chunks == c && (dv == 0 || dv != top) && (dv != 0 ==> dv in c && !c[dv].inuse)
    ensures var s := next + c[next].size - p;
            && s > 0 && HeapOk(Tags(t.head[p := Head(s, true, false)], t.foot[p + s := s]), c', fences, top, segs)
            && p in c' && c'[p] == Chunk(s, false)
            && Follows(Released(s0, p0), Snap(c', s0.wrote + {p + 8, p + s}))
    ensures var dv' := if next == dv then p else dv;
            m == Binned(c', top, dv') - (if p == dv' then {} else {p}) && LiveIn(c', fences, live)
            && (if p == dv' then {} else {p}) <= Binned(c', top, dv').Keys
    ensures SameAt(c, c', top) && p != top && p != 0
    ensures dv != 0 && dv != p && dv != next ==> SameAt(c, c', dv)
    ensures Used(c') == Used(c) - {p0}
  {
    hide HeapOk, Leaving, Binned, Follows, SparesAt, FreeTags, Row, Used;
    LeavingFacts(t, c, fences, top, segs, p0, p, next);
    var b := next + c[next].size;
    LeavingSpares(t, c, fences, top, segs, p0, p, next, p + 8);
    VictimEnd(t, c, fences, top, segs, next);
    LeavingSpares(t, c, fences, top, segs, p0, p, next, b);
    TopIsFree(t, c, fences, top, segs);
    ZeroIsNoChunk(t, c, fences, top, segs);
    var gone := Leavers(p0, p) + {next};
    HeapCoalesce(t, c, fences, top, segs, gone, p, b);
    PlainFreeTags(t, p, b);
    c' := (c - gone)[p := Chunk(b - p, false)];
    MergeBinned(c, top, dv, p0, p, {next}, h, m, c');
    ReleasedFollows(s0, p0, gone, p, c', {p + 8, b});
    LiveStays(c, live, fences, gone, p0, p, top, c');
    MergedUsed(c, p0, gone, p, b - p);
  }

  lemma PlainFreeTags(t: Tags, p: Addr, b: Addr)
    requires p < b && b in t.head && !t.head[b].pinuse
    ensures FreeTags(t, p, b) == Tags(t.head[p := Head(b - p, true, false)], t.foot[b := b - p])
  {
    assert t.head[b := t.head[b].(pinuse := false)] == t.head;
  }

  /** The chunks are as large as their clients wanted. */
  ghost predicate AskedOk(asked: map<Addr, nat>, c: Chunks) {
    forall p {:trigger p in asked} {:trigger asked[p]} :: p in asked ==> p in c && asked[p] + 8 <= c[p].size
  }

  lemma AskedStays(asked: map<Addr, nat>, a: Snap, d: Snap)
    requires Follows(a, d)
    requires forall p {:trigger p in asked} :: p in asked ==> p in a.chunks && a.chunks[p].inuse && asked[p] + 8 <= a.chunks[p].size
    ensures AskedOk(asked, d.chunks)
  {
    hide SparesAt;
  }

  lemma AskedMore(asked: map<Addr, nat>, c: Chunks, p: Addr, n: nat)
    requires AskedOk(asked, c) && p in c && n + 8 <= c[p].size
    ensures AskedOk(asked[p := n], c)
  {
  }

  lemma CutBinned(c: Chunks, top: Addr, dv: Addr, p: Addr, nb: nat)
    requires p in c && c[p].inuse && p + nb !in c && nb <= c[p].size
    ensures Binned(c[p := Chunk(nb, true)][p + nb := Chunk(c[p].size - nb, true)], top, dv) == Binned(c, top, dv)
  {
  }

  lemma CutUsed(c: Chunks, p: Addr, nb: nat, s: nat)
    requires p in c && c[p].inuse && p + nb !in c && nb <= s && nb > 0
    ensures Used(c[p := Chunk(nb, true)][p + nb := Chunk(s - nb, true)]) - {p + nb} == Used(c)[p := nb]
  {
    var d := c[p := Chunk(nb, true)][p + nb := Chunk(s - nb, true)];
    forall q {:trigger q in Used(d)} ensures q in Used(d) - {p + nb} <==> q in Used(c)[p := nb] {
      assert q in d <==> q in c || q == p + nb;
    }
  }

  lemma CutFollows(t: Tags, c: Chunks, fences: set<Addr>, top: Addr, segs: seq<Seg>, p: Addr, nb: nat, w: set<Addr>)
    requires HeapOk(t, c, fences, top, segs) && p in c && c[p].inuse && p + nb !in c && 0 < nb < c[p].size
    requires p + c[p].size !in fences
    ensures Follows(Snap(c[p := Chunk(nb, true)], w),
                    Snap(c[p := Chunk(nb, true)][p + nb := Chunk(c[p].size - nb, true)], w + {p + 8, p + nb + 8, p + c[p].size + 8}))
  {
    hide HeapOk;
    ChunkFacts(t, c, fences, top, segs, p);
    TopIsFree(t, c, fences, top, segs);
    UsedEnd(t, c, fences, top, segs, p);
    HeaderSpares(t, c, fences, top, segs, p);
    HeaderSpares(t, c, fences, top, segs, p + c[p].size);
    forall q | q in c && c[q].inuse && q != p ensures !Hits(c, q, p + nb + 8) {
      HeapApart(t, c, fences, top, segs, p, q);
    }
    var d := c[p := Chunk(nb, true)];
    forall q, x | q in d && d[q].inuse && x in {p + 8, p + nb + 8, p + c[p].size + 8} ensures !Hits(d, q, x) {
      assert q != p ==> Hits(d, q, x) == Hits(c, q, x);
    }
  }

  lemma CutTrans(a: Snap, b: Snap, d: Snap, r: Addr)
    requires Follows(a, b) && Follows(Released(b, r), d) && r !in a.chunks
    ensures Follows(a, d)
  {
    forall w | w in d.wrote && w !in a.wrote ensures SparesAt(a.chunks, w) {
      if w !in b.wrote {
        var e := Released(b, r).chunks;
        forall q | q in a.chunks && a.chunks[q].inuse ensures !Hits(a.chunks, q, w) {
          assert q in b.chunks && b.chunks[q] == a.chunks[q];
          assert q in e && !Hits(e, q, w);
        }
      }
    }
    forall q | q in a.chunks && a.chunks[q].inuse ensures q in d.chunks && d.chunks[q] == a.chunks[q] {
      assert q in b.chunks;
      assert q in Released(b, r).chunks;
    }
  }

  lemma GrownClient(t: Tags, c: Chunks, fences: set<Addr>, top: Addr, segs: seq<Seg>, dv: Addr, live: set<Addr>, p: Addr,
                    nb: nat, s: nat, s0: Snap, c': Chunks)
    requires HeapOk(t, c, fences, top, segs) && p in c && c[p].inuse && top in c && !c[top].inuse && p + c[p].size == top
    requires LiveIn(c, fences, live) && (dv != 0 ==> dv in c && !c[dv].inuse) && s0.chunks == c
    requires c[p].size < nb < s && s == c[p].size + c[top].size
    requires c' == (c - {top})[p := Chunk(nb, true)][p + nb := Chunk(s - nb, false)]
    ensures p + nb !in c && p + nb !in fences && Binned(c', p + nb, dv) == Binned(c, top, dv) && Used(c') == Used(c)[p := nb]
    ensures LiveIn(c', fences, live)
    ensures Follows(Snap(c - {p}, s0.wrote), Snap(c', s0.wrote + {p + 8, p + nb + 8}))
    ensures SparesAt(c, p + 8) && SparesAt(c, p + nb + 8)
    ensures dv != 0 && dv != top ==> SameAt(c, c', dv) && dv != p + nb
  {
    hide HeapOk, Binned, Used, Follows, SparesAt, LiveIn;
    GrownNew(t, c, fences, top, segs, p, nb);
    ChunkFacts(t, c, fences, top, segs, p);
    GrownBinned(c, top, dv, p, nb, s, c');
    GrownUsed(c, top, p, nb, s, c');
    HeaderSpares(t, c, fences, top, segs, p);
    ChunkFacts(t, c, fences, top, segs, p);
    InsideSpares(t, c, fences, top, segs, top, p + nb + 8);
    GrownFollows(c, top, p, nb, s0, c');
    GrownLive(c, fences, live, top, p, nb, c');
  }

  lemma GrownNew(t: Tags, c: Chunks, fences: set<Addr>, top: Addr, segs: seq<Seg>, p: Addr, nb: nat)
    requires HeapOk(t, c, fences, top, segs) && p in c && top in c && p + c[p].size == top && c[p].size < nb < c[p].size + c[top].size
    ensures p + nb !in c && p + nb !in fences
  {
    assert p + nb in c || p + nb in fences ==> Before(c, top, p + nb);
  }

  lemma GrownBinned(c: Chunks, top: Addr, dv: Addr, p: Addr, nb: nat, s: nat, c': Chunks)
    requires p in c && c[p].inuse && top in c && p + nb !in c && nb < s && (dv != 0 ==> dv in c) && p != top && p + nb != 0
    requires c' == (c - {top})[p := Chunk(nb, true)][p + nb := Chunk(s - nb, false)]
    ensures Binned(c', p + nb, dv) == Binned(c, top, dv)
  {
  }

  lemma GrownUsed(c: Chunks, top: Addr, p: Addr, nb: nat, s: nat, c': Chunks)
    requires p in c && c[p].inuse && top in c && !c[top].inuse && p + nb !in c && 0 < nb < s
    requires c' == (c - {top})[p := Chunk(nb, true)][p + nb := Chunk(s - nb, false)]
    ensures Used(c') == Used(c)[p := nb]
  {
    forall q {:trigger q in Used(c')} ensures q in Used(c') <==> q in Used(c)[p := nb] {
      assert q in c' <==> (q in c && q != top) || q == p + nb;
    }
  }

  lemma GrownFollows(c: Chunks, top: Addr, p: Addr, nb: nat, s0: Snap, c': Chunks)
    requires p in c && top in c && !c[top].inuse && p + nb !in c && s0.chunks == c && p + nb in c'
    requires c' == (c - {top})[p := Chunk(nb, true)][p + nb := c'[p + nb]]
    requires SparesAt(c, p + 8) && SparesAt(c, p + nb + 8)
    ensures Follows(Snap(c - {p}, s0.wrote), Snap(c', s0.wrote + {p + 8, p + nb + 8}))
  {
    var d := c - {p};
    forall q, x | q in d && d[q].inuse && x in {p + 8, p + nb + 8} ensures !Hits(d, q, x) {
      assert !Hits(c, q, x);
    }
  }

  lemma GrownLive(c: Chunks, fences: set<Addr>, live: set<Addr>, top: Addr, p: Addr, nb: nat, c': Chunks)
    requires LiveIn(c, fences, live) && p in c && top in c && !c[top].inuse && p + nb !in fences && p + nb !in c && p + nb in c'
    requires c' == (c - {top})[p := Chunk(nb, true)][p + nb := c'[p + nb]]
    ensures LiveIn(c', fences, live)
  {
  }

  // ---- memory as a client sees it ---------------------------------------------------

  /** Byte x belongs to the user of chunk q. */
  ghost predicate InBlock(c: Chunks, q: Addr, x: Addr) {
    q in c && q + 16 <= x < q + 8 + c[q].size
  }

  /** Byte x lies in one of the given words. */
  ghost predicate Stored(words: set<Addr>, x: Addr) {
    exists w :: w in words && w <= x < w + 8
  }

  ghost predicate SameElsewhere(words: set<Addr>, b0: Addr -> int, b1: Addr -> int) {
    forall x {:trigger b1(x)} :: !Stored(words, x) ==> b1(x) == b0(x)
  }

  /** The bytes of all blocks in use are the same before and after. */
  ghost predicate BlocksKept(c: Chunks, b0: Addr -> int, b1: Addr -> int) {
    forall q, x {:trigger InBlock(c, q, x)} :: InBlock(c, q, x) && c[q].inuse ==> b1(x) == b0(x)
  }

  lemma SparedBytes(a: Snap, d: Snap, b0: Addr -> int, b1: Addr -> int)
    requires Follows(a, d) && a.wrote == {}
    requires SameElsewhere(d.wrote, b0, b1)
    ensures BlocksKept(a.chunks, b0, b1)
  {
    forall q, x | InBlock(a.chunks, q, x) && a.chunks[q].inuse ensures b1(x) == b0(x) {
      forall w | w in d.wrote ensures !(w <= x < w + 8) {
        assert SparesAt(a.chunks, w);
        assert !Hits(a.chunks, q, w);
      }
    }
  }

  lemma UsedStay(a: Snap, d: Snap)
    requires Follows(a, d)
    ensures forall q {:trigger q in d.chunks} {:trigger q in a.chunks} ::
              q in a.chunks && a.chunks[q].inuse ==> q in d.chunks && d.chunks[q] == a.chunks[q]
  {
  }

  lemma SameBytes(c: Chunks, b: Addr -> int)
    ensures BlocksKept(c, b, b)
  {
  }

  lemma OtherBlocks(c: Chunks, p: Addr, b0: Addr -> int, b1: Addr -> int)
    requires p in c && BlocksKept(c[p := c[p].(inuse := false)], b0, b1)
    ensures BlocksKept(c - {p}, b0, b1)
  {
    var d := c[p := c[p].(inuse := false)];
    forall q, x | InBlock(c - {p}, q, x) && (c - {p})[q].inuse ensures b1(x) == b0(x) {
      assert InBlock(d, q, x);
    }
  }

  /** The first n bytes of one block are what those of the other block were. */
  ghost predicate CopyOf(b1: Addr -> int, to: Addr, b0: Addr -> int, from: Addr, n: int) {
    forall x {:trigger b1(x)} :: to <= x < to + n ==> b1(x) == b0(from + (x - to))
  }

  lemma SparedWords(c: Chunks, words: set<Addr>, b0: Addr -> int, b1: Addr -> int)
    requires SameElsewhere(words, b0, b1) && forall w {:trigger w in words} :: w in words ==> SparesAt(c, w)
    ensures BlocksKept(c, b0, b1)
  {
    SparedBytes(Snap(c, {}), Snap(c, words), b0, b1);
  }

  /** A block that was resized in place. */
  lemma ResizedBytes(c: Chunks, p: Addr, keep: nat, n: nat, b0: Addr -> int, b1: Addr -> int)
    requires p in c && c[p].inuse && BlocksKept(c[p := Chunk(keep, true)], b0, b1) && n + 8 <= keep
    ensures BlocksKept(c - {p}, b0, b1) && CopyOf(b1, p + 16, b0, p + 16, n)
  {
    var d := c[p := Chunk(keep, true)];
    forall q, x | InBlock(c - {p}, q, x) && (c - {p})[q].inuse ensures b1(x) == b0(x) {
      assert InBlock(d, q, x);
    }
    forall x {:trigger b1(x)} | p + 16 <= x < p + 16 + n ensures b1(x) == b0(p + 16 + (x - (p + 16))) {
      assert InBlock(d, p, x);
    }
  }

  /** memcpy */
  ghost function Copied(b: Addr -> int, to: Addr, from: Addr, n: int): Addr -> int {
    x => CopiedByte(b, to, from, n, x)
  }

  ghost function CopiedByte(b: Addr -> int, to: Addr, from: Addr, n: int, x: Addr): int {
    if to <= x < to + n then b(from + (x - to)) else b(x)
  }

  /** A block that was moved: the bytes from mem on were copied to the new block r. */
  lemma MovedBytes(c0: Chunks, c1: Chunks, mem: Addr, r: Addr, n: int, b0: Addr -> int, b1: Addr -> int, b3: Addr -> int)
    requires mem - 16 in c0 && c0[mem - 16].inuse && r - 16 in c1 && c1[r - 16].inuse && r != mem
    requires r - 16 in c0 ==> !c0[r - 16].inuse
    requires n + 8 <= c0[mem - 16].size && n + 8 <= c1[r - 16].size
    requires forall x {:trigger x in c1} :: x in c0 && c0[x].inuse ==> x in c1 && c1[x] == c0[x]
    requires forall x {:trigger c1[x]} :: x in c1 && x != r - 16 ==> x + c1[x].size <= r - 16 || r - 16 + c1[r - 16].size <= x
    requires BlocksKept(c0, b0, b1) && BlocksKept(c1 - {mem - 16}, Copied(b1, r, mem, n), b3)
    ensures CopyOf(b3, r, b0, mem, n) && BlocksKept(c0 - {mem - 16}, b0, b3)
  {
    hide BlocksKept, CopyOf;
    BlockCopied(c0, c1, mem, r, n, b0, b1, b3);
    OthersCopied(c0, c1, mem, r, n, b0, b1, b3);
  }

  lemma BlockCopied(c0: Chunks, c1: Chunks, mem: Addr, r: Addr, n: int, b0: Addr -> int, b1: Addr -> int, b3: Addr -> int)
    requires mem - 16 in c0 && c0[mem - 16].inuse && r - 16 in c1 && c1[r - 16].inuse && r != mem
    requires n + 8 <= c0[mem - 16].size && n + 8 <= c1[r - 16].size
    requires BlocksKept(c0, b0, b1) && BlocksKept(c1 - {mem - 16}, Copied(b1, r, mem, n), b3)
    ensures CopyOf(b3, r, b0, mem, n)
  {
    forall x {:trigger b3(x)} | r <= x < r + n ensures b3(x) == b0(mem + (x - r)) {
      ByteCopied(c0, c1, mem, r, n, b0, b1, b3, x);
    }
  }

  lemma ByteCopied(c0: Chunks, c1: Chunks, mem: Addr, r: Addr, n: int, b0: Addr -> int, b1: Addr -> int, b3: Addr -> int, x: Addr)
    requires mem - 16 in c0 && c0[mem - 16].inuse && r - 16 in c1 && c1[r - 16].inuse && r != mem
    requires n + 8 <= c0[mem - 16].size && n + 8 <= c1[r - 16].size && r <= x < r + n
    requires BlocksKept(c0, b0, b1) && BlocksKept(c1 - {mem - 16}, Copied(b1, r, mem, n), b3)
    ensures b3(x) == b0(mem + (x - r))
  {
    hide Copied;
    CopiedHere(b1, r, mem, n, x);
    assert InBlock(c1 - {mem - 16}, r - 16, x);
    assert InBlock(c0, mem - 16, mem + (x - r));
  }

  lemma CopiedHere(b: Addr -> int, to: Addr, from: Addr, n: int, x: Addr)
    ensures to <= x < to + n ==> Copied(b, to, from, n)(x) == b(from + (x - to))
  {
  }

  lemma OthersCopied(c0: Chunks, c1: Chunks, mem: Addr, r: Addr, n: int, b0: Addr -> int, b1: Addr -> int, b3: Addr -> int)
    requires mem - 16 in c0 && r - 16 in c1 && n + 8 <= c1[r - 16].size && (r - 16 in c0 ==> !c0[r - 16].inuse)
    requires forall x {:trigger x in c1} :: x in c0 && c0[x].inuse ==> x in c1 && c1[x] == c0[x]
    requires forall x {:trigger c1[x]} :: x in c1 && x != r - 16 ==> x + c1[x].size <= r - 16 || r - 16 + c1[r - 16].size <= x
    requires BlocksKept(c0, b0, b1) && BlocksKept(c1 - {mem - 16}, Copied(b1, r, mem, n), b3)
    ensures BlocksKept(c0 - {mem - 16}, b0, b3)
  {
    hide Copied;
    forall x, a {:trigger InBlock(c0 - {mem - 16}, x, a)} | InBlock(c0 - {mem - 16}, x, a) && (c0 - {mem - 16})[x].inuse ensures b3(a) == b0(a) {
      assert InBlock(c0, x, a) && x in c1;
      assert InBlock(c1 - {mem - 16}, x, a);
      CopiedElsewhere(b1, r, mem, n, a);
    }
  }

  lemma CopiedElsewhere(b: Addr -> int, to: Addr, from: Addr, n: int, a: Addr)
    ensures !(to <= a < to + n) ==> Copied(b, to, from, n)(a) == b(a)
  {
  }

  /** The other chunks in use have kept their sizes. */
  lemma UsedRest(c: Chunks, c': Chunks, p: Addr, q: Addr)
    requires Used(c') == Used(c) - {p} && q in c && c[q].inuse && q != p
    ensures q in c' && c'[q] == c[q]
  {
    assert q in Used(c) - {p};
  }

  lemma UsedAt(c: Chunks, p: Addr)
    requires p in c && c[p].inuse
    ensures Used(c)[p := c[p].size] == Used(c) && c[p := Chunk(c[p].size, true)] == c
  {
    assert p in Used(c);
  }

  lemma UsedSize(c: Chunks, c': Chunks, p: Addr, n: nat)
    requires Used(c') == Used(c)[p := n]
    ensures p in c' && c'[p] == Chunk(n, true)
  {
    assert p in Used(c') && Used(c')[p] == n;
  }

  lemma SameChunk(c: Chunks, p: Addr)
    requires p in c && c[p].inuse
    ensures c[p := Chunk(c[p].size, true)] == c
  {
  }

  lemma FewerBlocks(a: Snap, d: Snap, p: Addr)
    requires Follows(a, d)
    ensures Follows(Snap(a.chunks - {p}, a.wrote), d)
    ensures forall w {:trigger w in d.wrote} :: w in d.wrote && w !in a.wrote ==> SparesAt(a.chunks, w)
  {
    forall q, w | q in a.chunks - {p} && (a.chunks - {p})[q].inuse && w in d.wrote && w !in a.wrote ensures !Hits(a.chunks - {p}, q, w) {
      assert !Hits(a.chunks, q, w);
    }
  }

  lemma ShrunkFollows(a: Snap, d: Snap, p: Addr, nb: nat)
    requires Follows(Snap(a.chunks[p := Chunk(nb, true)], a.wrote), d)
    ensures Follows(Snap(a.chunks - {p}, a.wrote), d)
    ensures forall w {:trigger w in d.wrote} :: w in d.wrote && w !in a.wrote ==> SparesAt(a.chunks[p := Chunk(nb, true)], w)
  {
    hide Follows;
    FewerBlocks(Snap(a.chunks[p := Chunk(nb, true)], a.wrote), d, p);
    assert a.chunks[p := Chunk(nb, true)] - {p} == a.chunks - {p};
  }

  /** The bytes that realloc has to preserve. */
  function Smaller(a: int, b: int): int {
    if a < b then a else b
  }

  lemma LiveApart(t: Tags, c: Chunks, fences: set<Addr>, top: Addr, segs: seq<Seg>, live: set<Addr>, p: Addr)
    requires HeapOk(t, c, fences, top, segs) && LiveIn(c, fences, live) && p in c
    ensures forall q {:trigger q in live} :: q in live ==> q == p || !(p < q < p + c[p].size)
  {
    hide HeapOk;
    forall q | q in live && q != p ensures !(p < q < p + c[p].size) {
      ChunkFacts(t, c, fences, top, segs, q);
      HeapApart(t, c, fences, top, segs, p, q);
    }
  }

  lemma AllApart(t: Tags, c: Chunks, fences: set<Addr>, top: Addr, segs: seq<Seg>, q: Addr)
    requires HeapOk(t, c, fences, top, segs) && q in c
    ensures forall x {:trigger c[x]} :: x in c && x != q ==> x + c[x].size <= q || q + c[q].size <= x
  {
    hide HeapOk;
    forall x | x in c && x != q ensures x + c[x].size <= q || q + c[q].size <= x {
      HeapApart(t, c, fences, top, segs, x, q);
    }
  }

  lemma KeptWithout(c: Chunks, p: Addr, b0: Addr -> int, b1: Addr -> int)
    ensures BlocksKept(c, b0, b1) ==> BlocksKept(c - {p}, b0, b1)
  {
    forall q, x | BlocksKept(c, b0, b1) && InBlock(c - {p}, q, x) && (c - {p})[q].inuse ensures b1(x) == b0(x) {
      assert InBlock(c, q, x);
    }
  }

  /** What clients see of the allocator. */
  datatype Client = Client(chunks: Chunks, live: set<Addr>, asked: map<Addr, nat>, bytes: Addr -> int)

  /** Block p can become one of nb bytes where it is: it is large enough already, or the top t follows
      it and has room for the rest. */
  ghost predicate KeepsPlace(c: Chunks, t: Addr, p: Addr, nb: nat) {
    p in c && (nb <= c[p].size || (p + c[p].size == t && t in c && c[p].size + c[t].size > nb))
  }

  /** What lj_alloc_realloc promises when it returns the block r for the block at mem. */
  ghost predicate Resized(a: Client, b: Client, mem: Addr, nsize: nat, r: Addr) {
    var p := mem - 16;
    && p in a.chunks && r - 16 in b.chunks && r > 16 && r % 8 == 0
    && nsize + 8 <= b.chunks[r - 16].size < PadRequest(nsize) + MIN_CHUNK_SIZE
    && b.live == a.live - {p} + {r - 16} && b.asked == (a.asked - {p})[r - 16 := nsize]
    && (r != mem ==> r - 16 !in a.live)
    && CopyOf(b.bytes, r, a.bytes, mem, Smaller(a.chunks[p].size - 8, nsize))
    && BlocksKept(a.chunks - {p}, a.bytes, b.bytes)
  }

  /** mem is a new block of at least nsize bytes, aligned, in memory that was not in use. */
  ghost predicate NewBlock(a: Client, b: Client, mem: Addr, nsize: nat) {
    var p := mem - 16;
    && p in b.chunks && b.chunks[p].inuse && mem > 16 && mem % 8 == 0
    && nsize + 8 <= b.chunks[p].size < PadRequest(nsize) + MIN_CHUNK_SIZE
    && (p in a.chunks ==> !a.chunks[p].inuse)
    && p !in a.live && b.live == a.live + {p} && b.asked == a.asked[p := nsize]
  }

  lemma IsResized(a: Client, b: Client, mem: Addr, nsize: nat)
    requires mem - 16 in a.chunks && mem - 16 in a.live && mem - 16 in b.chunks && mem > 16 && mem % 8 == 0
    requires nsize + 8 <= b.chunks[mem - 16].size < PadRequest(nsize) + MIN_CHUNK_SIZE
    requires b.live == a.live && b.asked == (a.asked - {mem - 16})[mem - 16 := nsize]
    requires CopyOf(b.bytes, mem, a.bytes, mem, Smaller(a.chunks[mem - 16].size - 8, nsize))
    requires BlocksKept(a.chunks - {mem - 16}, a.bytes, b.bytes)
    ensures Resized(a, b, mem, nsize, mem)
  {
    hide CopyOf, BlocksKept;
    assert a.live - {mem - 16} + {mem - 16} == a.live;
  }

  lemma IsMoved(a: Client, b: Client, mem: Addr, nsize: nat, r: Addr, n: int)
    requires mem - 16 in a.chunks && mem - 16 in a.live && r - 16 in b.chunks && r > 16 && r % 8 == 0 && r - 16 !in a.live
    requires nsize + 8 <= b.chunks[r - 16].size < PadRequest(nsize) + MIN_CHUNK_SIZE
    requires b.live == a.live + {r - 16} - {mem - 16}
    requires b.asked == a.asked[r - 16 := nsize] - {mem - 16}
    requires n == Smaller(a.chunks[mem - 16].size - 8, nsize) && CopyOf(b.bytes, r, a.bytes, mem, n)
    requires BlocksKept(a.chunks - {mem - 16}, a.bytes, b.bytes)
    ensures Resized(a, b, mem, nsize, r)
  {
    hide CopyOf, BlocksKept;
    var p := mem - 16;
    assert a.asked[r - 16 := nsize] - {p} == (a.asked - {p})[r - 16 := nsize];
    assert a.live + {r - 16} - {p} == a.live - {p} + {r - 16};
  }
}
