/** The allocator (lj_alloc.c): lj_alloc_malloc, lj_alloc_free and lj_alloc_realloc over
    the bins, the designated victim, the top chunk and the segments. */
module Alloc {
  import opened AllocBits
  import opened AllocRings
  import opened AllocTrie
  import opened AllocBins
  import opened AllocFit
  import opened AllocFreeBins
  import opened AllocLayout
  import opened AllocSegs
  import opened AllocHeap
  import opened AllocGrow
  import opened AllocState

  class MState {
    const bins: FreeBins
    var tags: Tags
    var top: Addr
    var topsize: nat
    var dv: Addr
    var dvsize: nat
    var trimCheck: nat
    var segs: seq<Seg>
    /** The chunks the tags describe. */
    ghost var chunks: Chunks
    ghost var fences: set<Addr>
    /** The chunks handed out to clients. */
    ghost var live: set<Addr>
    /** The size each of them was asked for, by chunk. */
    ghost var asked: map<Addr, nat>
    /** The tag words stored to in the current call. */
    ghost var wrote: set<Addr>
    /** The contents of memory. */
    ghost var bytes: Addr -> int

    ghost predicate DvOk()
      reads this
    {
      && (dv == 0 <==> dvsize == 0)
      && (dv != 0 ==> dv in chunks && !chunks[dv].inuse && chunks[dv].size == dvsize && dv != top)
    }

    /** Every free chunk is exactly one of: the top, the designated victim, a chunk in
        the bin of its size, or one of the chunks h in transit. */
    ghost predicate Accounted(h: set<Addr>)
      reads this, bins
    {
      && Members(bins.size) == Binned(chunks, top, dv) - h
      && h <= Binned(chunks, top, dv).Keys
    }

    /** The invariant of the allocator, while the chunks h are in transit. */
    ghost predicate Core(h: set<Addr>)
      reads this, bins
    {
      && bins.Valid()
      && HeapOk(tags, chunks, fences, top, segs)
      && InAddressSpace(segs)
      && top in chunks && topsize == chunks[top].size
      && DvOk() && LiveIn(chunks, fences, live) && Accounted(h)
    }

    ghost predicate Valid()
      reads this, bins
    {
      Core({})
    }

    /** The invariant between calls: what clients hold is what they asked for. */
    ghost predicate Sound()
      reads this, bins
    {
      Valid() && asked.Keys == live && AskedOk(asked, chunks)
    }

    ghost function Now(): Snap
      reads this, bins
    {
      Snap(chunks, wrote + bins.wrote)
    }

    /** lj_alloc_create in the aligned area at tbase: the first chunk holds the
        allocator state itself, the rest is the top. */
    constructor (tbase: Addr)
      requires tbase > 0 && tbase % 8 == 0 && tbase + DEFAULT_GRANULARITY < WORD
      ensures Sound() && live == {} && fresh(bins)
      ensures segs == [Seg(tbase, DEFAULT_GRANULARITY, tbase + 16 + SEG_OFFSET)]
    {
      hide HeapOk, BinsOk, Members, Binned, FirstTags, FirstChunks;
      var mn := tbase + STATE_SIZE;
      var n := DEFAULT_GRANULARITY - STATE_SIZE - TOP_FOOT_SIZE;
      bins := new FreeBins();
      tags := FirstTags(tbase, mn, n);
      segs := [Seg(tbase, DEFAULT_GRANULARITY, tbase + 16 + SEG_OFFSET)];
      top, topsize := mn, n;
      dv, dvsize := 0, 0;
      trimCheck := DEFAULT_TRIM_THRESHOLD;
      chunks := FirstChunks(tbase, mn, n);
      fences := {};
      live := {};
      asked := map[];
      wrote := {};
      new;
      FirstHeap(tbase, mn, n);
      FirstSizes(tbase, mn, n);
    }

    /** unlink_chunk */
    method UnlinkChunk(p: Addr, s: nat, ghost h: set<Addr>)
      requires Core(h) && p !in h && p in chunks && !chunks[p].inuse && p != top && p != dv && s == chunks[p].size
      modifies bins
      ensures Core(h + {p}) && Follows(old(Now()), Now())
    {
      hide HeapOk, Members, Binned, BinsOk, LinkWord, SparesAt, InAddressSpace;
      BinnedSizes(chunks, top, dv, h, bins.size, p);
      DropBinned(chunks, top, dv, h, Members(bins.size), p);
      ChunkFacts(tags, chunks, fences, top, segs, p);
      BinnedKey(chunks, top, dv, p);
      AllLinkWordsSpare(tags, chunks, fences, top, segs, dv, h, bins.links, bins.tree, bins.smallmap, bins.size, bins.view, bins.tip);
      if IsSmall(s) {
        bins.UnlinkSmall(p, s);
      } else {
        bins.UnlinkLarge(p);
      }
    }

    /** insert_chunk */
    method InsertChunk(p: Addr, s: nat, ghost h: set<Addr>)
      requires Core(h) && p in h && p in chunks && s == chunks[p].size
      modifies bins
      ensures Core(h - {p}) && Follows(old(Now()), Now()) && p in bins.size && bins.size[p] == s
    {
      hide HeapOk, Members, Binned, BinsOk, LinkWord, SparesAt, InAddressSpace, HeadsAgree;
      BinnedSizes(chunks, top, dv, h, bins.size, p);
      BinnedKey(chunks, top, dv, p);
      AddBinned(chunks, top, dv, h, Members(bins.size), p);
      ChunkFacts(tags, chunks, fences, top, segs, p);
      SizesAreWords(tags, chunks, fences, top, segs, p);
      HeadsOfBinned(tags, chunks, fences, top, segs, dv, h, bins.size);
      if IsSmall(s) {
        bins.InsertSmall(p, s);
      } else {
        bins.InsertLarge(p, s, tags.head);
      }
      MemberAt(bins.size, Members(old(bins.size)), p, s);
      AllLinkWordsSpare(tags, chunks, fences, top, segs, dv, h - {p}, bins.links, bins.tree, bins.smallmap, bins.size, bins.view, bins.tip);
    }

    /** A used chunk that was free before, of at least n bytes, and not in front of a fencepost. */
    ghost predicate Taken(p: Addr, n: nat, before: Chunks)
      reads this
    {
      && p in chunks && chunks[p].inuse && n <= chunks[p].size < n + MIN_CHUNK_SIZE && (p in before ==> !before[p].inuse)
      && p + chunks[p].size !in fences && p > 0 && p % 8 == 0
    }

    /** set_inuse_and_pinuse for a chunk in transit */
    method UseChunk(p: Addr, s: nat, ghost h: set<Addr>)
      requires Core(h) && p in h && p in chunks && s == chunks[p].size
      modifies this`tags, this`chunks, this`wrote
      ensures Core(h - {p}) && Follows(old(Now()), Now()) && Taken(p, s, old(chunks)) && chunks[p].size == s
    {
      hide HeapOk, Members, Binned, BinsOk, SparesAt, UseTags, Follows;
      BinnedKey(chunks, top, dv, p);
      ChunkFacts(tags, chunks, fences, top, segs, p);
      HeapUse(tags, chunks, fences, top, segs, p);
      UseBinned(chunks, top, dv, h, Members(bins.size), p);
      FollowsUse(tags, chunks, fences, top, segs, p, wrote + bins.wrote);
      NoFence(tags, chunks, fences, top, segs, p + s);
      StillBinned(chunks, top, dv, h, p, chunks[p := chunks[p].(inuse := true)]);
      tags := UseTags(tags, p, s);
      wrote := wrote + {p + 8, p + s + 8};
      chunks := chunks[p := chunks[p].(inuse := true)];
      assert Now().wrote == old(Now()).wrote + {p + 8, p + s + 8};
    }

    /** The front nb bytes of a chunk in transit come into use; the rest is in transit now. */
    method SplitChunk(p: Addr, nb: nat, s: nat, ghost h: set<Addr>) returns (r: Addr)
      requires Core(h) && p in h && p in chunks && s == chunks[p].size && nb % 8 == 0 && 32 <= nb && nb + 32 <= s
      modifies this`tags, this`chunks, this`wrote
      ensures r == p + nb && r in chunks && chunks[r].size == s - nb
      ensures Core(h - {p} + {r}) && Follows(old(Now()), Now()) && Taken(p, nb, old(chunks)) && chunks[p].size == nb
    {
      hide HeapOk, Members, Binned, BinsOk, SparesAt, SplitTags, Follows;
      BinnedKey(chunks, top, dv, p);
      r := p + nb;
      ChunkFacts(tags, chunks, fences, top, segs, p);
      HeapSplitFree(tags, chunks, fences, top, segs, p, nb);
      SplitBinned(chunks, top, dv, h, Members(bins.size), p, nb, s - nb);
      FollowsSplit(tags, chunks, fences, top, segs, p, nb, wrote + bins.wrote);
      ghost var c' := chunks[p := Chunk(nb, true)][p + nb := Chunk(s - nb, false)];
      StillBinned(chunks, top, dv, h, p, c');
      BinnedKey(c', top, dv, r);
      tags := SplitTags(tags, p, s, nb);
      wrote := wrote + {p + 8, r + 8, p + s};
      NoFence(tags, c', fences, top, segs, r);
      chunks := c';
      assert Now().wrote == old(Now()).wrote + {p + 8, r + 8, p + s};
    }

    /** replace_dv: the remainder p becomes the designated victim, the old one is binned.
        Used only when the old victim is known to be small. */
    method ReplaceDv(p: Addr, s: nat, ghost h: set<Addr>)
      requires Core(h) && p in h && p in chunks && s == chunks[p].size && IsSmall(dvsize)
      modifies this`dv, this`dvsize, bins
      ensures Core(h - {p}) && Follows(old(Now()), Now())
      ensures dv == p && dvsize == s && (old(dv) != 0 ==> old(dv) in bins.size && bins.size[old(dv)] == old(dvsize))
    {
      hide HeapOk, Members, Binned, BinsOk, SparesAt, LinkWord, InAddressSpace, Follows;
      BinnedKey(chunks, top, dv, p);
      ChunkFacts(tags, chunks, fences, top, segs, p);
      ghost var m := Members(bins.size);
      ghost var w0 := bins.wrote;
      if dvsize != 0 {
        BinnedSizes(chunks, top, dv, h, bins.size, dv);
        ChunkFacts(tags, chunks, fences, top, segs, dv);
        BinnedKey(chunks, top, dv, dv);
        bins.InsertSmall(dv, dvsize);
        MemberAt(bins.size, m, dv, dvsize);
      }
      ZeroIsNoChunk(tags, chunks, fences, top, segs);
      NewVictim(chunks, top, dv, h, m, p);
      AllLinkWordsSpare(tags, chunks, fences, top, segs, p, h - {p}, bins.links, bins.tree, bins.smallmap, bins.size, bins.view, bins.tip);
      dvsize := s;
      dv := p;
      OnlySpared(Snap(chunks, wrote + w0), Snap(chunks, wrote + bins.wrote), bins.size, w0, bins.wrote);
    }

    /** unlink_first_small_chunk on the marked small bin i */
    method UnlinkFirst(i: nat, ghost h: set<Addr>) returns (p: Addr)
      requires Core(h) && i in bins.smallmap
      modifies bins
      ensures Core(h + {p}) && Follows(old(Now()), Now())
      ensures p in chunks && p !in h && Fitting(chunks, top, p, 8 * i) && chunks[p].size == 8 * i
      ensures p in old(bins.size) && old(bins.size)[p] == 8 * i
    {
      hide HeapOk, Members, Binned, BinsOk, LinkWord, SparesAt, InAddressSpace, Follows;
      SmallFirst(bins.links, bins.tree, bins.smallmap, bins.size, bins.view, bins.tip, i);
      var b := Bin(i);
      p := bins.links.fd[b];
      BinnedSizes(chunks, top, dv, h, bins.size, p);
      DropBinned(chunks, top, dv, h, Members(bins.size), p);
      BinnedKey(chunks, top, dv, p);
      AllLinkWordsSpare(tags, chunks, fences, top, segs, dv, h, bins.links, bins.tree, bins.smallmap, bins.size, bins.view, bins.tip);
      ghost var w0, size0 := bins.wrote, bins.size;
      bins.UnlinkFirstSmall(b, p, i);
      OnlySpared(Snap(chunks, wrote + w0), Snap(chunks, wrote + bins.wrote), size0, w0, bins.wrote);
    }

    /** unlink_large_chunk on a chunk found in a tree */
    method UnlinkTree(v: Addr, ghost h: set<Addr>)
      requires Core(h) && v > 0 && v in bins.size && !IsSmall(bins.size[v])
      modifies bins
      ensures v in chunks && v !in h && Fitting(chunks, top, v, chunks[v].size) && chunks[v].size == old(bins.size)[v] && Core(h + {v}) && Follows(old(Now()), Now())
    {
      hide HeapOk, Members, Binned, BinsOk, LinkWord, SparesAt, InAddressSpace, Follows;
      BinnedSizes(chunks, top, dv, h, bins.size, v);
      DropBinned(chunks, top, dv, h, Members(bins.size), v);
      BinnedKey(chunks, top, dv, v);
      AllLinkWordsSpare(tags, chunks, fences, top, segs, dv, h, bins.links, bins.tree, bins.smallmap, bins.size, bins.view, bins.tip);
      ghost var w0, size0 := bins.wrote, bins.size;
      bins.UnlinkLarge(v);
      OnlySpared(Snap(chunks, wrote + w0), Snap(chunks, wrote + bins.wrote), size0, w0, bins.wrote);
    }

    /** tmalloc_small: a small request is cut from the smallest large chunk. */
    method TmallocSmall(nb: nat) returns (p: Addr)
      requires Valid() && bins.tree.marks != {} && 32 <= nb <= 248 && nb % 8 == 0 && dvsize < nb
      modifies this`tags, this`chunks, this`wrote, this`dv, this`dvsize, bins
      ensures Valid() && Follows(old(Now()), Now()) && Taken(p, nb, old(chunks)) && Fitting(old(chunks), old(top), p, nb)
      ensures p in old(bins.size) && old(bins.size)[p] >= nb && chunks[p].size == if old(bins.size)[p] < nb + MIN_CHUNK_SIZE then old(bins.size)[p] else nb
      ensures if old(bins.size)[p] < nb + MIN_CHUNK_SIZE then dv == old(dv)
              else dv == p + nb && dvsize == old(bins.size)[p] - nb && (old(dv) != 0 ==> old(dv) in bins.size && bins.size[old(dv)] == old(dvsize))
      ensures InRange(old(bins.size)) ==>
                forall y :: y in old(bins.size) && !IsSmall(old(bins.size)[y]) ==> old(bins.size)[p] <= old(bins.size)[y]
    {
      hide HeapOk, Members, Binned, BinsOk, Follows, InRange, HeadsAgree;
      HeadsOfBinned(tags, chunks, fences, top, segs, dv, {}, bins.size);
      ghost var s0 := Now();
      var rsize: Word;
      p, rsize := bins.FindSmallest(nb, tags.head);
      LargeHere(bins.links, bins.tree, bins.smallmap, bins.size, bins.view, bins.tip, p);
      UnlinkTree(p, {});
      ChunkFacts(tags, chunks, fences, top, segs, p);
      ghost var s1 := Now();
      if rsize < MIN_CHUNK_SIZE {
        UseChunk(p, rsize + nb, {p});
        assert {p} - {p} == {};
      } else {
        var r := SplitChunk(p, nb, rsize + nb, {p});
        assert {p} - {p} + {r} == {r};
        ghost var s2 := Now();
        ReplaceDv(r, rsize, {r});
        assert {r} - {r} == {};
        FollowsTrans(s1, s2, Now());
      }
      FollowsTrans(s0, s1, Now());
    }

    /** tmalloc_large: a large request is cut from the best fitting large chunk, unless
        the designated victim fits at least as well. */
    method TmallocLarge(nb: nat) returns (p: Addr)
      requires Valid() && 256 <= nb < WORD && nb % 8 == 0
      modifies this`tags, this`chunks, this`wrote, bins
      ensures Valid() && Follows(old(Now()), Now())
      ensures p != 0 ==> Taken(p, nb, old(chunks)) && Fitting(old(chunks), old(top), p, nb) && p in old(bins.size) && !IsSmall(old(bins.size)[p])
      ensures InRange(old(bins.size)) ==>
                forall y :: y in old(bins.size) && !IsSmall(old(bins.size)[y]) && old(bins.size)[y] >= nb ==>
                  if p != 0 then old(bins.size)[p] <= old(bins.size)[y] else nb <= dvsize <= old(bins.size)[y]
      ensures p != 0 ==> TreeIndex(nb) <= TreeIndex(old(bins.size)[p]) && old(bins.size)[p] >= nb
      ensures p != 0 && nb <= dvsize ==> old(bins.size)[p] < dvsize
      ensures p == 0 ==> unchanged(this) && unchanged(bins)
    {
      hide HeapOk, Members, Binned, BinsOk, Follows, InRange, HeadsAgree, InAddressSpace, TreeIndex;
      HeadsOfBinned(tags, chunks, fences, top, segs, dv, {}, bins.size);
      VictimIsWord();
      ghost var s0 := Now();
      var v, rsize := bins.FindLarge(nb, tags.head);
      if v != 0 && rsize < Sub(dvsize, nb) {
        LargeHere(bins.links, bins.tree, bins.smallmap, bins.size, bins.view, bins.tip, v);
        UnlinkTree(v, {});
        ChunkFacts(tags, chunks, fences, top, segs, v);
        ghost var s1 := Now();
        if rsize < MIN_CHUNK_SIZE {
          UseChunk(v, rsize + nb, {v});
          assert {v} - {v} == {};
        } else {
          var r := SplitChunk(v, nb, rsize + nb, {v});
          assert {v} - {v} + {r} == {r};
          ghost var s2 := Now();
          InsertChunk(r, rsize, {r});
          assert {r} - {r} == {};
          FollowsTrans(s1, s2, Now());
        }
        FollowsTrans(s0, s1, Now());
        p := v;
      } else {
        FollowsSelf(Now());
        p := 0;
      }
    }

    lemma VictimIsWord()
      requires Valid()
      ensures dvsize < WORD - 1 && topsize < WORD - 1
    {
      hide HeapOk, Members, Binned, BinsOk;
      if dv != 0 {
        SizesAreWords(tags, chunks, fences, top, segs, dv);
        ChunkFacts(tags, chunks, fences, top, segs, dv);
      }
      SizesAreWords(tags, chunks, fences, top, segs, top);
      ChunkFacts(tags, chunks, fences, top, segs, top);
    }

    /** The designated victim serves the request, whole or in part. */
    method TakeDv(nb: nat) returns (p: Addr)
      requires Valid() && 32 <= nb <= dvsize && nb % 8 == 0
      modifies this`tags, this`chunks, this`wrote, this`dv, this`dvsize
      ensures Valid() && Follows(old(Now()), Now()) && Taken(p, nb, old(chunks)) && Fitting(old(chunks), old(top), p, nb) && p == old(dv)
    {
      hide HeapOk, Members, Binned, BinsOk, Follows, InAddressSpace, UseTags, SplitTags;
      var rsize := dvsize - nb;
      p := dv;
      ChunkFacts(tags, chunks, fences, top, segs, p);
      ZeroIsNoChunk(tags, chunks, fences, top, segs);
      if rsize >= MIN_CHUNK_SIZE {
        var r := p + nb;
        HeapSplitFree(tags, chunks, fences, top, segs, p, nb);
        FollowsSplit(tags, chunks, fences, top, segs, p, nb, wrote + bins.wrote);
        DvSplitBinned(chunks, top, dv, nb);
        tags := SplitTags(tags, p, dvsize, nb);
        dv := r;
        dvsize := rsize;
        chunks := chunks[p := Chunk(nb, true)][r := Chunk(rsize, false)];
        NoFence(tags, chunks, fences, top, segs, r);
        wrote := wrote + {p + 8, r + 8, p + nb + rsize};
        assert Now().wrote == old(Now()).wrote + {p + 8, r + 8, p + nb + rsize};
      } else {
        var dvs := dvsize;
        HeapUse(tags, chunks, fences, top, segs, p);
        FollowsUse(tags, chunks, fences, top, segs, p, wrote + bins.wrote);
        NoFence(tags, chunks, fences, top, segs, p + dvs);
        DvUseBinned(chunks, top, dv);
        dvsize := 0;
        dv := 0;
        tags := UseTags(tags, p, dvs);
        chunks := chunks[p := chunks[p].(inuse := true)];
        wrote := wrote + {p + 8, p + dvs + 8};
        assert Now().wrote == old(Now()).wrote + {p + 8, p + dvs + 8};
      }
    }

    /** The front of the top serves the request. */
    method TakeTop(nb: nat) returns (p: Addr)
      requires Valid() && 32 <= nb < topsize && nb % 8 == 0
      modifies this`tags, this`chunks, this`wrote, this`top, this`topsize
      ensures Valid() && Follows(old(Now()), Now()) && Taken(p, nb, old(chunks)) && Fitting(old(chunks), old(top), p, nb) && p == old(top)
    {
      hide HeapOk, Members, Binned, BinsOk, Follows, InAddressSpace, SplitTopTags;
      p := top;
      ChunkFacts(tags, chunks, fences, top, segs, p);
      TopIsFree(tags, chunks, fences, top, segs);
      HeapSplitTop(tags, chunks, fences, top, segs, nb);
      FollowsSplit(tags, chunks, fences, top, segs, p, nb, wrote + bins.wrote);
      TopSplitBinned(chunks, top, dv, nb);
      var r := p + nb;
      ghost var c', w := chunks[p := Chunk(nb, true)][r := Chunk(topsize - nb, false)], wrote + bins.wrote;
      FewerWords(Now(), c', w + {p + 8, r + 8, p + topsize}, w + {p + 8, r + 8});
      NoFence(SplitTopTags(tags, top, topsize, nb), c', fences, r, segs, r);
      tags := SplitTopTags(tags, top, topsize, nb);
      topsize := topsize - nb;
      top := r;
      chunks := c';
      wrote := wrote + {p + 8, r + 8};
      assert Now() == Snap(c', w + {p + 8, r + 8});
    }

    // ---- memory from the system ------------------------------------------------------

    /** What the system hands out: aligned memory that overlaps no segment. */
    ghost predicate FreshArea(b: Addr, n: nat)
      reads this`segs
    {
      b > 0 && b % 8 == 0 && n % 8 == 0 && b + n < WORD && Outside(segs, b, b + n)
    }

    /** The segment that holds the top. */
    method TopSegment() returns (i: nat)
      requires Valid()
      ensures TopSeg(segs, i, top, top + topsize) && chunks[top].size == topsize
    {
      hide Members, Binned, BinsOk, LayoutOk, Within, Disjoint, NothingBehind, Covers, Starts;
      i := 0;
      ghost var k: nat :| TopSeg(segs, k, top, top + chunks[top].size);
      while !(segs[i].base <= top < segs[i].base + segs[i].size)
        invariant i <= k
        decreases k - i
      {
        i := i + 1;
      }
      SameSegment(segs, i, k, top);
    }

    /** init_top after the segment of the top has changed its size: the top now has n bytes. */
    method ResizeTopTo(i: nat, n: nat)
      requires Valid() && TopSeg(segs, i, top, top + topsize) && n > 0 && n % 8 == 0
      requires n > topsize ==> Outside(segs, top + topsize + TOP_FOOT_SIZE, top + n + TOP_FOOT_SIZE)
      requires top + n + TOP_FOOT_SIZE < WORD
      modifies this`tags, this`chunks, this`wrote, this`topsize, this`segs, this`trimCheck
      ensures Valid() && topsize == n && |segs| == |old(segs)|
      ensures forall q :: q in old(chunks) && q != top ==> q in chunks && chunks[q] == old(chunks)[q]
      ensures Follows(old(Now()), Now()) && chunks.Keys == old(chunks.Keys)
      ensures Used(chunks) == Used(old(chunks))
    {
      hide HeapOk, Members, Binned, BinsOk, Follows, InitTopTags, Outside, SparesAt, LiveIn, Used;
      TopIsFree(tags, chunks, fences, top, segs);
      HeapResize(tags, chunks, fences, top, segs, i, n);
      ResizeBinned(chunks, top, dv, n);
      ResizeLive(chunks, fences, top, n, live);
      ResizeSpares(tags, chunks, fences, top, segs, n, wrote + bins.wrote);
      segs := segs[i := segs[i].(size := top + n + TOP_FOOT_SIZE - segs[i].base)];
      tags := InitTopTags(tags, top, n);
      topsize := n;
      SameUsed(chunks, chunks[top := Chunk(n, false)], top);
      chunks := chunks[top := Chunk(n, false)];
      wrote := wrote + {top + 8, top + n + 8};
      trimCheck := DEFAULT_TRIM_THRESHOLD;
      assert Now() == Snap(chunks, old(wrote + bins.wrote) + {top + 8, top + n + 8});
    }

    /** The area in front of segment i, which prepend_alloc takes over. */
    ghost predicate Front(i: nat, p: Addr, nb: nat)
      reads this`segs
    {
      && i < |segs| && p > 0 && p % 8 == 0 && nb % 8 == 0 && nb >= 32
      && p + nb + 32 <= segs[i].base && segs[i].base % 8 == 0 && Outside(segs, p, segs[i].base)
    }

    /** prepend_alloc: the new chunk p starts the segment; what is left is merged with
        the first chunk of the old segment. */
    method PrependAlloc(i: nat, newbase: Addr, nb: nat) returns (p: Addr)
      requires Valid() && Front(i, newbase, nb)
      modifies this`tags, this`chunks, this`wrote, this`top, this`topsize, this`dv, this`dvsize, this`segs, bins
      ensures old(segs)[i].base == old(top) ==> top == p + nb && topsize == old(topsize) + old(top) - p - nb
      ensures old(segs)[i].base == old(dv) != old(top) ==> dv == p + nb && dvsize == old(dvsize) + old(dv) - p - nb
      ensures old(segs)[i].base != old(top) && old(segs)[i].base != old(dv) ==> RestBinned(p + nb, old(segs)[i].base, old(chunks))
      ensures Valid() && Follows(old(Now()), Now()) && Taken(p, nb, old(chunks)) && p == newbase && |segs| == |old(segs)|
    {
      hide HeapOk, Members, Binned, BinsOk, Follows, Outside, SparesAt;
      p := newbase;
      ghost var s0 := Now();
      FrontIsEmpty(i, p, nb, {});
      var oldfirst := segs[i].base;
      HeadOutside(tags, chunks, fences, top, segs, p, Head(nb, true, true));
      FollowsMore(s0, {p + 8});
      tags := tags.(head := tags.head[p := Head(nb, true, true)]);
      wrote := wrote + {p + 8};
      assert Now() == Snap(chunks, s0.wrote + {p + 8});
      ghost var s1 := Now();
      if oldfirst == top {
        PrependToTop(i, p, nb);
      } else if oldfirst == dv {
        PrependToDv(i, p, nb);
      } else {
        PrependToFirst(i, p, nb);
      }
      FollowsTrans(s0, s1, Now());
    }

    /** Chunk q up to the segment's former base f, with the first chunk there if that was free, is in
        a bin. */
    ghost predicate RestBinned(q: Addr, f: Addr, before: Chunks)
      reads bins
    {
      f in before && q in bins.size && bins.size[q] == f - q + if before[f].inuse then 0 else before[f].size
    }

    method PrependToTop(i: nat, p: Addr, nb: nat)
      requires Valid() && Front(i, p, nb) && segs[i].base == top && p in tags.head && tags.head[p] == Head(nb, true, true)
      modifies this`tags, this`chunks, this`wrote, this`top, this`topsize, this`segs
      ensures Valid() && Follows(old(Now()), Now()) && Taken(p, nb, old(chunks)) && top == p + nb && topsize == old(topsize) + old(top) - p - nb
      ensures |segs| == |old(segs)|
    {
      hide HeapOk, Members, Binned, BinsOk, Follows, Outside, SparesAt, FrontTags;
      FrontIsEmpty(i, p, nb, {});
      var q, qsize := p + nb, top - p - nb;
      ghost var t1, c1 := FrontTags(tags, p, nb, top), FrontChunks(chunks, p, nb, top);
      var segs' := segs[i := segs[i].(base := p, size := segs[i].size + (top - p))];
      HeapFront(tags, chunks, fences, top, segs, i, p, nb, top);
      FrontRewrite(tags, p, nb, top, Head(qsize + topsize, true, false));
      TopIsFree(tags, chunks, fences, top, segs);
      FrontTop(t1, c1, fences, top, segs', q, qsize);
      HeapCoalesceTop(t1, c1, fences, top, segs', {q, top}, q);
      ghost var c2 := (c1 - {q, top})[q := Chunk(qsize + topsize, false)];
      FrontTopBinned(chunks, top, dv, p, nb, c2);
      FollowsMore(Now(), {q + 8});
      FollowsSame(Now(), chunks, c2, {q + 8});
      segs := segs';
      topsize := topsize + qsize;
      top := q;
      tags := tags.(head := tags.head[q := Head(topsize, true, false)]);
      chunks := c2;
      wrote := wrote + {q + 8};
      NoFence(tags, chunks, fences, top, segs, q);
      assert Now() == Snap(c2, old(Now()).wrote + {q + 8});
    }

    method PrependToDv(i: nat, p: Addr, nb: nat)
      requires Valid() && Front(i, p, nb) && segs[i].base == dv && p in tags.head && tags.head[p] == Head(nb, true, true)
      modifies this`tags, this`chunks, this`wrote, this`dv, this`dvsize, this`segs
      ensures Valid() && Follows(old(Now()), Now()) && Taken(p, nb, old(chunks)) && dv == p + nb && dvsize == old(dvsize) + old(dv) - p - nb
      ensures |segs| == |old(segs)|
    {
      hide HeapOk, Members, Binned, BinsOk, Follows, Outside, SparesAt, FrontChunks;
      DvMerge(i, p, nb);
      var q, dsize := p + nb, dvsize + dv - p - nb;
      ghost var c2 := (FrontChunks(chunks, p, nb, dv) - {q, dv})[q := Chunk(dsize, false)];
      FollowsMore(Now(), {q + 8, q + dsize});
      FollowsSame(Now(), chunks, c2, {q + 8, q + dsize});
      segs := segs[i := segs[i].(base := p, size := segs[i].size + (dv - p))];
      dvsize := dsize;
      dv := q;
      tags := Tags(tags.head[q := Head(dsize, true, false)], tags.foot[q + dsize := dsize]);
      chunks := c2;
      wrote := wrote + {q + 8, q + dsize};
      NoFence(tags, chunks, fences, top, segs, q);
      assert Now() == Snap(c2, old(Now()).wrote + {q + 8, q + dsize});
    }

    /** The prepended area has become chunk p of nb bytes, and the rest of it one chunk with the
        victim behind it. */
    ghost predicate DvMerged(i: nat, p: Addr, nb: nat)
      reads this, bins
    {
      && i < |segs| && p + nb <= dv && dv in chunks
      && var q, dsize := p + nb, dvsize + dv - p - nb;
         var c2 := (FrontChunks(chunks, p, nb, dv) - {q, dv})[q := Chunk(dsize, false)];
         && HeapOk(Tags(tags.head[q := Head(dsize, true, false)], tags.foot[q + dsize := dsize]), c2, fences, top,
                   segs[i := segs[i].(base := p, size := segs[i].size + (dv - p))])
         && Binned(c2, top, q) == Binned(chunks, top, dv) && q != 0 && q != top && dsize > 0
         && SparesAt(chunks, q + 8) && SparesAt(chunks, q + dsize)
         && (forall x {:trigger x in chunks} :: x in chunks && chunks[x].inuse ==> x in c2 && c2[x] == chunks[x])
         && p in c2 && c2[p] == Chunk(nb, true) && p !in chunks && p !in fences && top in c2 && c2[top] == chunks[top]
    }

    lemma DvMerge(i: nat, p: Addr, nb: nat)
      requires Valid() && Front(i, p, nb) && segs[i].base == dv && p in tags.head && tags.head[p] == Head(nb, true, true)
      ensures DvMerged(i, p, nb)
    {
      hide HeapOk, Members, Binned, BinsOk, Follows, Outside, SparesAt, FrontTags;
      FrontIsEmpty(i, p, nb, {});
      var q := p + nb;
      var t1, c1 := FrontTags(tags, p, nb, dv), FrontChunks(chunks, p, nb, dv);
      var segs' := segs[i := segs[i].(base := p, size := segs[i].size + (dv - p))];
      HeapFront(tags, chunks, fences, top, segs, i, p, nb, dv);
      ChunkFacts(tags, chunks, fences, top, segs, dv);
      var dsize := dvsize + dv - p - nb;
      var b := q + dsize;
      ZeroIsNoChunk(tags, chunks, fences, top, segs);
      VictimEnd(tags, chunks, fences, top, segs, dv);
      FrontRewrite(tags, p, nb, dv, Head(dsize, true, false));
      var c2 := (c1 - {q, dv})[q := Chunk(dsize, false)];
      assert Row(c1, {q, dv}, q, b);
      HeapCoalesce(t1, c1, fences, top, segs', {q, dv}, q, b);
      FrontFreeTags(tags, p, nb, dv, b);
      FrontDvBinned(chunks, top, dv, p, nb, c2);
      VictimEndSpares(tags, chunks, fences, top, segs, dv);
    }

    method PrependToFirst(i: nat, p: Addr, nb: nat)
      requires Valid() && Front(i, p, nb) && segs[i].base != top && segs[i].base != dv && p in tags.head && tags.head[p] == Head(nb, true, true)
      modifies this`tags, this`chunks, this`wrote, this`segs, bins
      ensures Valid() && Follows(old(Now()), Now()) && Taken(p, nb, old(chunks)) && RestBinned(p + nb, old(segs)[i].base, old(chunks))
      ensures |segs| == |old(segs)|
    {
      hide HeapOk, Members, Binned, BinsOk, Follows, Outside, SparesAt, FrontTags, FrontMerged, LiveIn;
      FrontIsEmpty(i, p, nb, {});
      var f := segs[i].base;
      var oldfirst := f;
      var q, qsize := p + nb, f - p - nb;
      ghost var s0 := Now();
      ghost var gone, h := {q}, {};
      ChunkFacts(tags, chunks, fences, top, segs, f);
      assert Members(bins.size) == Binned(chunks, top, dv) - {};
      if !tags.head[oldfirst].cinuse {
        var nsize := tags.head[oldfirst].size;
        UnlinkChunk(oldfirst, nsize, {});
        assert {} + {f} == {f};
        VictimEndSpares(tags, chunks, fences, top, segs, f);
        gone, h := {q, f}, {f};
        oldfirst := oldfirst + nsize;
        qsize := qsize + nsize;
      } else {
        FollowsSelf(s0);
      }
      ghost var s1 := Now();
      FrontMerge(i, p, nb, gone, oldfirst, h);
      FrontCommit(i, p, nb, qsize, oldfirst, gone, h);
      ghost var s2 := Now();
      InsertChunk(q, qsize, {q});
      assert {q} - {q} == {};
      FollowsTrans(s0, s1, s2);
      FollowsTrans(s0, s2, Now());
    }

    /** The prepended area has become chunk p of nb bytes, and behind it one free chunk up to b. */
    ghost predicate FrontMerged(i: nat, p: Addr, nb: nat, gone: set<Addr>, b: Addr)
      reads this, bins
    {
      && i < |segs| && p + nb <= segs[i].base && b >= p + nb && b in chunks && b in tags.head
      && var f, q := segs[i].base, p + nb;
         var c2 := (FrontChunks(chunks, p, nb, f) - gone)[q := Chunk(b - q, false)];
         && HeapOk(FreeTags(tags, q, b), c2, fences, top, segs[i := segs[i].(base := p, size := segs[i].size + (f - p))])
         && Members(bins.size) == Binned(c2, top, dv) - {q} && q in Binned(c2, top, dv)
         && SparesAt(chunks, b) && SparesAt(chunks, b + 8) && SparesAt(chunks, q + 8)
         && (forall x {:trigger x in chunks} :: x in chunks && chunks[x].inuse ==> x in c2 && c2[x] == chunks[x])
         && p in c2 && c2[p] == Chunk(nb, true) && p !in chunks && q in c2 && top in c2 && top in chunks && c2[top] == chunks[top]
         && (dv != 0 ==> dv in c2 && dv in chunks && c2[dv] == chunks[dv])
    }

    /** What becomes of the heap when the remainder q of a prepended area is merged with
        the first chunk f of the segment, if that is free. */
    lemma FrontMerge(i: nat, p: Addr, nb: nat, gone: set<Addr>, b: Addr, h: set<Addr>)
      requires Core(h) && Front(i, p, nb) && segs[i].base != top && p in tags.head && tags.head[p] == Head(nb, true, true)
      requires segs[i].base in chunks
      requires var f, q := segs[i].base, p + nb;
               if chunks[f].inuse then gone == {q} && b == f && h == {}
               else gone == {q, f} && b == f + chunks[f].size && h == {f} && f != dv
      ensures FrontMerged(i, p, nb, gone, b)
    {
      hide HeapOk, Members, Binned, BinsOk, Outside, SparesAt, FrontTags;
      var f, q := segs[i].base, p + nb;
      FrontIsEmpty(i, p, nb, h);
      ChunkFacts(tags, chunks, fences, top, segs, f);
      var t1, c1 := FrontTags(tags, p, nb, f), FrontChunks(chunks, p, nb, f);
      var segs' := segs[i := segs[i].(base := p, size := segs[i].size + (f - p))];
      HeapFront(tags, chunks, fences, top, segs, i, p, nb, f);
      FrontRewrite(tags, p, nb, f, Head(b - q, true, false));
      if !chunks[f].inuse {
        VictimEnd(tags, chunks, fences, top, segs, f);
        VictimEndSpares(tags, chunks, fences, top, segs, f);
      }
      assert Row(c1, gone, q, b);
      TopIsFree(tags, chunks, fences, top, segs);
      HeapCoalesce(t1, c1, fences, top, segs', gone, q, b);
      FrontFreeTagsPlain(tags, p, nb, f, b);
      FrontBinned(chunks, top, dv, p, nb, f, gone, b, h, Members(bins.size));
    }

    /** The remainder of the prepended area is written, and is in transit to its bin. */
    method FrontCommit(i: nat, p: Addr, nb: nat, qsize: nat, b: Addr, ghost gone: set<Addr>, ghost h: set<Addr>)
      requires Core(h) && FrontMerged(i, p, nb, gone, b) && Front(i, p, nb) && b == p + nb + qsize
      modifies this`tags, this`chunks, this`wrote, this`segs
      ensures Core({p + nb}) && Follows(old(Now()), Now()) && p + nb in chunks && chunks[p + nb].size == qsize
      ensures p in chunks && chunks[p] == Chunk(nb, true) && p !in old(chunks) && p + nb !in fences && |segs| == |old(segs)|
    {
      hide HeapOk, Members, Binned, BinsOk, Follows, Outside, SparesAt, FrontChunks, FreeTags;
      var q, f := p + nb, segs[i].base;
      ghost var c2 := (FrontChunks(chunks, p, nb, f) - gone)[q := Chunk(qsize, false)];
      FollowsMore(Now(), {q + 8, b + 8, b});
      FollowsSame(Now(), chunks, c2, {q + 8, b + 8, b});
      segs := segs[i := segs[i].(base := p, size := segs[i].size + (f - p))];
      tags := FreeTags(tags, q, b);
      chunks := c2;
      wrote := wrote + {q + 8, b + 8, b};
      NoFence(tags, chunks, fences, top, segs, q);
      assert Now() == Snap(c2, old(Now()).wrote + {q + 8, b + 8, b});
    }

    /** Nothing of the heap lies in the area in front of a segment. */
    lemma FrontIsEmpty(i: nat, p: Addr, nb: nat, h: set<Addr>)
      requires Core(h) && Front(i, p, nb)
      ensures p !in chunks && p !in fences && p + nb !in chunks && segs[i].base in chunks
      ensures SparesAt(chunks, p + 8) && SparesAt(chunks, p + nb + 8) && SparesAt(chunks, segs[i].base) && SparesAt(chunks, segs[i].base + 8)
    {
      hide HeapOk, Members, Binned, BinsOk, Follows, Outside;
      var f := segs[i].base;
      FrontApart(tags, chunks, fences, top, segs, p, f);
      FirstChunkOf(tags, chunks, fences, top, segs, i);
      HeaderSpares(tags, chunks, fences, top, segs, f);
      assert p in chunks ==> chunks[p].size >= 0;
      assert p + nb in chunks ==> chunks[p + nb].size >= 0;
      forall q | q in chunks && chunks[q].inuse
        ensures !Hits(chunks, q, p + 8) && !Hits(chunks, q, p + nb + 8) && !Hits(chunks, q, f)
      {
        assert chunks[q].size >= 0;
      }
    }

    /** The fenceposts of add_segment, from p up to the end of the old segment. */
    method Fenceposts(p: Addr, oldEnd: Addr) returns (ghost posts: set<Addr>)
      requires p + 16 <= oldEnd && (oldEnd - p) % 8 == 0
      modifies this`tags, this`wrote
      ensures tags.foot == old(tags.foot)
      ensures p in posts && forall f {:trigger f in posts} :: f in posts ==> p <= f && f + 16 <= oldEnd
      ensures forall f {:trigger f in posts} :: f in posts ==> f in tags.head && tags.head[f] == Head(8, true, true)
      ensures forall a {:trigger a in tags.head} :: a !in posts ==>
                (a in tags.head <==> a in old(tags.head)) && (a in tags.head ==> tags.head[a] == old(tags.head)[a])
      ensures forall w {:trigger w in wrote} :: w in wrote && w !in old(wrote) ==> p + 8 <= w < oldEnd
      ensures old(wrote) <= wrote
    {
      var at := p;
      tags := tags.(head := tags.head[at := Head(8, true, true)]);
      wrote := wrote + {at + 8};
      posts := {at};
      while at + 16 < oldEnd
        invariant p <= at && at + 16 <= oldEnd && (oldEnd - at) % 8 == 0 && p in posts
        invariant forall f {:trigger f in posts} :: f in posts ==> p <= f <= at
        invariant tags.foot == old(tags.foot)
        invariant forall f {:trigger f in posts} :: f in posts ==> f in tags.head && tags.head[f] == Head(8, true, true)
        invariant forall a {:trigger a in tags.head} :: a !in posts ==>
                    (a in tags.head <==> a in old(tags.head)) && (a in tags.head ==> tags.head[a] == old(tags.head)[a])
        invariant forall w {:trigger w in wrote} :: w in wrote && w !in old(wrote) ==> p + 8 <= w < oldEnd
        invariant old(wrote) <= wrote
        decreases oldEnd - at
      {
        at := at + 8;
        tags := tags.(head := tags.head[at := Head(8, true, true)]);
        wrote := wrote + {at + 8};
        posts := posts + {at};
      }
    }

    /** add_segment: the new area becomes the top. The end of the old top holds the
        record of the old segment list head, behind it come fenceposts, and what is
        left of it is binned. */
    method AddSegment(tbase: Addr, tsize: nat) returns (ghost csp: Addr)
      requires Valid() && FreshArea(tbase, tsize) && tsize > TOP_FOOT_SIZE
      modifies this`tags, this`chunks, this`fences, this`wrote, this`top, this`topsize, this`segs, this`trimCheck, bins
      ensures Valid() && Follows(old(Now()), Now())
      ensures csp == RecordAt(old(top), old(top + topsize) + TOP_FOOT_SIZE) && csp >= old(top)
      ensures |old(segs)| > 0 && segs == PushSeg(old(segs), tbase, tsize, csp + 16)
      ensures chunks == AddChunks(old(chunks), old(top), csp, 32, tbase, tsize - TOP_FOOT_SIZE) && csp + 32 in fences && old(fences) <= fences
      ensures csp != old(top) ==> old(top) in bins.size && bins.size[old(top)] == csp - old(top)
      ensures top == tbase && topsize == tsize - TOP_FOOT_SIZE
    {
      hide HeapOk, Members, Binned, BinsOk, Follows, InAddressSpace, Outside, PushSeg, AddChunks, RecordAt;
      var oldTop := top;
      ghost var s0 := Now();
      var place := LeaveOldTop(tbase, tsize);
      csp := place;
      ghost var s1 := Now();
      if place != oldTop {
        InsertChunk(oldTop, place - oldTop, {oldTop});
        assert {oldTop} - {oldTop} == {};
      } else {
        FollowsSelf(s1);
      }
      FollowsTrans(s0, s1, Now());
    }

    /** Everything but the last step: what is left of the old top is in transit. */
    method LeaveOldTop(tbase: Addr, tsize: nat) returns (csp: Addr)
      requires Valid() && FreshArea(tbase, tsize) && tsize > TOP_FOOT_SIZE
      modifies this`tags, this`chunks, this`fences, this`wrote, this`top, this`topsize, this`segs, this`trimCheck
      ensures Follows(old(Now()), Now()) && top == tbase && topsize == tsize - TOP_FOOT_SIZE
      ensures csp == RecordAt(old(top), old(top + topsize) + TOP_FOOT_SIZE) && csp >= old(top)
      ensures |old(segs)| > 0 && segs == PushSeg(old(segs), tbase, tsize, csp + 16)
      ensures chunks == AddChunks(old(chunks), old(top), csp, 32, tbase, tsize - TOP_FOOT_SIZE) && csp + 32 in fences && old(fences) <= fences
      ensures csp != old(top) ==> Core({old(top)}) && old(top) in chunks && chunks[old(top)].size == csp - old(top)
      ensures csp == old(top) ==> Core({})
    {
      hide HeapOk, Members, Binned, BinsOk, Follows, Outside, SparesAt, AddFits, AddChunks, InAddressSpace, PushSeg, RecordAt;
      var i := TopSegment();
      TopIsFree(tags, chunks, fences, top, segs);
      ChunkFacts(tags, chunks, fences, top, segs, top);
      ghost var s0, t0, segs0, c0, f0, oldTop, oldEnd := Now(), tags, segs, chunks, fences, top, segs[i].base + segs[i].size;
      var n := tsize - TOP_FOOT_SIZE;
      ghost var posts;
      csp, posts := RecordOldTop(i, tbase, tsize);
      chunks := AddChunks(chunks, oldTop, csp, 32, tbase, n);
      fences := fences + posts;
      AddSegmentClient(t0, c0, f0, oldTop, segs0, i, csp, tbase, n, posts, oldEnd, dv, Members(bins.size), live);
      AddSegmentSpares(t0, c0, f0, oldTop, segs0, i, csp, tbase, n, posts, oldEnd, s0, Now());
    }

    method RecordOldTop(i: nat, tbase: Addr, tsize: nat) returns (csp: Addr, ghost posts: set<Addr>)
      requires HeapOk(tags, chunks, fences, top, segs) && TopSeg(segs, i, top, top + topsize) && top in chunks && topsize == chunks[top].size
      requires FreshArea(tbase, tsize) && tsize > TOP_FOOT_SIZE && InAddressSpace(segs) && top % 8 == 0 && topsize % 8 == 0
      modifies this`tags, this`wrote, this`top, this`topsize, this`segs, this`trimCheck
      ensures top == tbase && topsize == tsize - TOP_FOOT_SIZE && csp >= old(top)
      ensures AddFits(chunks, fences, old(top), csp, 32, top, topsize, posts, old(top + topsize) + TOP_FOOT_SIZE)
      ensures HeapOk(tags, AddChunks(chunks, old(top), csp, 32, top, topsize), fences + posts, top, segs)
      ensures csp == RecordAt(old(top), old(top + topsize) + TOP_FOOT_SIZE) && csp + 32 in posts
      ensures |old(segs)| > 0 && segs == PushSeg(old(segs), tbase, tsize, csp + 16)
      ensures InAddressSpace(segs) && old(wrote) <= wrote
      ensures forall w {:trigger w in wrote} :: w in wrote && w !in old(wrote) ==>
                old(top) + 8 <= w <= old(top + topsize) + TOP_FOOT_SIZE || top <= w <= top + topsize + 8
    {
      hide HeapOk, InitTopTags, Outside, FreeTags, AddFits, AddedTags, Disjoint, PushSeg, Fenced, AddChunks, InAddressSpace;
      var oldTop, oldEnd := top, segs[i].base + segs[i].size;
      ghost var t0, segs0 := tags, segs;
      csp := RecordAt(oldTop, oldEnd);
      posts := MoveTop(csp, oldEnd, tbase, tsize);
      segs := PushSeg(segs, tbase, tsize, csp + 16);
      AddSegmentHeap(t0, chunks, fences, oldTop, segs0, i, csp, tbase, tsize - TOP_FOOT_SIZE, posts, oldEnd, tags);
      PushedInSpace(segs0, tbase, tsize, csp + 16);
      if csp != oldTop {
        tags := FreeTags(tags, oldTop, csp);
        wrote := wrote + {oldTop + 8, csp};
      }
    }

    /** init_top on the new area, then the segment record with its head, and the fenceposts. */
    method MoveTop(csp: Addr, oldEnd: Addr, tbase: Addr, tsize: nat) returns (ghost posts: set<Addr>)
      requires top <= csp && csp + 48 <= oldEnd && (oldEnd - csp) % 8 == 0 && tsize > TOP_FOOT_SIZE
      modifies this`tags, this`wrote, this`top, this`topsize, this`trimCheck
      ensures Fenced(old(tags), tbase, tsize - TOP_FOOT_SIZE, csp, posts, tags) && old(wrote) <= wrote
      ensures csp + 32 in posts && forall f {:trigger f in posts} :: f in posts ==> csp + 32 <= f && f + 16 <= oldEnd
      ensures forall w {:trigger w in wrote} :: w in wrote && w !in old(wrote) ==>
                old(top) + 8 <= w <= oldEnd || tbase <= w <= tbase + (tsize - TOP_FOOT_SIZE) + 8
      ensures top == tbase && topsize == tsize - TOP_FOOT_SIZE
    {
      hide InitTopTags;
      var n := tsize - TOP_FOOT_SIZE;
      top, topsize := tbase, n;
      tags := InitTopTags(tags, tbase, n);
      trimCheck := DEFAULT_TRIM_THRESHOLD;
      tags := tags.(head := tags.head[csp := Head(32, true, true)]);
      wrote := wrote + {tbase + 8, tbase + n + 8, csp + 8, csp + 16, csp + 24, csp + 32};
      posts := Fenceposts(csp + 32, oldEnd);
    }

    /** The segment that ends at a, if there is one. */
    method SegmentEndingAt(a: Addr) returns (i: nat)
      ensures i <= |segs| && (i < |segs| ==> segs[i].base + segs[i].size == a)
      ensures i == |segs| ==> forall j :: 0 <= j < |segs| ==> segs[j].base + segs[j].size != a
    {
      i := 0;
      while i < |segs| && a != segs[i].base + segs[i].size
        invariant i <= |segs| && forall j :: 0 <= j < i ==> segs[j].base + segs[j].size != a
      {
        i := i + 1;
      }
    }

    /** The segment that starts at a, if there is one. */
    method SegmentStartingAt(a: Addr) returns (i: nat)
      ensures i <= |segs| && (i < |segs| ==> segs[i].base == a)
      ensures i == |segs| ==> forall j :: 0 <= j < |segs| ==> segs[j].base != a
    {
      i := 0;
      while i < |segs| && segs[i].base != a
        invariant i <= |segs| && forall j :: 0 <= j < i ==> segs[j].base != a
      {
        i := i + 1;
      }
    }

    /** alloc_sys, where the system answers a request for memory with mapped (0 if it has
        none). Chunks mapped one by one are not part of the model. */
    method AllocSys(nb: nat, mapped: Addr) returns (p: Addr)
      requires Valid() && 32 <= nb < WORD && (nb % 8 == 0 || nb == WORD - 1)
      requires mapped != 0 ==> FreshArea(mapped, MapSize(nb))
      modifies this`tags, this`chunks, this`fences, this`wrote, this`top, this`topsize, this`dv, this`dvsize, this`segs, this`trimCheck, bins
      ensures Valid() && Follows(old(Now()), Now())
      ensures p == 0 <==> mapped == 0 || MapSize(nb) <= nb
      ensures p == 0 ==> unchanged(this) && unchanged(bins)
      ensures p != 0 ==> Taken(p, nb, old(chunks))
      ensures p != 0 ==> p == if mapped == old(top + topsize) + TOP_FOOT_SIZE then old(top) else mapped
      ensures p != 0 && (mapped == old(top + topsize) + TOP_FOOT_SIZE || StartsAt(old(segs), mapped + MapSize(nb))) ==> |segs| == |old(segs)|
      ensures p != 0 && !(mapped == old(top + topsize) + TOP_FOOT_SIZE || StartsAt(old(segs), mapped + MapSize(nb))) ==> |segs| == |old(segs)| + 1
    {
      hide HeapOk, Members, Binned, BinsOk, Follows, Outside, SparesAt, InAddressSpace, Disjoint, MapSize;
      ghost var s0 := Now();
      MapSizeFits(nb);
      var rsize := MapSize(nb);
      if rsize <= nb || mapped == 0 {
        FollowsSelf(s0);
        return 0;
      }
      var i := SegmentEndingAt(mapped);
      TopEnds(i, mapped);
      if i < |segs| && segs[i].base <= top < segs[i].base + segs[i].size {
        OnlyTopSegment(i);
        ResizeTopTo(i, topsize + rsize);
      } else {
        i := SegmentStartingAt(mapped + rsize);
        if i < |segs| {
          FrontHolds(i, mapped, nb, rsize);
          p := PrependAlloc(i, mapped, nb);
          return;
        }
        ghost var csp := AddSegment(mapped, rsize);
      }
      ghost var s1 := Now();
      p := TakeTop(nb);
      StillTaken(p, nb, s0, s1);
      FollowsTrans(s0, s1, Now());
    }

    lemma StillTaken(p: Addr, n: nat, s0: Snap, s1: Snap)
      requires Taken(p, n, s1.chunks) && Follows(s0, s1)
      ensures Taken(p, n, s0.chunks)
    {
    }

    /** Segment i, the first that ends at a, holds the top if and only if the spare room behind the top
        ends there. */
    lemma TopEnds(i: nat, a: Addr)
      requires Valid() && i <= |segs| && (i < |segs| ==> segs[i].base + segs[i].size == a)
      requires i == |segs| ==> forall j :: 0 <= j < |segs| ==> segs[j].base + segs[j].size != a
      ensures i < |segs| && segs[i].base <= top < segs[i].base + segs[i].size <==> a == top + topsize + TOP_FOOT_SIZE
    {
      hide Members, Binned, BinsOk, LayoutOk, Within, Covers, NothingBehind;
      var k: nat :| TopSeg(segs, k, top, top + chunks[top].size);
      if i < |segs| {
        assert segs[i].size > 0 && segs[k].size > 0;
      }
    }

    lemma OnlyTopSegment(i: nat)
      requires Valid() && i < |segs| && segs[i].base <= top < segs[i].base + segs[i].size
      ensures TopSeg(segs, i, top, top + topsize) && topsize % 8 == 0 && topsize == chunks[top].size
    {
      hide Members, Binned, BinsOk, LayoutOk, Within, Covers, Starts, NothingBehind, Disjoint;
      ChunkFacts(tags, chunks, fences, top, segs, top);
      var k: nat :| TopSeg(segs, k, top, top + chunks[top].size);
      SameSegment(segs, i, k, top);
    }

    lemma FrontHolds(i: nat, b: Addr, nb: nat, n: nat)
      requires Valid() && FreshArea(b, n) && i < |segs| && segs[i].base == b + n && nb % 8 == 0 && nb + 64 <= n && nb >= 32
      ensures Front(i, b, nb)
    {
    }

    // ---- malloc ----------------------------------------------------------------------

    /** The exact small bin, or the one after it, serves the request without remainder. */
    method MallocExact(idx: nat) returns (p: Addr)
      requires Valid() && idx in bins.smallmap
      modifies this`tags, this`chunks, this`wrote, bins
      ensures Valid() && Follows(old(Now()), Now()) && Taken(p, 8 * idx, old(chunks)) && Fitting(old(chunks), old(top), p, 8 * idx)
      ensures chunks[p].size == 8 * idx && p in old(bins.size) && old(bins.size)[p] == 8 * idx
    {
      hide HeapOk, Members, Binned, BinsOk, Follows, SparesAt, InAddressSpace, Fitting;
      ghost var s0 := Now();
      p := UnlinkFirst(idx, {});
      assert {} + {p} == {p};
      ghost var s1 := Now();
      UseChunk(p, 8 * idx, {p});
      assert {p} - {p} == {};
      FollowsTrans(s0, s1, Now());
    }

    /** A chunk of the larger small bin i serves the request; a remainder of at least the
        minimum size becomes the designated victim. */
    method MallocNextBin(nb: nat, i: nat) returns (p: Addr)
      requires Valid() && i in bins.smallmap && 32 <= nb <= 8 * i && nb % 8 == 0 && IsSmall(dvsize)
      modifies this`tags, this`chunks, this`wrote, this`dv, this`dvsize, bins
      ensures Valid() && Follows(old(Now()), Now()) && Taken(p, nb, old(chunks)) && Fitting(old(chunks), old(top), p, nb)
      ensures chunks[p].size == if 8 * i - nb < MIN_CHUNK_SIZE then 8 * i else nb
      ensures p in old(bins.size) && old(bins.size)[p] == 8 * i
    {
      hide HeapOk, Members, Binned, BinsOk, Follows, SparesAt, InAddressSpace;
      ghost var s0 := Now();
      p := UnlinkFirst(i, {});
      assert {} + {p} == {p};
      ghost var s1 := Now();
      var rsize := 8 * i - nb;
      if rsize < MIN_CHUNK_SIZE {
        UseChunk(p, 8 * i, {p});
        assert {p} - {p} == {};
      } else {
        var r := SplitChunk(p, nb, 8 * i, {p});
        assert {p} - {p} + {r} == {r};
        ghost var s2 := Now();
        ReplaceDv(r, rsize, {r});
        assert {r} - {r} == {};
        FollowsTrans(s1, s2, Now());
      }
      FollowsTrans(s0, s1, Now());
    }

    /** The search of lj_alloc_malloc in the bins. */
    method MallocBinned(nsize: nat, nb: nat) returns (p: Addr)
      requires Valid() && nsize < MAX_REQUEST && nb == PadRequest(nsize)
      modifies this`tags, this`chunks, this`wrote, this`dv, this`dvsize, bins
      ensures Valid() && Follows(old(Now()), Now())
      ensures p != 0 ==> Taken(p, nb, old(chunks)) && Fitting(old(chunks), old(top), p, nb)
      ensures p != 0 && InRange(old(bins.size)) ==> Chosen(old(bins.size), old(dv), old(dvsize), top, topsize, nb, p)
      ensures p == 0 ==> unchanged(this) && unchanged(bins) && (InRange(bins.size) ==> Passed(bins.size, dvsize, nb))
    {
      hide HeapOk, Members, Binned, BinsOk, Follows, SparesAt, InAddressSpace, InRange, NearlyExact, FitsFrom;
      PadBounds(nsize);
      ghost var size0 := bins.size;
      if nsize <= MAX_SMALL_REQUEST {
        var idx := nb / 8;
        if idx in bins.smallmap || idx + 1 in bins.smallmap {
          var i := if idx in bins.smallmap then idx else idx + 1;
          SmallBest(bins.links, bins.tree, bins.smallmap, bins.size, bins.view, bins.tip, nb, i);
          SmallBelow32();
          p := MallocExact(i);
          IsBest(size0, nb, p);
          return;
        }
        p := MallocSmall(nb);
      } else {
        p := MallocLarge(nb);
      }
    }

    /** A small request, when neither its own bin nor the next has a chunk. */
    method MallocSmall(nb: nat) returns (p: Addr)
      requires Valid() && 32 <= nb <= 248 && nb % 8 == 0 && nb / 8 !in bins.smallmap && nb / 8 + 1 !in bins.smallmap
      modifies this`tags, this`chunks, this`wrote, this`dv, this`dvsize, bins
      ensures Valid() && Follows(old(Now()), Now())
      ensures p != 0 ==> Taken(p, nb, old(chunks)) && Fitting(old(chunks), old(top), p, nb)
      ensures p != 0 && InRange(old(bins.size)) ==> Chosen(old(bins.size), old(dv), old(dvsize), top, topsize, nb, p)
      ensures p == 0 ==> unchanged(this) && unchanged(bins) && (InRange(bins.size) ==> Passed(bins.size, dvsize, nb))
    {
      hide HeapOk, Members, Binned, BinsOk, Follows, SparesAt, InAddressSpace, InRange, NearlyExact, FitsFrom, Fitting;
      p := 0;
      ghost var size0 := bins.size;
      SmallPassed(bins.links, bins.tree, bins.smallmap, bins.size, bins.view, bins.tip, nb);
      if nb > dvsize {
        var later := set i | i in bins.smallmap && i > nb / 8;
        if later != {} {
          SmallBelow32();
          var i := bins.LowestBit(later);
          assert forall j {:trigger j in bins.smallmap} :: j in bins.smallmap && nb / 8 <= j ==> j in later;
          SmallBest(bins.links, bins.tree, bins.smallmap, bins.size, bins.view, bins.tip, nb, i);
          p := MallocNextBin(nb, i);
          IsBest(size0, nb, p);
          return;
        }
        assert forall j {:trigger j in bins.smallmap} :: j in bins.smallmap && j > nb / 8 ==> j in later;
        if bins.tree.marks != {} {
          p := TmallocSmall(nb);
          if InRange(size0) {
            LargeBest(size0, nb, p);
            IsBest(size0, nb, p);
          }
          return;
        }
        NoneFits(bins.links, bins.tree, bins.smallmap, bins.size, bins.view, bins.tip, nb);
      }
      FollowsSelf(Now());
    }

    method MallocLarge(nb: nat) returns (p: Addr)
      requires Valid() && 256 <= nb < WORD && nb % 8 == 0
      modifies this`tags, this`chunks, this`wrote, this`dv, this`dvsize, bins
      ensures Valid() && Follows(old(Now()), Now())
      ensures p != 0 ==> Taken(p, nb, old(chunks)) && Fitting(old(chunks), old(top), p, nb)
      ensures p != 0 && InRange(old(bins.size)) ==> Chosen(old(bins.size), old(dv), old(dvsize), top, topsize, nb, p)
      ensures p == 0 ==> unchanged(this) && unchanged(bins) && (InRange(bins.size) ==> Passed(bins.size, dvsize, nb))
    {
      hide HeapOk, Members, Binned, BinsOk, Follows, SparesAt, InAddressSpace, InRange, Fitting, Taken, TreeIndex;
      p := 0;
      if bins.tree.marks != {} {
        p := TmallocLarge(nb);
      } else {
        FollowsSelf(Now());
        NoneLarge(bins.links, bins.tree, bins.smallmap, bins.size, bins.view, bins.tip);
      }
    }

    lemma SmallBelow32()
      requires bins.Valid()
      ensures forall i :: i in bins.smallmap ==> i < 32
    {
    }

    /** The part of lj_alloc_malloc behind the bins. */
    method MallocRest(nb: nat, mapped: Addr) returns (p: Addr)
      requires Valid() && 32 <= nb < WORD && (nb % 8 == 0 || nb == WORD - 1)
      requires mapped != 0 ==> FreshArea(mapped, MapSize(nb))
      modifies this`tags, this`chunks, this`fences, this`wrote, this`top, this`topsize, this`dv, this`dvsize, this`segs, this`trimCheck, bins
      ensures Valid() && Follows(old(Now()), Now())
      ensures p != 0 ==> Taken(p, nb, old(chunks)) && (mapped == 0 ==> Fitting(old(chunks), old(top), p, nb))
      ensures p != 0 ==> (nb <= old(dvsize) ==> p == old(dv)) && (old(dvsize) < nb < old(topsize) ==> p == old(top))
      ensures p == 0 ==> unchanged(this) && unchanged(bins) && nb > dvsize && nb >= topsize && (mapped == 0 || MapSize(nb) <= nb)
      ensures nb == WORD - 1 ==> p == 0
    {
      hide HeapOk, Members, Binned, BinsOk, Follows, SparesAt, InAddressSpace, MapSize, Outside, Fitting;
      VictimIsWord();
      MapSizeFits(nb);
      if nb <= dvsize {
        p := TakeDv(nb);
      } else if nb < topsize {
        p := TakeTop(nb);
      } else {
        p := AllocSys(nb, mapped);
      }
    }

    ghost function View(): Client
      reads this
    {
      Client(chunks, live, asked, bytes)
    }

    /** A call begins: no word has been stored to. */
    ghost method Begin()
      requires Valid()
      modifies this`wrote, bins`wrote
      ensures Valid() && Now() == Snap(chunks, {})
    {
      hide HeapOk, Members, Binned, BinsOk;
      wrote := {};
      bins.wrote := {};
    }

    /** Memory changes its contents. */
    ghost method SetBytes(b: Addr -> int)
      requires Valid()
      modifies this`bytes
      ensures Valid() && bytes == b
    {
      hide HeapOk, Members, Binned, BinsOk, InAddressSpace;
      bytes := b;
    }

    /** A call ends: the words stored to have lost their former contents. */
    ghost method End()
      requires Valid()
      modifies this`bytes
      ensures Valid() && Now() == old(Now())
      ensures SameElsewhere(Now().wrote, old(bytes), bytes)
    {
      hide HeapOk, Members, Binned, BinsOk, InAddressSpace, Stored;
      assert SameElsewhere(Now().wrote, bytes, bytes);
      var b: Addr -> int :| SameElsewhere(Now().wrote, bytes, b);
      SetBytes(b);
    }

    /** Block p is handed to a client. */
    ghost method Grant(p: Addr, n: nat)
      requires Valid() && p in chunks && chunks[p].inuse && p + chunks[p].size !in fences
      modifies this`live, this`asked
      ensures Valid() && live == old(live) + {p} && asked == old(asked)[p := n]
    {
      hide HeapOk, Members, Binned, BinsOk, InAddressSpace;
      live := live + {p};
      asked := asked[p := n];
    }

    /** Block p is no longer its client's. */
    ghost method Revoke(p: Addr)
      requires Valid()
      modifies this`live, this`asked
      ensures Valid() && live == old(live) - {p} && asked == old(asked) - {p}
    {
      hide HeapOk, Members, Binned, BinsOk, InAddressSpace;
      live := live - {p};
      asked := asked - {p};
    }

    /** Why a request may fail: it is too large, or the system has given no memory for it; and then
        no free chunk fits, as far as bin indices mean what they should. */
    ghost predicate Refused(c: Chunks, t: Addr, sizes: map<Addr, int>, nsize: nat, mapped: Addr) {
      && (nsize < MAX_REQUEST ==> mapped == 0 || MapSize(RequestSize(nsize)) <= RequestSize(nsize))
      && (nsize < MAX_REQUEST && InRange(sizes) ==> forall q :: !Fitting(c, t, q, RequestSize(nsize)))
    }

    /** lj_alloc_malloc: the address of a new block, or 0 when no free chunk can hold it
        and the system gives no memory. */
    method Malloc(nsize: nat, mapped: Addr) returns (mem: Addr)
      requires Sound() && nsize < WORD
      requires mapped != 0 ==> FreshArea(mapped, MapSize(RequestSize(nsize)))
      modifies this, bins
      ensures Sound() && Follows(Snap(old(chunks), {}), Now()) && BlocksKept(old(chunks), old(bytes), bytes)
      ensures mem != 0 ==> NewBlock(old(View()), View(), mem, nsize)
      ensures mem != 0 && mapped == 0 ==> Fitting(old(chunks), old(top), mem - 16, RequestSize(nsize))
      ensures mem != 0 && InRange(old(bins.size)) ==>
                Chosen(old(bins.size), old(dv), old(dvsize), old(top), old(topsize), RequestSize(nsize), mem - 16)
      ensures mem == 0 ==> tags == old(tags) && chunks == old(chunks) && segs == old(segs) && live == old(live) && asked == old(asked)
      ensures mem == 0 ==> mapped == 0 || MapSize(RequestSize(nsize)) <= RequestSize(nsize)
      ensures mem == 0 && InRange(old(bins.size)) ==> forall q :: !Fitting(old(chunks), old(top), q, RequestSize(nsize))
    {
      hide HeapOk, Members, Binned, BinsOk, Follows, InAddressSpace, MapSize, Outside, InRange, PadRequest, BlocksKept, SameElsewhere, AskedOk, Fitting, LiveIn, Chosen;
      LiveUsed();
      Begin();
      mem := MallocChunk(nsize, mapped);
      AskedStays(asked, Snap(old(chunks), {}), Now());
      End();
      SparedBytes(Snap(old(chunks), {}), Now(), old(bytes), bytes);
      if mem != 0 {
        PadBounds(nsize);
        AskedMore(asked, chunks, mem - 16, nsize);
        Grant(mem - 16, nsize);
      }
    }

    lemma LiveUsed()
      requires Sound()
      ensures forall p {:trigger p in live} {:trigger p in asked} :: p in live ==>
                p in asked && p in chunks && chunks[p].inuse && p + chunks[p].size !in fences && asked[p] + 8 <= chunks[p].size
    {
      hide HeapOk, Members, Binned, BinsOk, InAddressSpace;
    }

    method MallocChunk(nsize: nat, mapped: Addr) returns (mem: Addr)
      requires Valid() && nsize < WORD
      requires mapped != 0 ==> FreshArea(mapped, MapSize(RequestSize(nsize)))
      modifies this`tags, this`chunks, this`fences, this`wrote, this`top, this`topsize, this`dv, this`dvsize, this`segs, this`trimCheck, bins
      ensures Valid() && Follows(old(Now()), Now())
      ensures mem != 0 ==> mem > 16 && mem % 8 == 0 && nsize < MAX_REQUEST && Taken(mem - 16, PadRequest(nsize), old(chunks))
      ensures mem != 0 && mapped == 0 ==> Fitting(old(chunks), old(top), mem - 16, RequestSize(nsize))
      ensures mem != 0 && InRange(old(bins.size)) ==>
                Chosen(old(bins.size), old(dv), old(dvsize), old(top), old(topsize), RequestSize(nsize), mem - 16)
      ensures mem == 0 ==> unchanged(this) && unchanged(bins)
      ensures mem == 0 ==> mapped == 0 || MapSize(RequestSize(nsize)) <= RequestSize(nsize)
      ensures mem == 0 && InRange(old(bins.size)) ==> forall q :: !Fitting(old(chunks), old(top), q, RequestSize(nsize))
    {
      hide HeapOk, Members, Binned, BinsOk, Follows, SparesAt, InAddressSpace, MapSize, Outside, InRange, PadRequest, Fitting, NearlyExact, FitsFrom;
      var nb := RequestSize(nsize);
      var p := 0;
      if nsize < MAX_REQUEST {
        PadBounds(nsize);
        p := MallocBinned(nsize, nb);
      }
      if p == 0 {
        p := MallocRest(nb, mapped);
        if p == 0 {
          NothingServes(nb, nsize >= MAX_REQUEST);
          return 0;
        }
      }
      mem := p + 16;
    }

    lemma NothingServes(nb: nat, huge: bool)
      requires Valid() && nb > dvsize && nb >= topsize
      requires InRange(bins.size) ==> huge || Passed(bins.size, dvsize, nb)
      requires huge ==> nb == WORD - 1
      ensures InRange(bins.size) ==> forall q :: !Fitting(chunks, top, q, nb)
    {
      hide HeapOk, Members, Binned, BinsOk;
      ZeroIsNoChunk(tags, chunks, fences, top, segs);
      forall q | InRange(bins.size) && q in chunks && !chunks[q].inuse && q != top && q != dv ensures chunks[q].size < nb {
        BinnedSizes(chunks, top, dv, {}, bins.size, q);
      }
    }

    // ---- free --------------------------------------------------------------------------

    /** What the methods below take for granted: p0 is being freed, p is p0 or the free
        chunk before it, and h holds p if that has left its bin. */
    ghost predicate Freeing(p0: Addr, p: Addr, next: Addr, h: set<Addr>)
      reads this, bins
    {
      && Core(h) && p0 !in live && next !in fences
      && Leaving(tags, chunks, top, p0, p, next) && h == Leavers(p0, p) - {p0, dv}
    }

    /** The chunk behind is the top. */
    method FreeToTop(ghost p0: Addr, p: Addr, psize: nat, ghost h: set<Addr>)
      requires Freeing(p0, p, top, h) && psize == top - p
      modifies this`tags, this`chunks, this`wrote, this`top, this`topsize, this`dv, this`dvsize
      ensures Valid() && Follows(Released(old(Now()), p0), Now()) && Used(chunks) == Used(old(chunks)) - {p0}
    {
      hide HeapOk, Members, Binned, BinsOk, Follows, InAddressSpace, Leaving, Used, LiveIn;
      ghost var s0 := Now();
      ghost var c' := MergedTop(tags, chunks, fences, top, segs, dv, live, p0, p, h, Members(bins.size), s0);
      topsize := topsize + psize;
      top := p;
      tags := tags.(head := tags.head[p := Head(topsize, true, false)]);
      chunks := c';
      wrote := wrote + {p + 8};
      assert Now() == Snap(c', s0.wrote + {p + 8});
      if p == dv {
        dv := 0;
        dvsize := 0;
      }
    }

    /** The chunk behind is in use: set_free_with_pinuse. */
    method SetFree(ghost p0: Addr, p: Addr, psize: nat, next: Addr, ghost h: set<Addr>)
      requires Freeing(p0, p, next, h) && psize == next - p && next in chunks && chunks[next].inuse
      modifies this`tags, this`chunks, this`wrote, this`dvsize
      ensures Core(if p == dv then {} else {p}) && Follows(Released(old(Now()), p0), Now()) && Used(chunks) == Used(old(chunks)) - {p0}
      ensures p in chunks && chunks[p].size == psize && psize > 0
    {
      hide HeapOk, Members, Binned, BinsOk, Follows, InAddressSpace, Leaving, FreeTags, Used, LiveIn;
      ghost var s0 := Now();
      ghost var c' := Merged(tags, chunks, fences, top, segs, dv, live, p0, p, next, h, Members(bins.size), s0);
      tags := FreeTags(tags, p, next);
      chunks := c';
      wrote := wrote + {p + 8, next + 8, next};
      assert Now() == Snap(c', s0.wrote + {p + 8, next + 8, next});
      if p == dv {
        dvsize := psize;
      }
    }

    /** The chunk behind is free, and out of its bin: set_size_and_pinuse_of_free_chunk. */
    method SetFreeWithNext(ghost p0: Addr, p: Addr, psize: nat, next: Addr, ghost h: set<Addr>)
      requires Core(h) && p0 !in live && next !in fences && Leaving(tags, chunks, top, p0, p, next)
      requires next in chunks && !chunks[next].inuse && next != top && psize == next + chunks[next].size - p
      requires h == (Leavers(p0, p) + {next}) - {p0, dv}
      modifies this`tags, this`chunks, this`wrote, this`dv, this`dvsize
      ensures dv == if next == old(dv) then p else old(dv)
      ensures Core(if p == dv then {} else {p}) && Follows(Released(old(Now()), p0), Now()) && Used(chunks) == Used(old(chunks)) - {p0}
      ensures p in chunks && chunks[p].size == psize && psize > 0
    {
      hide HeapOk, Members, Binned, BinsOk, Follows, InAddressSpace, Leaving, FreeTags, Used, LiveIn;
      ghost var s0 := Now();
      ghost var c' := MergedNext(tags, chunks, fences, top, segs, dv, live, p0, p, next, h, Members(bins.size), s0);
      tags := Tags(tags.head[p := Head(psize, true, false)], tags.foot[p + psize := psize]);
      chunks := c';
      wrote := wrote + {p + 8, p + psize};
      assert Now() == Snap(c', s0.wrote + {p + 8, p + psize});
      if next == dv {
        dv := p;
        dvsize := psize;
      } else if p == dv {
        dvsize := psize;
      }
    }

    /** alloc_trim: gives the end of a large top back to the system, in units of the
        granularity, if the system takes it. */
    method AllocTrim(unmaps: bool)
      requires Valid()
      modifies this`tags, this`chunks, this`wrote, this`topsize, this`segs, this`trimCheck
      ensures Valid() && Follows(old(Now()), Now()) && Used(chunks) == Used(old(chunks)) && 0 < topsize <= old(topsize)
      ensures if old(topsize) > TOP_FOOT_SIZE && unmaps && !Pinned(old(segs), top) then TOP_FOOT_SIZE < topsize <= TOP_FOOT_SIZE + DEFAULT_GRANULARITY
              else topsize == old(topsize) && segs == old(segs)
      ensures topsize == old(topsize) > old(trimCheck) ==> trimCheck == WORD - 1
      ensures old(topsize) > TOP_FOOT_SIZE ==> topsize % DEFAULT_GRANULARITY == old(topsize) % DEFAULT_GRANULARITY
    {
      hide HeapOk, Members, Binned, BinsOk, Follows, InAddressSpace, Used, Outside, Disjoint, Pinned;
      ghost var s0 := Now();
      var released := 0;
      TopInSpace();
      if topsize > TOP_FOOT_SIZE {
        var unit := DEFAULT_GRANULARITY;
        var extra := ((topsize - TOP_FOOT_SIZE + (unit - 1)) / unit - 1) * unit;
        var i := TopSegment();
        TrimRest(topsize - TOP_FOOT_SIZE);
        SegsApart();
        PinnedIn(segs, i, top);
        if segs[i].size >= extra {
          var pinned := HasSegmentLink(segs[i].base, segs[i].size);
          if !pinned && unmaps {
            released := extra;
          }
        }
        if released != 0 {
          ResizeTopTo(i, topsize - released);
        }
      }
      if released == 0 {
        if topsize > trimCheck {
          trimCheck := WORD - 1;
        }
        FollowsSelf(s0);
        assert Now() == s0;
      }
    }

    lemma SegsApart()
      requires Valid()
      ensures Disjoint(segs)
    {
      hide Members, Binned, BinsOk, LayoutOk, Within, Covers, Starts, NothingBehind;
    }

    lemma TopInSpace()
      requires Valid()
      ensures top + topsize + TOP_FOOT_SIZE < WORD && topsize % 8 == 0 && topsize > 0
    {
      hide Members, Binned, BinsOk, LayoutOk, Within, Covers, Starts, NothingBehind, Disjoint;
      ChunkFacts(tags, chunks, fences, top, segs, top);
      var k: nat :| TopSeg(segs, k, top, top + chunks[top].size);
      assert segs[k].base + segs[k].size < WORD;
    }

    /** has_segment_link: whether a segment record lies in the given area. */
    method HasSegmentLink(b: Addr, size: nat) returns (r: bool)
      ensures r <==> exists i :: 0 <= i < |segs| && b <= segs[i].where < b + size
    {
      var i := 0;
      while i < |segs|
        invariant i <= |segs| && forall j :: 0 <= j < i ==> !(b <= segs[j].where < b + size)
      {
        if b <= segs[i].where < b + size {
          return true;
        }
        i := i + 1;
      }
      return false;
    }

    /** The first half of lj_alloc_free: the chunk before p0 joins, if it is free. */
    method BackwardMerge(p0: Addr) returns (p: Addr, psize: nat, ghost h: set<Addr>)
      requires Valid() && p0 in chunks && chunks[p0].inuse && p0 !in live && p0 + chunks[p0].size !in fences
      modifies bins
      ensures Freeing(p0, p, p0 + chunks[p0].size, h) && psize == p0 + chunks[p0].size - p
      ensures Follows(old(Now()), Now())
    {
      hide HeapOk, Members, Binned, BinsOk, Follows, InAddressSpace;
      ChunkFacts(tags, chunks, fences, top, segs, p0);
      p, psize, h := p0, tags.head[p0].size, {};
      FollowsSelf(Now());
      if !tags.head[p0].pinuse {
        PrevFree(tags, chunks, fences, top, segs, p0);
        var prevsize := tags.foot[p0];
        p := p0 - prevsize;
        psize := psize + prevsize;
        if p != dv {
          UnlinkChunk(p, prevsize, {});
          h := {} + {p};
        }
      }
      assert h == Leavers(p0, p) - {p0, dv};
    }

    /** lj_alloc_free for the chunk p0, which is no longer live: it is merged with its free
        neighbours, and the result becomes part of the top, the victim, or a bin. */
    method FreeChunk(p0: Addr, unmaps: bool)
      requires Valid() && p0 in chunks && chunks[p0].inuse && p0 !in live && p0 + chunks[p0].size !in fences
      modifies this`tags, this`chunks, this`wrote, this`top, this`topsize, this`dv, this`dvsize, this`segs, this`trimCheck, bins
      ensures Valid() && Follows(Released(old(Now()), p0), Now()) && Used(chunks) == Used(old(chunks)) - {p0}
      ensures topsize == old(topsize) || Trimmed(topsize, old(trimCheck), unmaps, old(segs), top)
    {
      hide HeapOk, Members, Binned, BinsOk, Follows, InAddressSpace, Used, Pinned;
      ghost var s0 := Now();
      var p, psize, h := BackwardMerge(p0);
      var next := p + psize;
      ghost var s1 := Now();
      LeavingFacts(tags, chunks, fences, top, segs, p0, p, next);
      if !tags.head[next].cinuse {
        if next == top {
          FreeToTop(p0, p, psize, h);
          ghost var s2 := Now();
          ReleasedTrans(s0, s1, s2, p0);
          if topsize > trimCheck {
            AllocTrim(unmaps);
            FollowsTrans(Released(s0, p0), s2, Now());
          }
          return;
        }
        var nsize := tags.head[next].size;
        if next != dv {
          UnlinkChunk(next, nsize, h);
          FollowsTrans(s0, s1, Now());
          s1 := Now();
        }
        SetFreeWithNext(p0, p, psize + nsize, next, if next == dv then h else h + {next});
        psize := psize + nsize;
      } else {
        SetFree(p0, p, psize, next, h);
      }
      ghost var s2 := Now();
      ReleasedTrans(s0, s1, s2, p0);
      if p != dv {
        InsertChunk(p, psize, {p});
        assert {p} - {p} == {};
        FollowsTrans(Released(s0, p0), s2, Now());
      }
    }

    /** lj_alloc_free: the block is given up; all others stay as they are. */
    method Free(mem: Addr, unmaps: bool)
      requires Sound() && (mem == 0 || mem - 16 in live)
      modifies this, bins
      ensures Sound() && (mem == 0 ==> unchanged(this) && unchanged(bins))
      ensures mem != 0 ==> live == old(live) - {mem - 16} && asked == old(asked) - {mem - 16}
      ensures mem != 0 ==> Used(chunks) == Used(old(chunks)) - {mem - 16}
      ensures mem != 0 ==> BlocksKept(old(chunks) - {mem - 16}, old(bytes), bytes)
      ensures topsize == old(topsize) || Trimmed(topsize, old(trimCheck), unmaps, old(segs), top)
    {
      hide HeapOk, Members, Binned, BinsOk, Follows, InAddressSpace, BlocksKept, SameElsewhere, Used, AskedOk, Pinned;
      if mem == 0 {
        return;
      }
      var p := mem - 16;
      LiveUsed();
      Revoke(p);
      Begin();
      FreeChunk(p, unmaps);
      AskedStays(asked, Released(Snap(old(chunks), {}), p), Now());
      End();
      SparedBytes(Released(Snap(old(chunks), {}), p), Now(), old(bytes), bytes);
      OtherBlocks(old(chunks), p, old(bytes), bytes);
    }

    // ---- realloc ---------------------------------------------------------------------

    /** A block in use with room behind it: what the steps of lj_alloc_realloc start from. */
    ghost predicate Block(p: Addr)
      reads this
    {
      p in chunks && chunks[p].inuse && p + chunks[p].size !in fences
    }

    /** set_inuse on the front of block p and on the rest r. */
    method CutBlock(p: Addr, oldsize: nat, nb: nat) returns (r: Addr)
      requires Valid() && Block(p) && oldsize == chunks[p].size && nb % 8 == 0 && 32 <= nb && nb + 32 <= oldsize
      modifies this`tags, this`chunks, this`wrote
      ensures Valid() && r == p + nb && r !in old(chunks) && Block(r) && chunks == old(chunks)[p := Chunk(nb, true)][r := Chunk(oldsize - nb, true)]
      ensures Follows(Snap(old(chunks)[p := Chunk(nb, true)], old(Now()).wrote), Now())
    {
      hide HeapOk, Members, Binned, BinsOk, Follows, SparesAt, InAddressSpace, SplitUsedTags;
      r := p + nb;
      ghost var s0 := Now();
      ChunkFacts(tags, chunks, fences, top, segs, p);
      HeapSplitUsed(tags, chunks, fences, top, segs, p, nb);
      CutBinned(chunks, top, dv, p, nb);
      CutFollows(tags, chunks, fences, top, segs, p, nb, s0.wrote);
      TopIsFree(tags, chunks, fences, top, segs);
      tags := SplitUsedTags(tags, p, oldsize, nb);
      chunks := chunks[p := Chunk(nb, true)][r := Chunk(oldsize - nb, true)];
      NoFence(tags, chunks, fences, top, segs, r);
      wrote := wrote + {p + 8, r + 8, p + oldsize + 8};
      assert Now() == Snap(chunks, s0.wrote + {p + 8, r + 8, p + oldsize + 8});
    }

    /** A block is cut to nb bytes and the rest is freed. */
    method ShrinkBlock(p: Addr, oldsize: nat, nb: nat, unmaps: bool)
      requires Valid() && Block(p) && oldsize == chunks[p].size && nb % 8 == 0 && 32 <= nb && nb + 32 <= oldsize
      requires forall q {:trigger q in live} :: q in live ==> q != p + nb
      modifies this`tags, this`chunks, this`wrote, this`top, this`topsize, this`dv, this`dvsize, this`segs, this`trimCheck, bins
      ensures Valid() && Used(chunks) == Used(old(chunks))[p := nb]
      ensures Follows(Snap(old(chunks)[p := Chunk(nb, true)], old(Now()).wrote), Now())
    {
      hide HeapOk, Members, Binned, BinsOk, Follows, InAddressSpace, Used;
      ghost var s0 := Now();
      var r := CutBlock(p, oldsize, nb);
      ghost var s1 := Now();
      CutUsed(s0.chunks, p, nb, oldsize);
      FreeChunk(r, unmaps);
      CutTrans(Snap(s0.chunks[p := Chunk(nb, true)], s0.wrote), s1, Now(), r);
    }

    /** A block in front of the top grows into it. */
    method GrowBlock(p: Addr, oldsize: nat, nb: nat)
      requires Valid() && Block(p) && oldsize == chunks[p].size && p + oldsize == top
      requires nb % 8 == 0 && oldsize < nb < oldsize + topsize
      modifies this`tags, this`chunks, this`wrote, this`top, this`topsize
      ensures Valid() && Used(chunks) == Used(old(chunks))[p := nb]
      ensures Follows(Snap(old(chunks) - {p}, old(Now()).wrote), Now())
      ensures forall w {:trigger w in Now().wrote} :: w in Now().wrote && w !in old(Now().wrote) ==> SparesAt(old(chunks), w)
    {
      hide HeapOk, Members, Binned, BinsOk, Follows, SparesAt, InAddressSpace, GrowTags, Used;
      ghost var s0 := Now();
      ChunkFacts(tags, chunks, fences, top, segs, p);
      TopIsFree(tags, chunks, fences, top, segs);
      var newsize := oldsize + topsize;
      var newtopsize := newsize - nb;
      var newtop := p + nb;
      HeapGrow(tags, chunks, fences, top, segs, p, nb, newsize);
      ghost var c' := (chunks - {top})[p := Chunk(nb, true)][newtop := Chunk(newtopsize, false)];
      GrownClient(tags, chunks, fences, top, segs, dv, live, p, nb, newsize, s0, c');
      tags := GrowTags(tags, p, newsize, nb);
      top := newtop;
      topsize := newtopsize;
      chunks := c';
      wrote := wrote + {p + 8, newtop + 8};
      NoFence(tags, chunks, fences, top, segs, newtop);
      assert Now() == Snap(chunks, s0.wrote + {p + 8, newtop + 8});
    }

    /** The part of lj_alloc_realloc that keeps the block where it is, exactly if that is possible. */
    method ResizeChunk(p: Addr, nb: nat, unmaps: bool) returns (done: bool)
      requires Valid() && Block(p) && p in live && nb % 8 == 0 && 32 <= nb && forall q {:trigger q in live} :: q in live ==> q == p || !(p < q < p + chunks[p].size)
      modifies this`tags, this`chunks, this`wrote, this`top, this`topsize, this`dv, this`dvsize, this`segs, this`trimCheck, bins
      ensures Valid() && (!done ==> unchanged(this) && unchanged(bins))
      ensures done <==> KeepsPlace(old(chunks), old(top), p, nb)
      ensures done ==> Block(p) && nb <= chunks[p].size < nb + MIN_CHUNK_SIZE && Used(chunks) == Used(old(chunks))[p := chunks[p].size]
      ensures done ==> Follows(Snap(old(chunks) - {p}, old(Now()).wrote), Now())
      ensures done ==> forall w {:trigger w in Now().wrote} :: w in Now().wrote && w !in old(Now().wrote) ==>
                         SparesAt(old(chunks)[p := Chunk(if nb < old(chunks)[p].size then nb else old(chunks)[p].size, true)], w)
    {
      hide HeapOk, Members, Binned, BinsOk, Follows, SparesAt, InAddressSpace, Used;
      ghost var s0 := Now();
      ChunkFacts(tags, chunks, fences, top, segs, p);
      UsedAt(chunks, p);
      var oldsize := tags.head[p].size;
      var next := p + oldsize;
      done := true;
      if oldsize >= nb {
        if oldsize - nb >= MIN_CHUNK_SIZE {
          ShrinkBlock(p, oldsize, nb, unmaps);
          UsedSize(s0.chunks, chunks, p, nb);
          ShrunkFollows(s0, Now(), p, nb);
        } else {
          FollowsSelf(s0);
          FewerBlocks(s0, Now(), p);
        }
      } else if next == top && oldsize + topsize > nb {
        GrowBlock(p, oldsize, nb);
        UsedSize(s0.chunks, chunks, p, nb);
        SameChunk(s0.chunks, p);
      } else {
        done := false;
      }
      assert p in live && LiveIn(chunks, fences, live);
    }

    /** lj_alloc_realloc: the block at r holds the first bytes of the block at mem. */
    method Realloc(mem: Addr, nsize: nat, mapped: Addr, unmaps: bool) returns (r: Addr)
      requires Sound() && mem - 16 in live && nsize < WORD
      requires mapped != 0 ==> FreshArea(mapped, MapSize(RequestSize(nsize)))
      modifies this, bins
      ensures Sound()
      ensures r != 0 ==> Resized(old(View()), View(), mem, nsize, r)
      ensures r == mem <==> nsize < MAX_REQUEST && KeepsPlace(old(chunks), old(top), mem - 16, RequestSize(nsize))
      ensures r == 0 ==> Refused(old(chunks), old(top), old(bins.size), nsize, mapped)
      ensures r == 0 ==> live == old(live) && asked == old(asked) && BlocksKept(old(chunks), old(bytes), bytes)
    {
      hide BlocksKept, Core, MapSize, PadRequest, CopyOf, AskedOk, Fitting, InRange;
      if nsize >= MAX_REQUEST {
        SameBytes(chunks, bytes);
        LiveFacts(mem - 16);
        return 0;
      }
      var done := ResizeBlock(mem, nsize, unmaps);
      if done {
        return mem;
      }
      r := MoveBlock(mem, nsize, mapped, unmaps);
    }

    method ResizeBlock(mem: Addr, nsize: nat, unmaps: bool) returns (done: bool)
      requires Sound() && mem - 16 in live && nsize < MAX_REQUEST
      modifies this, bins
      ensures Sound()
      ensures done <==> KeepsPlace(old(chunks), old(top), mem - 16, RequestSize(nsize))
      ensures done ==> Resized(old(View()), View(), mem, nsize, mem)
      ensures !done ==> top == old(top) && bins.size == old(bins.size)
      ensures !done ==> tags == old(tags) && chunks == old(chunks) && segs == old(segs) && live == old(live) && asked == old(asked) && bytes == old(bytes)
    {
      hide BlocksKept, CopyOf, PadRequest, Follows, SparesAt, SameElsewhere, AskedOk, Used, Core, LiveIn, Resized;
      var p := mem - 16;
      PadBounds(nsize);
      LiveUsed();
      LiveFacts(p);
      ghost var c0 := chunks;
      var nb := PadRequest(nsize);
      Begin();
      done := ResizeChunk(p, nb, unmaps);
      if done {
        ghost var keep := if nb < c0[p].size then nb else c0[p].size;
        AskedStays(asked - {p}, Snap(c0 - {p}, {}), Now());
        End();
        SparedWords(c0[p := Chunk(keep, true)], Now().wrote, old(bytes), bytes);
        ResizedBytes(c0, p, keep, Smaller(c0[p].size - 8, nsize), old(bytes), bytes);
        AskedMore(asked - {p}, chunks, p, nsize);
        Grant(p, nsize);
        IsResized(old(View()), View(), mem, nsize);
      }
    }

    lemma LiveFacts(p: Addr)
      requires Sound() && p in live
      ensures p > 0 && p % 8 == 0 && Block(p)
      ensures forall q {:trigger q in live} :: q in live ==> q == p || !(p < q < p + chunks[p].size)
    {
      hide HeapOk, Members, Binned, BinsOk, InAddressSpace;
      LiveApart(tags, chunks, fences, top, segs, live, p);
      ChunkFacts(tags, chunks, fences, top, segs, p);
    }

    lemma BlockApart(q: Addr)
      requires Valid() && q in chunks
      ensures forall x {:trigger chunks[x]} :: x in chunks && x != q ==> x + chunks[x].size <= q || q + chunks[q].size <= x
    {
      hide HeapOk, Members, Binned, BinsOk, InAddressSpace;
      AllApart(tags, chunks, fences, top, segs, q);
    }

    method MoveBlock(mem: Addr, nsize: nat, mapped: Addr, unmaps: bool) returns (r: Addr)
      requires Sound() && mem - 16 in live && nsize < WORD
      requires mapped != 0 ==> FreshArea(mapped, MapSize(RequestSize(nsize)))
      modifies this, bins
      ensures Sound()
      ensures r != mem && (r != 0 ==> Resized(old(View()), View(), mem, nsize, r))
      ensures r == 0 ==> Refused(old(chunks), old(top), old(bins.size), nsize, mapped)
      ensures r == 0 ==> live == old(live) && asked == old(asked) && BlocksKept(old(chunks), old(bytes), bytes)
    {
      hide BlocksKept, CopyOf, Follows, MapSize, AskedOk, Used, Core, InRange, Fitting, Resized;
      LiveUsed();
      ghost var s0 := View();
      ghost var c0, p := chunks, mem - 16;
      LiveFacts(p);
      r := Malloc(nsize, mapped);
      if r != 0 {
        UsedStay(Snap(c0, {}), Now());
        ghost var c1, b1 := chunks, bytes;
        BlockApart(r - 16);
        ghost var n := Smaller(c0[p].size - 8, nsize);
        SetBytes(Copied(bytes, r, mem, n));
        Free(mem, unmaps);
        UsedRest(c1, chunks, p, r - 16);
        MovedBytes(c0, c1, mem, r, n, old(bytes), b1, bytes);
        LiveUsed();
        assert r - 16 in live;
        IsMoved(s0, View(), mem, nsize, r, n);
      }
    }

    /** lj_alloc_f: the allocation function of a Lua state. */
    method AllocF(ptr: Addr, nsize: nat, mapped: Addr, unmaps: bool) returns (r: Addr)
      requires Sound() && (ptr == 0 || ptr - 16 in live) && nsize < WORD
      requires mapped != 0 ==> FreshArea(mapped, MapSize(RequestSize(nsize)))
      modifies this, bins
      ensures Sound()
      ensures nsize == 0 ==> r == 0 && live == (if ptr == 0 then old(live) else old(live) - {ptr - 16})
      ensures r != 0 && ptr == 0 ==> NewBlock(old(View()), View(), r, nsize)
      ensures r != 0 && ptr != 0 ==> Resized(old(View()), View(), ptr, nsize, r)
      ensures ptr != 0 && 0 < nsize < MAX_REQUEST ==>
                (r == ptr <==> KeepsPlace(old(chunks), old(top), ptr - 16, RequestSize(nsize)))
      ensures r == 0 && nsize != 0 ==> Refused(old(chunks), old(top), old(bins.size), nsize, mapped)
      ensures r == 0 && nsize != 0 ==> live == old(live) && asked == old(asked) && BlocksKept(old(chunks), old(bytes), bytes)
      ensures BlocksKept(old(chunks) - {ptr - 16}, old(bytes), bytes)
    {
      hide BlocksKept, CopyOf, Follows, MapSize, AskedOk, Used, Core, NewBlock, InRange, Fitting;
      if nsize == 0 {
        SameBytes(chunks - {ptr - 16}, bytes);
        Free(ptr, unmaps);
        r := 0;
      } else if ptr == 0 {
        r := Malloc(nsize, mapped);
        KeptWithout(old(chunks), ptr - 16, old(bytes), bytes);
      } else {
        r := Realloc(ptr, nsize, mapped, unmaps);
        KeptWithout(old(chunks), ptr - 16, old(bytes), bytes);
      }
    }

    /** What clients rely on: the bytes they asked for are theirs alone, aligned, and lie
        in memory obtained from the system. */
    lemma ClientView(p: Addr, q: Addr)
      requires Sound() && p in live && q in live && p != q
      ensures p in asked && q in asked && (p + 16) % 8 == 0 && p > 0
      ensures p + 16 + asked[p] <= q + 16 || q + 16 + asked[q] <= p + 16
      ensures exists i :: 0 <= i < |segs| && segs[i].base <= p + 16 && p + 16 + asked[p] <= segs[i].base + segs[i].size
    {
      hide Members, Binned, BinsOk, InAddressSpace, LayoutOk, Disjoint, Starts, EndsWithTop, NothingBehind;
      LiveUsed();
      ChunkFacts(tags, chunks, fences, top, segs, p);
      HeapApart(tags, chunks, fences, top, segs, p, q);
      assert Within(segs, p, p + chunks[p].size) by { assert chunks[p] == chunks[p]; }
      var i: nat :| In(segs, i, p, p + chunks[p].size);
    }
  }
}
