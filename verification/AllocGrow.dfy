/** Growing and shrinking the heap (lj_alloc.c): init_top, prepend_alloc, add_segment
    and the trimming of the top. */
module AllocGrow {
  import opened AllocRings
  import opened AllocBins
  import opened AllocLayout
  import opened AllocSegs
  import opened AllocHeap

  /** The area from b to e is disjoint from every segment. */
  ghost predicate Outside(segs: seq<Seg>, b: Addr, e: Addr) {
    forall i {:trigger segs[i]} :: 0 <= i < |segs| ==> segs[i].base + segs[i].size <= b || e <= segs[i].base
  }

  /** Nothing of the heap lies in, or ends inside, an area outside the segments. */
  lemma NothingThere(segs: seq<Seg>, b: Addr, e: Addr, a: Addr, a': Addr)
    requires Outside(segs, b, e) && Within(segs, a, a') && a < a' + 16 && b < e
    ensures a' + 16 <= b || e <= a
  {
    var i: nat :| In(segs, i, a, a');
    assert segs[i].base + segs[i].size <= b || e <= segs[i].base;
  }

  /** A head word outside all chunks and fenceposts may change. */
  lemma HeadOutside(t: Tags, c: Chunks, fences: set<Addr>, top: Addr, segs: seq<Seg>, a: Addr, h: Head)
    requires HeapOk(t, c, fences, top, segs) && a !in c && a !in fences
    ensures HeapOk(t.(head := t.head[a := h]), c, fences, top, segs)
  {
    hide LayoutOk, SegsOk;
    HeadOutsideLayout(t, c, fences, top, a, h);
    HeadOutsideSegs(t, c, fences, top, segs, a, h);
  }

  lemma HeadOutsideLayout(t: Tags, c: Chunks, fences: set<Addr>, top: Addr, a: Addr, h: Head)
    requires LayoutOk(t, c, fences, top) && a !in c && a !in fences
    ensures LayoutOk(t.(head := t.head[a := h]), c, fences, top)
  {
    hide Apart;
    forall p | p in c ensures ChunkOk(t.(head := t.head[a := h]), c, fences, top, p) {
      assert ChunkOk(t, c, fences, top, p);
    }
  }

  lemma HeadOutsideSegs(t: Tags, c: Chunks, fences: set<Addr>, top: Addr, segs: seq<Seg>, a: Addr, h: Head)
    requires SegsOk(t, c, fences, top, segs) && a !in c
    ensures SegsOk(t.(head := t.head[a := h]), c, fences, top, segs)
  {
    hide Within, Disjoint, Covers, NothingBehind, EndsWithTop;
  }

  // ---- the top is extended or trimmed -------------------------------------------------

  /** The head words written by init_top. */
  function InitTopTags(t: Tags, top: Addr, n: nat): (r: Tags)
    ensures r.foot == t.foot
  {
    t.(head := t.head[top := Head(n, true, false)][top + n := Head(TOP_FOOT_SIZE, false, false)])
  }

  /** Segment i, which ends with the top, and the top get another size. */
  lemma HeapResize(t: Tags, c: Chunks, fences: set<Addr>, top: Addr, segs: seq<Seg>, i: nat, n: nat)
    requires HeapOk(t, c, fences, top, segs) && top in c && TopSeg(segs, i, top, top + c[top].size)
    requires n > 0 && n % 8 == 0
    requires n > c[top].size ==> Outside(segs, top + c[top].size + TOP_FOOT_SIZE, top + n + TOP_FOOT_SIZE)
    ensures HeapOk(InitTopTags(t, top, n), c[top := Chunk(n, false)], fences, top,
                   segs[i := segs[i].(size := top + n + TOP_FOOT_SIZE - segs[i].base)])
  {
    hide LayoutOk, SegsOk, Within, Outside;
    HeapParts(t, c, fences, top, segs);
    var t' := t.(head := t.head[top := Head(n, true, false)]);
    var c' := c[top := Chunk(n, false)];
    var segs' := segs[i := segs[i].(size := top + n + TOP_FOOT_SIZE - segs[i].base)];
    BehindTop(t, c, fences, top, segs, n);
    ResizeTop(t, c, fences, top, n, t');
    ResizeSegs(t, c, fences, top, segs, i, n, t', c', segs');
    HeadOutside(t', c', fences, top, segs', top + n, Head(TOP_FOOT_SIZE, false, false)) by {
      assert HeapOk(t', c', fences, top, segs');
      TopEnd(t', c', fences, top);
    }
  }

  /** No chunk and no fencepost lies between the top and the end of the new top. */
  lemma BehindTop(t: Tags, c: Chunks, fences: set<Addr>, top: Addr, segs: seq<Seg>, n: nat)
    requires HeapOk(t, c, fences, top, segs) && top in c
    requires n > c[top].size ==> Outside(segs, top + c[top].size + TOP_FOOT_SIZE, top + n + TOP_FOOT_SIZE)
    ensures NothingBehind(c, fences, top, top + n)
    ensures forall q {:trigger q in c} {:trigger q in fences} :: q in c || q in fences ==> q <= top || q > top + n
  {
    hide LayoutOk, Within, Outside, Disjoint, EndsWithTop, Starts;
    forall q | (q in c || q in fences) && q > top ensures q >= top + n + TOP_FOOT_SIZE {
      if n > c[top].size {
        var b, e := top + c[top].size + TOP_FOOT_SIZE, top + n + TOP_FOOT_SIZE;
        if q in c {
          assert c[q] == c[q];
          NothingThere(segs, b, e, q, q + c[q].size);
        } else {
          NothingThere(segs, b, e, q, q);
        }
      }
    }
  }

  lemma ResizeSegs(t: Tags, c: Chunks, fences: set<Addr>, top: Addr, segs: seq<Seg>, i: nat, n: nat, t': Tags, c': Chunks, segs': seq<Seg>)
    requires LayoutOk(t, c, fences, top) && SegsOk(t, c, fences, top, segs) && TopSeg(segs, i, top, top + c[top].size) && n > 0
    requires NothingBehind(c, fences, top, top + n)
    requires n > c[top].size ==> Outside(segs, top + c[top].size + TOP_FOOT_SIZE, top + n + TOP_FOOT_SIZE)
    requires t' == t.(head := t.head[top := Head(n, true, false)]) && c' == c[top := Chunk(n, false)]
    requires segs' == segs[i := segs[i].(size := top + n + TOP_FOOT_SIZE - segs[i].base)]
    ensures SegsOk(t', c', fences, top, segs')
  {
    hide ChunkOk, Within, Apart;
    assert TopSeg(segs', i, top, top + n);
    assert Disjoint(segs');
    forall p | p in c' ensures Within(segs', p, p + c'[p].size) {
      ResizeWithin(t, c, fences, top, segs, i, n, segs', p);
    }
    forall f | f in fences ensures Within(segs', f, f) {
      assert Within(segs, f, f);
      ResizeWithinPart(segs, i, top, c[top].size, n, segs', f, f);
    }
  }

  lemma ResizeWithin(t: Tags, c: Chunks, fences: set<Addr>, top: Addr, segs: seq<Seg>, i: nat, n: nat, segs': seq<Seg>, p: Addr)
    requires LayoutOk(t, c, fences, top) && Covers(segs, c, fences) && TopSeg(segs, i, top, top + c[top].size) && n > 0
    requires NothingBehind(c, fences, top, top + n) && NothingBehind(c, fences, top, top + c[top].size)
    requires segs' == segs[i := segs[i].(size := top + n + TOP_FOOT_SIZE - segs[i].base)] && p in c
    ensures Within(segs', p, p + c[top := Chunk(n, false)][p].size)
  {
    if p == top {
      assert In(segs', i, top, top + n);
    } else {
      hide Within, ChunkOk;
      assert Before(c, p, top);
      assert c[p] == c[p];
      ResizeWithinPart(segs, i, top, c[top].size, n, segs', p, p + c[p].size);
    }
  }

  lemma ResizeWithinPart(segs: seq<Seg>, i: nat, top: Addr, s: nat, n: nat, segs': seq<Seg>, a: Addr, b: Addr)
    requires Within(segs, a, b) && TopSeg(segs, i, top, top + s) && n > 0
    requires a <= b <= top || (a >= top + n + TOP_FOOT_SIZE && a >= top + s + TOP_FOOT_SIZE)
    requires segs' == segs[i := segs[i].(size := top + n + TOP_FOOT_SIZE - segs[i].base)]
    ensures Within(segs', a, b)
  {
    var j: nat :| In(segs, j, a, b);
    assert In(segs', j, a, b);
  }

  // ---- a segment grows at its front ------------------------------------------------------

  /** Two provisional used chunks in front of the first chunk f of a segment. */
  function FrontTags(t: Tags, p: Addr, nb: nat, f: Addr): Tags
    requires p + nb <= f
  {
    t.(head := t.head[p := Head(nb, true, true)][p + nb := Head(f - p - nb, true, true)])
  }

  ghost function FrontChunks(c: Chunks, p: Addr, nb: nat, f: Addr): Chunks
    requires p + nb <= f
  {
    c[p := Chunk(nb, true)][p + nb := Chunk(f - p - nb, true)]
  }

  lemma HeapFront(t: Tags, c: Chunks, fences: set<Addr>, top: Addr, segs: seq<Seg>, i: nat, p: Addr, nb: nat, f: Addr)
    requires HeapOk(t, c, fences, top, segs) && i < |segs| && f == segs[i].base && Outside(segs, p, f)
    requires p > 0 && p % 8 == 0 && nb % 8 == 0 && nb >= 32 && p + nb + 32 <= f && f % 8 == 0
    ensures p !in c && p + nb !in c
    ensures HeapOk(FrontTags(t, p, nb, f), FrontChunks(c, p, nb, f), fences, top,
                   segs[i := segs[i].(base := p, size := segs[i].size + (f - p))])
  {
    hide LayoutOk, SegsOk, Outside, FrontTags, FrontChunks;
    HeapParts(t, c, fences, top, segs);
    FrontApart(t, c, fences, top, segs, p, f);
    FrontLayout(t, c, fences, top, segs, i, p, nb, f);
    FrontSegs(t, c, fences, top, segs, i, p, nb, f);
  }

  /** Chunks end before p or start behind f; none of them touches the new area. */
  lemma FrontApart(t: Tags, c: Chunks, fences: set<Addr>, top: Addr, segs: seq<Seg>, p: Addr, f: Addr)
    requires HeapOk(t, c, fences, top, segs) && Outside(segs, p, f) && p < f
    ensures forall q {:trigger c[q]} {:trigger q in c} :: q in c ==> q + c[q].size + 16 <= p || f <= q
    ensures forall q {:trigger q in fences} :: q in fences ==> q + 16 <= p || f <= q
  {
    hide LayoutOk, Within, Outside, Disjoint, EndsWithTop, Starts, NothingBehind;
    forall q | q in c ensures q + c[q].size + 16 <= p || f <= q {
      NothingThere(segs, p, f, q, q + c[q].size);
    }
    forall q | q in fences ensures q + 16 <= p || f <= q {
      NothingThere(segs, p, f, q, q);
    }
  }

  lemma FrontLayout(t: Tags, c: Chunks, fences: set<Addr>, top: Addr, segs: seq<Seg>, i: nat, p: Addr, nb: nat, f: Addr)
    requires LayoutOk(t, c, fences, top) && SegsOk(t, c, fences, top, segs) && i < |segs| && f == segs[i].base
    requires p > 0 && p % 8 == 0 && nb % 8 == 0 && nb >= 32 && p + nb + 32 <= f && f % 8 == 0
    requires forall q {:trigger c[q]} {:trigger q in c} :: q in c ==> q + c[q].size + 16 <= p || f <= q
    requires forall q {:trigger q in fences} :: q in fences ==> q + 16 <= p || f <= q
    ensures LayoutOk(FrontTags(t, p, nb, f), FrontChunks(c, p, nb, f), fences, top)
  {
    hide ChunkOk, SegsOk;
    var t', c' := FrontTags(t, p, nb, f), FrontChunks(c, p, nb, f);
    assert f in c && f in t.head && t.head[f].pinuse by { assert SegsOk(t, c, fences, top, segs); StartFacts(t, c, fences, top, segs, i); }
    forall q, u | q in c' && (u in c' || u in fences) ensures Before(c', q, u) {
      assert q in c && (u in c || u in fences) ==> Before(c, q, u);
    }
    forall q | q in c' ensures ChunkOk(t', c', fences, top, q) {
      FrontChunk(t, c, fences, top, p, nb, f, q);
    }
  }

  lemma StartFacts(t: Tags, c: Chunks, fences: set<Addr>, top: Addr, segs: seq<Seg>, i: nat)
    requires SegsOk(t, c, fences, top, segs) && i < |segs|
    ensures segs[i].base in c && segs[i].base in t.head && t.head[segs[i].base].pinuse
    ensures segs[i].base > 0 && segs[i].base % 8 == 0
  {
  }

  lemma FrontChunk(t: Tags, c: Chunks, fences: set<Addr>, top: Addr, p: Addr, nb: nat, f: Addr, q: Addr)
    requires LayoutOk(t, c, fences, top) && f in c && f in t.head && t.head[f].pinuse
    requires p > 0 && p % 8 == 0 && nb % 8 == 0 && nb >= 32 && p + nb + 32 <= f && f % 8 == 0
    requires forall q {:trigger c[q]} {:trigger q in c} :: q in c ==> q + c[q].size + 16 <= p || f <= q
    requires forall q {:trigger q in fences} :: q in fences ==> q + 16 <= p || f <= q
    requires q in c || q == p || q == p + nb
    ensures ChunkOk(FrontTags(t, p, nb, f), FrontChunks(c, p, nb, f), fences, top, q)
  {
    if q in c {
      assert ChunkOk(t, c, fences, top, q);
    } else {
      assert ChunkOk(t, c, fences, top, f);
    }
  }

  lemma FrontSegs(t: Tags, c: Chunks, fences: set<Addr>, top: Addr, segs: seq<Seg>, i: nat, p: Addr, nb: nat, f: Addr)
    requires LayoutOk(t, c, fences, top) && SegsOk(t, c, fences, top, segs) && i < |segs| && f == segs[i].base && Outside(segs, p, f)
    requires p > 0 && p % 8 == 0 && nb >= 32 && p + nb + 32 <= f
    requires forall q {:trigger c[q]} {:trigger q in c} :: q in c ==> q + c[q].size + 16 <= p || f <= q
    ensures SegsOk(FrontTags(t, p, nb, f), FrontChunks(c, p, nb, f), fences, top,
                   segs[i := segs[i].(base := p, size := segs[i].size + (f - p))])
  {
    hide ChunkOk, Within, Apart, LayoutOk;
    var t', c' := FrontTags(t, p, nb, f), FrontChunks(c, p, nb, f);
    var segs' := segs[i := segs[i].(base := p, size := segs[i].size + (f - p))];
    assert top in c && f in c && c'[top] == c[top];
    assert Disjoint(segs') by { FrontDisjoint(segs, i, p); }
    forall q | q in c' ensures Within(segs', q, q + c'[q].size) {
      if q == p || q == p + nb {
        FrontRoom(segs, c, fences, i, segs', p, q, q + c'[q].size);
      } else {
        assert c'[q] == c[q];
        FrontWithin(segs, i, segs', p, q, q + c[q].size);
      }
    }
    forall q | q in fences ensures Within(segs', q, q) {
      assert Within(segs, q, q);
      FrontWithin(segs, i, segs', p, q, q);
    }
    assert EndsWithTop(segs', top, top + c[top].size) by {
      var k: nat :| TopSeg(segs, k, top, top + c[top].size);
      assert TopSeg(segs', k, top, top + c[top].size);
    }
    assert NothingBehind(c', fences, top, top + c[top].size) by {
      FrontBehind(segs, c, fences, top, p, nb, f);
    }
    assert Starts(segs', t', c') by {
      forall k | 0 <= k < |segs'|
        ensures segs'[k].base > 0 && segs'[k].base % 8 == 0 && segs'[k].size > 0 && segs'[k].base in c' && segs'[k].base in t'.head
        ensures t'.head[segs'[k].base].pinuse
      {
        assert segs[k] == segs[k];
      }
    }
  }

  lemma FrontDisjoint(segs: seq<Seg>, i: nat, p: Addr)
    requires Disjoint(segs) && i < |segs| && p <= segs[i].base && Outside(segs, p, segs[i].base)
    requires forall j {:trigger segs[j]} :: 0 <= j < |segs| ==> segs[j].size > 0
    ensures Disjoint(segs[i := segs[i].(base := p, size := segs[i].size + (segs[i].base - p))])
  {
    var segs' := segs[i := segs[i].(base := p, size := segs[i].size + (segs[i].base - p))];
    forall j, k | 0 <= j < k < |segs'|
      ensures segs'[j].base + segs'[j].size <= segs'[k].base || segs'[k].base + segs'[k].size <= segs'[j].base
    {
      assert segs[j] == segs[j] && segs[k] == segs[k];
    }
  }

  lemma FrontRoom(segs: seq<Seg>, c: Chunks, fences: set<Addr>, i: nat, segs': seq<Seg>, p: Addr, a: Addr, b: Addr)
    requires Covers(segs, c, fences) && i < |segs| && segs[i].base in c && Disjoint(segs) && segs[i].size > 0
    requires p <= a <= b <= segs[i].base
    requires segs' == segs[i := segs[i].(base := p, size := segs[i].size + (segs[i].base - p))]
    ensures Within(segs', a, b)
  {
    var f := segs[i].base;
    assert c[f] == c[f];
    var j: nat :| In(segs, j, f, f + c[f].size);
    assert i == j;
    assert In(segs', i, a, b);
  }

  lemma FrontWithin(segs: seq<Seg>, i: nat, segs': seq<Seg>, p: Addr, a: Addr, b: Addr)
    requires Within(segs, a, b) && i < |segs| && p <= segs[i].base
    requires segs' == segs[i := segs[i].(base := p, size := segs[i].size + (segs[i].base - p))]
    ensures Within(segs', a, b)
  {
    var j: nat :| In(segs, j, a, b);
    assert In(segs', j, a, b);
  }

  /** The new area does not lie behind the top. */
  lemma FrontBehind(segs: seq<Seg>, c: Chunks, fences: set<Addr>, top: Addr, p: Addr, nb: nat, f: Addr)
    requires top in c && EndsWithTop(segs, top, top + c[top].size) && NothingBehind(c, fences, top, top + c[top].size)
    requires Outside(segs, p, f) && p + nb < f && nb > 0
    ensures NothingBehind(FrontChunks(c, p, nb, f), fences, top, top + c[top].size)
  {
    var k: nat :| TopSeg(segs, k, top, top + c[top].size);
    assert segs[k].base + segs[k].size <= p || f <= segs[k].base;
  }

  // ---- a new segment elsewhere ---------------------------------------------------------

  /** The chunks after add_segment: the old top gives room for the chunk csp that holds
      the segment record, what is left in front of it is free, and the top is tt. */
  ghost function AddChunks(c: Chunks, top: Addr, csp: Addr, ssize: nat, tt: Addr, n: nat): Chunks
    requires csp >= top
  {
    var d := (c - {top})[csp := Chunk(ssize, true)][tt := Chunk(n, false)];
    if csp != top then d[top := Chunk(csp - top, false)] else d
  }

  /** The tag words around the old top, and the head of the new one. */
  ghost predicate AddedTags(t: Tags, c: Chunks, fences: set<Addr>, top: Addr, csp: Addr, ssize: nat, tt: Addr, n: nat,
                            posts: set<Addr>, t': Tags)
  {
    && csp >= top
    && (forall q {:trigger q in t'.head} {:trigger t'.head[q]} :: (q in c && q != top) || q in fences ==>
          (q in t.head ==> q in t'.head && t'.head[q] == t.head[q]))
    && (forall q {:trigger q in t'.foot} {:trigger t'.foot[q]} :: q in c && q != csp && q in t.foot ==> q in t'.foot && t'.foot[q] == t.foot[q])
    && tt in t'.head && t'.head[tt] == Head(n, true, false)
    && (forall f {:trigger f in posts} :: f in posts ==> f in t'.head && t'.head[f].pinuse && t'.head[f].cinuse)
    && csp in t'.head && t'.head[csp] == Head(ssize, csp == top, true)
    && (csp != top ==> top in t'.head && t'.head[top] == Head(csp - top, true, false) && csp in t'.foot && t'.foot[csp] == csp - top)
  }

  /** Where the pieces of the old top and the new top lie. */
  ghost predicate AddFits(c: Chunks, fences: set<Addr>, top: Addr, csp: Addr, ssize: nat, tt: Addr, n: nat, posts: set<Addr>, e: Addr) {
    && tt > 0 && tt % 8 == 0 && n > 0 && n % 8 == 0
    && csp % 8 == 0 && ssize % 8 == 0 && ssize >= 32 && (csp == top || csp >= top + 32)
    && csp + ssize in posts
    && (forall f {:trigger f in posts} :: f in posts ==> csp + ssize <= f && f + 16 <= e)
    && (forall q {:trigger q in c} {:trigger q in fences} :: q in c || q in fences ==> q <= top || q >= e)
    && (e <= tt || tt + n + 16 <= top)
    && (forall q {:trigger c[q]} :: q in c && q != top ==> q + c[q].size + 16 <= tt || tt + n + 16 <= q)
    && (forall q {:trigger q in fences} :: q in fences ==> q + 16 <= tt || tt + n + 16 <= q)
  }

  lemma AddApart(c: Chunks, fences: set<Addr>, top: Addr, csp: Addr, ssize: nat, tt: Addr, n: nat, posts: set<Addr>, e: Addr)
    requires Apart(c, fences) && top in c && AddFits(c, fences, top, csp, ssize, tt, n, posts, e)
    ensures Apart(AddChunks(c, top, csp, ssize, tt, n), fences + posts)
  {
    var c' := AddChunks(c, top, csp, ssize, tt, n);
    forall q, u | q in c' && (u in c' || u in fences + posts) ensures Before(c', q, u) {
      if q in c && q != top {
        assert c'[q] == c[q];
        assert u in c || u in fences ==> Before(c, q, u);
        assert Before(c, q, top);
      }
    }
  }

  lemma AddChunkOk(t: Tags, c: Chunks, fences: set<Addr>, top: Addr, csp: Addr, ssize: nat, tt: Addr, n: nat, posts: set<Addr>,
                   e: Addr, t': Tags, q: Addr)
    requires LayoutOk(t, c, fences, top) && AddFits(c, fences, top, csp, ssize, tt, n, posts, e)
    requires AddedTags(t, c, fences, top, csp, ssize, tt, n, posts, t')
    requires q in c && q != top && q != csp && q != tt
    ensures q in AddChunks(c, top, csp, ssize, tt, n)
    ensures ChunkOk(t', AddChunks(c, top, csp, ssize, tt, n), fences + posts, tt, q)
  {
    var c' := AddChunks(c, top, csp, ssize, tt, n);
    assert ChunkOk(t, c, fences, top, q);
    assert ChunkOk(t, c, fences, top, top);
    assert c'[q] == c[q];
    var m := q + c[q].size;
    assert m in c || m in fences;
    assert m !in posts;
    assert m in t'.head;
    assert q in t'.head;
  }

  lemma AddNewOk(t: Tags, c: Chunks, fences: set<Addr>, top: Addr, csp: Addr, ssize: nat, tt: Addr, n: nat, posts: set<Addr>,
                 e: Addr, t': Tags, q: Addr)
    requires LayoutOk(t, c, fences, top) && AddFits(c, fences, top, csp, ssize, tt, n, posts, e)
    requires AddedTags(t, c, fences, top, csp, ssize, tt, n, posts, t')
    requires (q == top && csp != top) || q == csp || q == tt
    ensures q in AddChunks(c, top, csp, ssize, tt, n)
    ensures ChunkOk(t', AddChunks(c, top, csp, ssize, tt, n), fences + posts, tt, q)
  {
    assert ChunkOk(t, c, fences, top, top);
    assert csp + ssize in posts;
  }

  lemma AddLayout(t: Tags, c: Chunks, fences: set<Addr>, top: Addr, csp: Addr, ssize: nat, tt: Addr, n: nat, posts: set<Addr>,
                  e: Addr, t': Tags)
    requires LayoutOk(t, c, fences, top) && AddFits(c, fences, top, csp, ssize, tt, n, posts, e)
    requires AddedTags(t, c, fences, top, csp, ssize, tt, n, posts, t')
    ensures LayoutOk(t', AddChunks(c, top, csp, ssize, tt, n), fences + posts, tt)
  {
    hide ChunkOk, Apart;
    var c' := AddChunks(c, top, csp, ssize, tt, n);
    AddApart(c, fences, top, csp, ssize, tt, n, posts, e);
    forall q | q in c' ensures ChunkOk(t', c', fences + posts, tt, q) {
      if q == csp || q == tt || q == top {
        AddNewOk(t, c, fences, top, csp, ssize, tt, n, posts, e, t', q);
      } else {
        AddChunkOk(t, c, fences, top, csp, ssize, tt, n, posts, e, t', q);
      }
    }
    forall f | f in fences + posts ensures f !in c' && f in t'.head && t'.head[f].pinuse && t'.head[f].cinuse {
    }
  }

  /** The segment list with a new first record; the old first record moves to address w. */
  function PushSeg(segs: seq<Seg>, b: Addr, size: nat, w: Addr): seq<Seg>
    requires |segs| > 0
  {
    [Seg(b, size, segs[0].where), segs[0].(where := w)] + segs[1..]
  }

  lemma PushWithin(segs: seq<Seg>, b: Addr, size: nat, w: Addr, a: Addr, a': Addr)
    requires |segs| > 0 && Within(segs, a, a')
    ensures Within(PushSeg(segs, b, size, w), a, a')
  {
    var j: nat :| In(segs, j, a, a');
    assert In(PushSeg(segs, b, size, w), j + 1, a, a');
  }

  lemma PushDisjoint(segs: seq<Seg>, b: Addr, size: nat, w: Addr)
    requires |segs| > 0 && Disjoint(segs) && Outside(segs, b, b + size)
    ensures Disjoint(PushSeg(segs, b, size, w))
  {
    var segs' := PushSeg(segs, b, size, w);
    forall i, j | 0 <= i < j < |segs'|
      ensures segs'[i].base + segs'[i].size <= segs'[j].base || segs'[j].base + segs'[j].size <= segs'[i].base
    {
      assert segs'[j].base == segs[j - 1].base && segs'[j].size == segs[j - 1].size;
      if i > 0 {
        assert segs'[i].base == segs[i - 1].base && segs'[i].size == segs[i - 1].size;
      }
    }
  }

  lemma AddSegs(t: Tags, c: Chunks, fences: set<Addr>, top: Addr, segs: seq<Seg>, i: nat, csp: Addr, ssize: nat, tt: Addr, n: nat,
                posts: set<Addr>, e: Addr, t': Tags)
    requires SegsOk(t, c, fences, top, segs) && TopSeg(segs, i, top, top + c[top].size) && |segs| > 0
    requires e == top + c[top].size + TOP_FOOT_SIZE && AddFits(c, fences, top, csp, ssize, tt, n, posts, e)
    requires AddedTags(t, c, fences, top, csp, ssize, tt, n, posts, t') && top in t.head && t.head[top].pinuse
    requires Outside(segs, tt, tt + n + TOP_FOOT_SIZE)
    ensures SegsOk(t', AddChunks(c, top, csp, ssize, tt, n), fences + posts, tt,
                   PushSeg(segs, tt, n + TOP_FOOT_SIZE, csp + 16))
  {
    hide Within, Outside, PushSeg, Disjoint, EndsWithTop, AddedTags;
    var c', segs' := AddChunks(c, top, csp, ssize, tt, n), PushSeg(segs, tt, n + TOP_FOOT_SIZE, csp + 16);
    PushDisjoint(segs, tt, n + TOP_FOOT_SIZE, csp + 16);
    forall q | q in c' ensures Within(segs', q, q + c'[q].size) {
      if q == tt || q == csp || q == top {
        NewWithin(segs, i, top, e, tt, n, csp + 16, q, q + c'[q].size);
      } else {
        assert c'[q] == c[q];
        PushWithin(segs, tt, n + TOP_FOOT_SIZE, csp + 16, q, q + c[q].size);
      }
    }
    forall f | f in fences + posts ensures Within(segs', f, f) {
      if f in posts {
        NewWithin(segs, i, top, e, tt, n, csp + 16, f, f);
      } else {
        PushWithin(segs, tt, n + TOP_FOOT_SIZE, csp + 16, f, f);
      }
    }
    AddStarts(t, c, fences, top, segs, csp, ssize, tt, n, posts, e, t');
    NewTopSeg(segs, tt, n, csp + 16);
    AddBehind(c, fences, top, segs, i, csp, ssize, tt, n, posts, e);
  }

  lemma NewTopSeg(segs: seq<Seg>, tt: Addr, n: nat, w: Addr)
    requires |segs| > 0
    ensures EndsWithTop(PushSeg(segs, tt, n + TOP_FOOT_SIZE, w), tt, tt + n)
  {
    assert TopSeg(PushSeg(segs, tt, n + TOP_FOOT_SIZE, w), 0, tt, tt + n);
  }

  lemma NewWithin(segs: seq<Seg>, i: nat, top: Addr, e: Addr, tt: Addr, n: nat, w: Addr, a: Addr, b: Addr)
    requires i < |segs| && segs[i].base <= top && e == segs[i].base + segs[i].size && a <= b
    requires (tt <= a && b <= tt + n) || (top <= a && b + 16 <= e)
    ensures Within(PushSeg(segs, tt, n + TOP_FOOT_SIZE, w), a, b)
  {
    var segs' := PushSeg(segs, tt, n + TOP_FOOT_SIZE, w);
    if tt <= a && b <= tt + n {
      assert In(segs', 0, a, b);
    } else {
      assert In(segs', i + 1, a, b);
    }
  }

  lemma AddStarts(t: Tags, c: Chunks, fences: set<Addr>, top: Addr, segs: seq<Seg>, csp: Addr, ssize: nat, tt: Addr, n: nat,
                  posts: set<Addr>, e: Addr, t': Tags)
    requires Starts(segs, t, c) && |segs| > 0 && top in c && AddFits(c, fences, top, csp, ssize, tt, n, posts, e)
    requires AddedTags(t, c, fences, top, csp, ssize, tt, n, posts, t')
    ensures Starts(PushSeg(segs, tt, n + TOP_FOOT_SIZE, csp + 16), t', AddChunks(c, top, csp, ssize, tt, n))
  {
    var c', segs' := AddChunks(c, top, csp, ssize, tt, n), PushSeg(segs, tt, n + TOP_FOOT_SIZE, csp + 16);
    forall k | 0 <= k < |segs'|
      ensures segs'[k].base > 0 && segs'[k].base % 8 == 0 && segs'[k].size > 0
      ensures segs'[k].base in c' && segs'[k].base in t'.head && t'.head[segs'[k].base].pinuse
    {
      if k > 0 {
        var b := segs[k - 1].base;
        assert segs'[k].base == b && segs'[k].size == segs[k - 1].size;
        assert b in c && b in t.head && t.head[b].pinuse;
        assert b != top ==> b in t'.head;
      }
    }
  }

  lemma AddBehind(c: Chunks, fences: set<Addr>, top: Addr, segs: seq<Seg>, i: nat, csp: Addr, ssize: nat, tt: Addr, n: nat,
                  posts: set<Addr>, e: Addr)
    requires Covers(segs, c, fences) && top in c && AddFits(c, fences, top, csp, ssize, tt, n, posts, e)
    requires Outside(segs, tt, tt + n + TOP_FOOT_SIZE) && TopSeg(segs, i, top, top + c[top].size)
    requires e == top + c[top].size + TOP_FOOT_SIZE
    ensures NothingBehind(AddChunks(c, top, csp, ssize, tt, n), fences + posts, tt, tt + n)
  {
    hide Within;
    var c' := AddChunks(c, top, csp, ssize, tt, n);
    assert segs[i].base + segs[i].size <= tt || tt + n + TOP_FOOT_SIZE <= segs[i].base;
    forall q | (q in c' || q in fences + posts) && q > tt ensures q >= tt + n + TOP_FOOT_SIZE {
      if q in c {
        assert Within(segs, q, q + c[q].size);
        NothingThere(segs, tt, tt + n + TOP_FOOT_SIZE, q, q + c[q].size);
      } else if q in fences {
        NothingThere(segs, tt, tt + n + TOP_FOOT_SIZE, q, q);
      }
    }
  }

  lemma HeapAdd(t: Tags, c: Chunks, fences: set<Addr>, top: Addr, segs: seq<Seg>, i: nat, csp: Addr, ssize: nat, tt: Addr, n: nat,
                posts: set<Addr>, e: Addr, t': Tags)
    requires HeapOk(t, c, fences, top, segs) && top in c && TopSeg(segs, i, top, top + c[top].size) && |segs| > 0
    requires e == top + c[top].size + TOP_FOOT_SIZE && AddFits(c, fences, top, csp, ssize, tt, n, posts, e)
    requires AddedTags(t, c, fences, top, csp, ssize, tt, n, posts, t') && top in t.head && t.head[top].pinuse
    requires Outside(segs, tt, tt + n + TOP_FOOT_SIZE)
    ensures HeapOk(t', AddChunks(c, top, csp, ssize, tt, n), fences + posts, tt, PushSeg(segs, tt, n + TOP_FOOT_SIZE, csp + 16))
  {
    hide LayoutOk, SegsOk, AddFits, AddedTags, Outside;
    AddLayout(t, c, fences, top, csp, ssize, tt, n, posts, e, t');
    AddSegs(t, c, fences, top, segs, i, csp, ssize, tt, n, posts, e, t');
  }

  /** Where add_segment puts the segment record: at the end of the old top, or at its
      front when the old top is too small to be a chunk of its own. */
  function RecordAt(top: Addr, oldEnd: Addr): Addr {
    if oldEnd - TOP_FOOT_SIZE < top + 32 then top else oldEnd - TOP_FOOT_SIZE
  }

  lemma AddShapeHolds(t: Tags, c: Chunks, fences: set<Addr>, top: Addr, segs: seq<Seg>, i: nat, tt: Addr, n: nat, posts: set<Addr>, e: Addr)
    requires HeapOk(t, c, fences, top, segs) && top in c && TopSeg(segs, i, top, top + c[top].size)
    requires e == top + c[top].size + TOP_FOOT_SIZE && Outside(segs, tt, tt + n + TOP_FOOT_SIZE)
    requires tt > 0 && tt % 8 == 0 && n > 0 && n % 8 == 0
    requires var csp := RecordAt(top, e);
             csp + 32 in posts && forall f {:trigger f in posts} :: f in posts ==> csp + 32 <= f && f + 16 <= e
    ensures AddFits(c, fences, top, RecordAt(top, e), 32, tt, n, posts, e)
  {
    hide LayoutOk, SegsOk, Outside;
    HeapParts(t, c, fences, top, segs);
    SizePositive(t, c, fences, top, top);
    assert segs[i].base + segs[i].size <= tt || tt + n + TOP_FOOT_SIZE <= segs[i].base by { OutsideAt(segs, tt, tt + n + TOP_FOOT_SIZE, i); }
    FrontApart(t, c, fences, top, segs, tt, tt + n + TOP_FOOT_SIZE);
    OnlyTopThere(t, c, fences, top, segs);
    assert c[top].size % 8 == 0 by { SizeAligned(t, c, fences, top, top); }
  }

  lemma OutsideAt(segs: seq<Seg>, b: Addr, e: Addr, i: nat)
    requires Outside(segs, b, e) && i < |segs|
    ensures segs[i].base + segs[i].size <= b || e <= segs[i].base
  {
  }

  lemma OnlyTopThere(t: Tags, c: Chunks, fences: set<Addr>, top: Addr, segs: seq<Seg>)
    requires SegsOk(t, c, fences, top, segs) && top in c
    ensures forall q {:trigger q in c} {:trigger q in fences} :: q in c || q in fences ==> q <= top || q >= top + c[top].size + TOP_FOOT_SIZE
  {
    hide Covers, Starts, Disjoint, EndsWithTop;
  }

  lemma SizeAligned(t: Tags, c: Chunks, fences: set<Addr>, top: Addr, p: Addr)
    requires LayoutOk(t, c, fences, top) && p in c
    ensures c[p].size % 8 == 0
  {
    assert ChunkOk(t, c, fences, top, p);
  }

  /** t2 is t after init_top, the head of the record chunk, and the fenceposts. */
  ghost predicate Fenced(t: Tags, tt: Addr, n: nat, csp: Addr, posts: set<Addr>, t2: Tags) {
    && t2.foot == t.foot
    && (forall f {:trigger f in posts} :: f in posts ==> f in t2.head && t2.head[f] == Head(8, true, true))
    && (forall a {:trigger a in t2.head} :: a !in posts ==>
          var h := InitTopTags(t, tt, n).head[csp := Head(32, true, true)];
          (a in t2.head <==> a in h) && (a in h ==> t2.head[a] == h[a]))
  }

  lemma AddedTagsHold(t: Tags, c: Chunks, fences: set<Addr>, top: Addr, csp: Addr, tt: Addr, n: nat, posts: set<Addr>, e: Addr, t2: Tags)
    requires AddFits(c, fences, top, csp, 32, tt, n, posts, e) && Fenced(t, tt, n, csp, posts, t2) && top in c && top !in fences
    ensures csp != top ==> AddedTags(t, c, fences, top, csp, 32, tt, n, posts, FreeTags(t2, top, csp))
    ensures csp == top ==> AddedTags(t, c, fences, top, csp, 32, tt, n, posts, t2)
  {
    assert csp + 32 in posts;
    assert csp !in posts && tt !in posts && top !in posts;
    assert csp in t2.head && tt in t2.head;
    forall q | ((q in c && q != top) || q in fences) && q in t.head ensures q !in posts && q != csp && q != tt && q != tt + n && q in t2.head && t2.head[q] == t.head[q] {
    }
  }
}
