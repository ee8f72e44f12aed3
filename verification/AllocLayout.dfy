/** Boundary tags (lj_alloc.c): how head and prev_foot words describe the chunks that
    tile the heap, and what the elementary changes of the heap keep. */
module AllocLayout {
  import opened AllocRings
  import opened AllocBins

  /** What a chunk is, as opposed to what the words around it say. */
  datatype Chunk = Chunk(size: nat, inuse: bool)

  type Chunks = map<Addr, Chunk>

  /** The tag words: head by chunk, prev_foot by chunk. */
  datatype Tags = Tags(head: map<Addr, Head>, foot: map<Addr, nat>)

  ghost predicate Before(c: Chunks, p: Addr, q: Addr) {
    p in c && p < q ==> p + c[p].size <= q
  }

  /** Chunks do not overlap each other or the fenceposts. */
  ghost predicate Apart(c: Chunks, fences: set<Addr>) {
    forall p, q {:trigger Before(c, p, q)} :: p in c && (q in c || q in fences) ==> Before(c, p, q)
  }

  ghost predicate ChunkOk(t: Tags, c: Chunks, fences: set<Addr>, top: Addr, p: Addr)
    requires p in c
  {
    var n := p + c[p].size;
    && p > 0 && p % 8 == 0 && c[p].size % 8 == 0 && c[p].size > 0 && (p != top ==> c[p].size >= 32)
    // the head word
    && p in t.head && t.head[p].size == c[p].size && t.head[p].cinuse == c[p].inuse
    // the heap is tiled: behind every chunk but the top comes a chunk or a fencepost
    && (p != top ==> n in c || n in fences)
    // pinuse and prev_foot of the next chunk describe this one
    && (n in c || n in fences ==> n in t.head && t.head[n].pinuse == c[p].inuse)
    && (n in c && !c[p].inuse ==> n in t.foot && t.foot[n] == c[p].size)
    // a clear pinuse leads back to the free chunk before
    && (!t.head[p].pinuse ==> p in t.foot && p - t.foot[p] in c && c[p - t.foot[p]] == Chunk(t.foot[p], false))
    // no two neighbours are free
    && (!c[p].inuse ==> t.head[p].pinuse && (n in c ==> c[n].inuse))
  }

  ghost predicate LayoutOk(t: Tags, c: Chunks, fences: set<Addr>, top: Addr) {
    && Apart(c, fences)
    && (forall p {:trigger ChunkOk(t, c, fences, top, p)} :: p in c ==> ChunkOk(t, c, fences, top, p))
    && (forall f {:trigger f in fences} :: f in fences ==> f !in c && f in t.head && t.head[f].pinuse && t.head[f].cinuse)
    && top in c && !c[top].inuse && top + c[top].size !in c && top + c[top].size !in fences
  }

  /** Behind a free chunk other than the top there is a chunk in use. */
  lemma BehindFree(t: Tags, c: Chunks, fences: set<Addr>, top: Addr, p: Addr)
    requires LayoutOk(t, c, fences, top) && p in c && !c[p].inuse && p != top
    ensures p + c[p].size in c && c[p + c[p].size].inuse && p + c[p].size in t.head && c[p].size >= 32
    ensures p in t.head && t.head[p] == Head(c[p].size, true, false)
    ensures p + c[p].size != top && p > 0 && p % 8 == 0
  {
    assert ChunkOk(t, c, fences, top, p);
  }

  /** The clear pinuse bit behind a free chunk. */
  lemma FreeEnd(t: Tags, c: Chunks, fences: set<Addr>, top: Addr, p: Addr)
    requires LayoutOk(t, c, fences, top) && p in c && !c[p].inuse && p != top
    ensures p + c[p].size in c && p + c[p].size in t.head && p + c[p].size != top
    ensures c[p + c[p].size].inuse && !t.head[p + c[p].size].pinuse
  {
    hide Apart;
    assert ChunkOk(t, c, fences, top, p);
  }

  /** A free chunk that is not the top comes into use as a whole. */
  lemma UseWhole(t: Tags, c: Chunks, fences: set<Addr>, top: Addr, p: Addr, t': Tags)
    requires LayoutOk(t, c, fences, top) && p in c && !c[p].inuse && p != top
    requires var n := p + c[p].size;
             && n in t.head
             && t' == Tags(t.head[p := Head(c[p].size, true, true)][n := t.head[n].(pinuse := true)], t.foot)
    ensures LayoutOk(t', c[p := c[p].(inuse := true)], fences, top)
  {
    hide ChunkOk, Apart;
    var c' := c[p := c[p].(inuse := true)];
    BehindFree(t, c, fences, top, p);
    SameSizesApart(c, fences, c');
    forall q | q in c' ensures ChunkOk(t', c', fences, top, q) {
      UseWholeChunk(t, c, fences, top, p, t', q);
    }
  }

  lemma SameSizesApart(c: Chunks, fences: set<Addr>, c': Chunks)
    requires Apart(c, fences) && c'.Keys == c.Keys
    requires forall p {:trigger c[p]} {:trigger c'[p]} :: p in c ==> c'[p].size == c[p].size
    ensures Apart(c', fences)
  {
    forall q, r | q in c' && (r in c' || r in fences) ensures Before(c', q, r) {
      assert Before(c, q, r);
    }
  }

  lemma UseWholeChunk(t: Tags, c: Chunks, fences: set<Addr>, top: Addr, p: Addr, t': Tags, q: Addr)
    requires LayoutOk(t, c, fences, top) && p in c && !c[p].inuse && p != top
    requires var n := p + c[p].size;
             && n in t.head && n in c && c[n].inuse && n != top
             && t' == Tags(t.head[p := Head(c[p].size, true, true)][n := t.head[n].(pinuse := true)], t.foot)
    requires q in c
    ensures ChunkOk(t', c[p := c[p].(inuse := true)], fences, top, q)
  {
    var n := p + c[p].size;
    assert ChunkOk(t, c, fences, top, q);
    assert ChunkOk(t, c, fences, top, n);
    assert Before(c, p, q) && Before(c, q, p);
  }

  /** The front of a free chunk comes into use, the rest stays free. */
  lemma SplitFree(t: Tags, c: Chunks, fences: set<Addr>, top: Addr, p: Addr, nb: nat, t': Tags)
    requires LayoutOk(t, c, fences, top) && p in c && !c[p].inuse && p != top
    requires nb % 8 == 0 && 32 <= nb && nb + 32 <= c[p].size
    requires var r := p + nb;
             var n := p + c[p].size;
             && n in t.head
             && t' == Tags(t.head[p := Head(nb, true, true)][r := Head(c[p].size - nb, true, false)],
                           t.foot[n := c[p].size - nb])
    ensures p + nb !in c
    ensures LayoutOk(t', c[p := Chunk(nb, true)][p + nb := Chunk(c[p].size - nb, false)], fences, top)
  {
    hide ChunkOk;
    BehindFree(t, c, fences, top, p);
    var r := p + nb;
    assert r in c || r in fences ==> Before(c, p, r);
    var c' := c[p := Chunk(nb, true)][r := Chunk(c[p].size - nb, false)];
    SplitApart(c, fences, p, nb, c');
    assert Before(c, p, top) && Before(c, top, p);
    forall q | q in c' ensures ChunkOk(t', c', fences, top, q) {
      SplitFreeChunk(t, c, fences, top, p, nb, t', q);
    }
  }

  lemma SplitFreeChunk(t: Tags, c: Chunks, fences: set<Addr>, top: Addr, p: Addr, nb: nat, t': Tags, q: Addr)
    requires LayoutOk(t, c, fences, top) && p in c && !c[p].inuse && p != top
    requires nb % 8 == 0 && 32 <= nb && nb + 32 <= c[p].size && p + nb !in c
    requires var r := p + nb;
             var n := p + c[p].size;
             && n in t.head && n in c && n != top && c[n].inuse
             && t' == Tags(t.head[p := Head(nb, true, true)][r := Head(c[p].size - nb, true, false)],
                           t.foot[n := c[p].size - nb])
    requires q in c || q == p + nb
    ensures ChunkOk(t', c[p := Chunk(nb, true)][p + nb := Chunk(c[p].size - nb, false)], fences, top, q)
  {
    var n := p + c[p].size;
    assert ChunkOk(t, c, fences, top, n) && ChunkOk(t, c, fences, top, p);
    if q in c {
      assert ChunkOk(t, c, fences, top, q);
      assert Before(c, p, q) && Before(c, q, p) && Before(c, q, n);
    }
  }

  /** Cutting a chunk in two keeps everything apart. */
  lemma SplitApart(c: Chunks, fences: set<Addr>, p: Addr, nb: nat, c': Chunks)
    requires Apart(c, fences) && p in c && 0 < nb < c[p].size && p + nb !in c
    requires c'.Keys == c.Keys + {p + nb} && c'[p].size == nb && c'[p + nb].size == c[p].size - nb
    requires forall y :: y in c && y != p ==> c'[y].size == c[y].size
    ensures Apart(c', fences)
  {
    forall q, u | q in c' && (u in c' || u in fences) ensures Before(c', q, u) {
      assert (u in c || u in fences) ==> Before(c, p, u);
      assert q in c && (u in c || u in fences) ==> Before(c, q, u);
      assert q in c ==> Before(c, q, p) && Before(c, p, q);
    }
  }

  /** The front of the top comes into use, the rest becomes the top. */
  lemma SplitTop(t: Tags, c: Chunks, fences: set<Addr>, top: Addr, nb: nat, t': Tags)
    requires LayoutOk(t, c, fences, top)
    requires nb % 8 == 0 && 32 <= nb < c[top].size
    requires t' == Tags(t.head[top + nb := Head(c[top].size - nb, true, false)][top := Head(nb, true, true)], t.foot)
    ensures top + nb !in c
    ensures LayoutOk(t', c[top := Chunk(nb, true)][top + nb := Chunk(c[top].size - nb, false)], fences, top + nb)
  {
    hide ChunkOk;
    var r := top + nb;
    assert r in c || r in fences ==> Before(c, top, r);
    var c' := c[top := Chunk(nb, true)][r := Chunk(c[top].size - nb, false)];
    SplitApart(c, fences, top, nb, c');
    forall q | q in c' ensures ChunkOk(t', c', fences, r, q) {
      SplitTopChunk(t, c, fences, top, nb, t', q);
    }
  }

  lemma SplitTopChunk(t: Tags, c: Chunks, fences: set<Addr>, top: Addr, nb: nat, t': Tags, q: Addr)
    requires LayoutOk(t, c, fences, top) && top + nb !in c
    requires nb % 8 == 0 && 32 <= nb < c[top].size
    requires t' == Tags(t.head[top + nb := Head(c[top].size - nb, true, false)][top := Head(nb, true, true)], t.foot)
    requires q in c || q == top + nb
    ensures ChunkOk(t', c[top := Chunk(nb, true)][top + nb := Chunk(c[top].size - nb, false)], fences, top + nb, q)
  {
    assert ChunkOk(t, c, fences, top, top);
    if q == top {
      SplitTopFirst(t, c, fences, top, nb, t');
    } else if q == top + nb {
      SplitTopRest(t, c, fences, top, nb, t');
    } else {
      assert ChunkOk(t, c, fences, top, q);
      assert Before(c, top, q) && Before(c, q, top);
      hide LayoutOk, Apart;
      SplitTopOther(t, c, fences, top, nb, t', q);
    }
  }

  /** The front part of the top is in use. */
  lemma SplitTopFirst(t: Tags, c: Chunks, fences: set<Addr>, top: Addr, nb: nat, t': Tags)
    requires LayoutOk(t, c, fences, top) && top + nb !in c
    requires nb % 8 == 0 && 32 <= nb < c[top].size
    requires t' == Tags(t.head[top + nb := Head(c[top].size - nb, true, false)][top := Head(nb, true, true)], t.foot)
    ensures ChunkOk(t', c[top := Chunk(nb, true)][top + nb := Chunk(c[top].size - nb, false)], fences, top + nb, top)
  {
    assert ChunkOk(t, c, fences, top, top);
  }

  /** The rest is the new top. */
  lemma SplitTopRest(t: Tags, c: Chunks, fences: set<Addr>, top: Addr, nb: nat, t': Tags)
    requires LayoutOk(t, c, fences, top) && top + nb !in c
    requires nb % 8 == 0 && 32 <= nb < c[top].size
    requires t' == Tags(t.head[top + nb := Head(c[top].size - nb, true, false)][top := Head(nb, true, true)], t.foot)
    ensures ChunkOk(t', c[top := Chunk(nb, true)][top + nb := Chunk(c[top].size - nb, false)], fences, top + nb, top + nb)
  {
    assert ChunkOk(t, c, fences, top, top);
  }

  /** Another chunk is not touched. */
  lemma SplitTopOther(t: Tags, c: Chunks, fences: set<Addr>, top: Addr, nb: nat, t': Tags, q: Addr)
    requires top in c && !c[top].inuse && top + c[top].size !in c && q in c && q != top && top + nb !in c && ChunkOk(t, c, fences, top, q) && ChunkOk(t, c, fences, top, top)
    requires Before(c, top, q) && Before(c, q, top) && nb % 8 == 0 && 32 <= nb < c[top].size
    requires t' == Tags(t.head[top + nb := Head(c[top].size - nb, true, false)][top := Head(nb, true, true)], t.foot)
    ensures ChunkOk(t', c[top := Chunk(nb, true)][top + nb := Chunk(c[top].size - nb, false)], fences, top + nb, q)
  {
  }

  /** gone holds exactly the chunks from a to b. */
  ghost predicate Run(c: Chunks, gone: set<Addr>, a: Addr, b: Addr) {
    && a in gone && a < b
    && (forall q {:trigger q in gone} :: q in gone ==> q in c && a <= q && q + c[q].size <= b)
    && (forall q {:trigger q in gone} :: q in c && a <= q < b ==> q in gone)
  }

  /** A run of chunks between a used chunk (or nothing) and a used chunk becomes one free chunk. */
  lemma Coalesce(t: Tags, c: Chunks, fences: set<Addr>, top: Addr, gone: set<Addr>, a: Addr, b: Addr, t': Tags)
    requires LayoutOk(t, c, fences, top) && Run(c, gone, a, b) && top !in gone && a in c
    requires a in t.head && t.head[a].pinuse && b in c && c[b].inuse && b in t.head
    requires forall f :: f in fences ==> f < a || b <= f
    requires b - a >= 32 && (b - a) % 8 == 0
    requires t' == Tags(t.head[b := t.head[b].(pinuse := false)][a := Head(b - a, true, false)], t.foot[b := b - a])
    ensures LayoutOk(t', (c - gone)[a := Chunk(b - a, false)], fences, top)
  {
    hide ChunkOk, Apart;
    var c' := (c - gone)[a := Chunk(b - a, false)];
    assert c[b].size > 0 by { SizePositive(t, c, fences, top, b); }
    CoalesceApart(c, fences, gone, a, b);
    forall q | q in c' ensures ChunkOk(t', c', fences, top, q) {
      if q == a {
        CoalesceHead(t, c, fences, top, gone, a, b, t');
      } else {
        CoalesceChunk(t, c, fences, top, gone, a, b, t', q);
      }
    }
  }

  lemma SizePositive(t: Tags, c: Chunks, fences: set<Addr>, top: Addr, p: Addr)
    requires LayoutOk(t, c, fences, top) && p in c
    ensures c[p].size > 0 && p > 0 && p % 8 == 0 && (p != top ==> c[p].size >= 32)
    ensures p in t.head && t.head[p].size == c[p].size && t.head[p].cinuse == c[p].inuse
  {
    assert ChunkOk(t, c, fences, top, p);
  }

  lemma CoalesceHead(t: Tags, c: Chunks, fences: set<Addr>, top: Addr, gone: set<Addr>, a: Addr, b: Addr, t': Tags)
    requires LayoutOk(t, c, fences, top) && Run(c, gone, a, b) && a in c
    requires a in t.head && t.head[a].pinuse && b in c && c[b].inuse && b in t.head && b !in gone
    requires b - a >= 32 && (b - a) % 8 == 0
    requires t' == Tags(t.head[b := t.head[b].(pinuse := false)][a := Head(b - a, true, false)], t.foot[b := b - a])
    ensures ChunkOk(t', (c - gone)[a := Chunk(b - a, false)], fences, top, a)
  {
    assert ChunkOk(t, c, fences, top, a);
  }

  lemma CoalesceApart(c: Chunks, fences: set<Addr>, gone: set<Addr>, a: Addr, b: Addr)
    requires Apart(c, fences) && Run(c, gone, a, b) && a in c
    requires forall f :: f in fences ==> f < a || b <= f
    ensures Apart((c - gone)[a := Chunk(b - a, false)], fences)
  {
    var c' := (c - gone)[a := Chunk(b - a, false)];
    forall q, u | q in c' && (u in c' || u in fences) ensures Before(c', q, u) {
      assert q in c ==> Before(c, q, u);
      assert u in gone || !(u in c) || u < a || b <= u;
    }
  }

  lemma CoalesceChunk(t: Tags, c: Chunks, fences: set<Addr>, top: Addr, gone: set<Addr>, a: Addr, b: Addr, t': Tags, q: Addr)
    requires LayoutOk(t, c, fences, top) && Run(c, gone, a, b) && top !in gone && a in c
    requires a in t.head && t.head[a].pinuse && b in c && c[b].inuse && b in t.head && b !in gone
    requires t' == Tags(t.head[b := t.head[b].(pinuse := false)][a := Head(b - a, true, false)], t.foot[b := b - a])
    requires q in c && q !in gone
    ensures ChunkOk(t', (c - gone)[a := Chunk(b - a, false)], fences, top, q)
  {
    assert ChunkOk(t, c, fences, top, q);
    assert ChunkOk(t, c, fences, top, a);
    assert Before(c, q, a) && Before(c, q, b);
    var n := q + c[q].size;
    assert n in gone ==> n == a;
    if !t.head[q].pinuse {
      var u := q - t.foot[q];
      assert u in c && c[u] == Chunk(t.foot[q], false);
      assert Before(c, u, a);
      assert u in gone ==> q == b;
    }
  }

  /** A run of chunks that ends with the top becomes the top. */
  lemma CoalesceTop(t: Tags, c: Chunks, fences: set<Addr>, top: Addr, gone: set<Addr>, a: Addr, t': Tags)
    requires LayoutOk(t, c, fences, top) && top in gone && a in c && Run(c, gone, a, top + c[top].size)
    requires a in t.head && t.head[a].pinuse
    requires forall f :: f in fences ==> f < a || top + c[top].size < f
    requires var n := top + c[top].size - a;
             n % 8 == 0 && t' == t.(head := t.head[a := Head(n, true, false)])
    ensures LayoutOk(t', (c - gone)[a := Chunk(top + c[top].size - a, false)], fences, a)
  {
    hide ChunkOk;
    var b := top + c[top].size;
    var c' := (c - gone)[a := Chunk(b - a, false)];
    CoalesceApart(c, fences, gone, a, b);
    forall q | q in c' ensures ChunkOk(t', c', fences, a, q) {
      if q == a {
        SizePositive(t, c, fences, top, a);
      }
      CoalesceTopChunk(t, c, fences, top, gone, a, t', q);
    }
  }

  lemma CoalesceTopChunk(t: Tags, c: Chunks, fences: set<Addr>, top: Addr, gone: set<Addr>, a: Addr, t': Tags, q: Addr)
    requires LayoutOk(t, c, fences, top) && top in gone && a in c && Run(c, gone, a, top + c[top].size)
    requires a in t.head && t.head[a].pinuse
    requires forall f :: f in fences ==> f < a || top + c[top].size < f
    requires var n := top + c[top].size - a;
             n % 8 == 0 && t' == t.(head := t.head[a := Head(n, true, false)])
    requires q == a || (q in c && q !in gone)
    ensures ChunkOk(t', (c - gone)[a := Chunk(top + c[top].size - a, false)], fences, a, q)
  {
    assert ChunkOk(t, c, fences, top, q);
    assert ChunkOk(t, c, fences, top, a);
    assert Before(c, q, a);
    var n := q + c[q].size;
    assert q != a && n in gone ==> n == a;
    if !t.head[q].pinuse && q != a {
      var u := q - t.foot[q];
      assert u in c && c[u] == Chunk(t.foot[q], false);
      assert Before(c, u, a) && Before(c, u, q);
      assert u !in gone;
    }
  }

  /** A used chunk is cut into two used chunks. */
  lemma SplitUsed(t: Tags, c: Chunks, fences: set<Addr>, top: Addr, p: Addr, nb: nat, t': Tags)
    requires LayoutOk(t, c, fences, top) && p in c && c[p].inuse
    requires nb % 8 == 0 && 32 <= nb && nb + 32 <= c[p].size && p in t.head
    requires t'.foot == t.foot
    requires t'.head == t.head[p := t.head[p].(size := nb)][p + nb := Head(c[p].size - nb, true, true)]
    ensures p + nb !in c && p + nb !in fences
    ensures LayoutOk(t', c[p := Chunk(nb, true)][p + nb := Chunk(c[p].size - nb, true)], fences, top)
  {
    hide ChunkOk;
    var r := p + nb;
    assert r in c || r in fences ==> Before(c, p, r);
    assert Before(c, p, top) && Before(c, top, p);
    assert top + c[top].size != r && top + c[top].size != p;
    var c' := c[p := Chunk(nb, true)][r := Chunk(c[p].size - nb, true)];
    SplitApart(c, fences, p, nb, c');
    forall q | q in c' ensures ChunkOk(t', c', fences, top, q) {
      SplitUsedChunk(t, c, fences, top, p, nb, t', q);
    }
  }

  lemma SplitUsedChunk(t: Tags, c: Chunks, fences: set<Addr>, top: Addr, p: Addr, nb: nat, t': Tags, q: Addr)
    requires LayoutOk(t, c, fences, top) && p in c && c[p].inuse && p + nb !in c && p + nb !in fences
    requires nb % 8 == 0 && 32 <= nb && nb + 32 <= c[p].size && p in t.head
    requires t'.foot == t.foot
    requires t'.head == t.head[p := t.head[p].(size := nb)][p + nb := Head(c[p].size - nb, true, true)]
    requires q in c || q == p + nb
    ensures ChunkOk(t', c[p := Chunk(nb, true)][p + nb := Chunk(c[p].size - nb, true)], fences, top, q)
  {
    assert ChunkOk(t, c, fences, top, p);
    if q in c {
      assert ChunkOk(t, c, fences, top, q);
      assert Before(c, p, q) && Before(c, q, p);
    }
  }

  /** A used chunk in front of the top grows into it. */
  lemma GrowIntoTop(t: Tags, c: Chunks, fences: set<Addr>, top: Addr, p: Addr, nb: nat, t': Tags)
    requires LayoutOk(t, c, fences, top) && p in c && c[p].inuse && p + c[p].size == top && p in t.head
    requires nb % 8 == 0 && c[p].size < nb < c[p].size + c[top].size && c[p].size >= 32
    requires t'.foot == t.foot
    requires t'.head == t.head[p := t.head[p].(size := nb)][p + nb := Head(c[p].size + c[top].size - nb, true, false)]
    ensures LayoutOk(t', (c - {top})[p := Chunk(nb, true)][p + nb := Chunk(c[p].size + c[top].size - nb, false)],
                     fences, p + nb)
  {
    hide ChunkOk;
    var r := p + nb;
    assert r in c || r in fences ==> Before(c, top, r);
    var c' := (c - {top})[p := Chunk(nb, true)][r := Chunk(c[p].size + c[top].size - nb, false)];
    forall q, u | q in c' && (u in c' || u in fences) ensures Before(c', q, u) {
      assert q in c && (u in c || u in fences) ==> Before(c, q, u);
      assert q in c ==> Before(c, q, top) && Before(c, top, q) && Before(c, q, p) && Before(c, p, q);
      assert u in c || u in fences ==> Before(c, top, u) && Before(c, p, u);
    }
    forall q | q in c' ensures ChunkOk(t', c', fences, r, q) {
      GrowChunk(t, c, fences, top, p, nb, t', q);
    }
  }

  lemma GrowChunk(t: Tags, c: Chunks, fences: set<Addr>, top: Addr, p: Addr, nb: nat, t': Tags, q: Addr)
    requires LayoutOk(t, c, fences, top) && p in c && c[p].inuse && p + c[p].size == top && p in t.head
    requires nb % 8 == 0 && c[p].size < nb < c[p].size + c[top].size && c[p].size >= 32
    requires t'.foot == t.foot && p + nb !in c && p + nb !in fences
    requires t'.head == t.head[p := t.head[p].(size := nb)][p + nb := Head(c[p].size + c[top].size - nb, true, false)]
    requires q == p + nb || (q in c && q != top)
    ensures ChunkOk(t', (c - {top})[p := Chunk(nb, true)][p + nb := Chunk(c[p].size + c[top].size - nb, false)],
                    fences, p + nb, q)
  {
    assert ChunkOk(t, c, fences, top, top) && ChunkOk(t, c, fences, top, p);
    if q in c {
      assert ChunkOk(t, c, fences, top, q);
      assert Before(c, p, q) && Before(c, q, p) && Before(c, q, top) && Before(c, top, q);
      assert !t.head[q].pinuse ==> t.foot[q] != 0;
    }
  }

  /** The top is given another size; nothing else lies behind it. */
  lemma ResizeTop(t: Tags, c: Chunks, fences: set<Addr>, top: Addr, n: nat, t': Tags)
    requires LayoutOk(t, c, fences, top) && n > 0 && n % 8 == 0
    requires forall q :: q in c || q in fences ==> q <= top || q > top + n
    requires t' == t.(head := t.head[top := Head(n, true, false)])
    ensures LayoutOk(t', c[top := Chunk(n, false)], fences, top)
  {
    var c' := c[top := Chunk(n, false)];
    forall q, u | q in c' && (u in c' || u in fences) ensures Before(c', q, u) {
      assert Before(c, q, u);
    }
    forall q | q in c' ensures ChunkOk(t', c', fences, top, q) {
      assert ChunkOk(t, c, fences, top, q) && ChunkOk(t, c, fences, top, top);
      assert Before(c, q, top);
    }
  }
}
