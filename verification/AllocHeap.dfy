/** The heap as a whole (lj_alloc.c): chunks, tags and segments together, and the
    elementary steps of malloc, free and realloc on them. */
module AllocHeap {
  import opened AllocRings
  import opened AllocBins
  import opened AllocLayout
  import opened AllocSegs

  ghost predicate HeapOk(t: Tags, c: Chunks, fences: set<Addr>, top: Addr, segs: seq<Seg>) {
    LayoutOk(t, c, fences, top) && SegsOk(t, c, fences, top, segs)
  }

  lemma HeapParts(t: Tags, c: Chunks, fences: set<Addr>, top: Addr, segs: seq<Seg>)
    requires HeapOk(t, c, fences, top, segs)
    ensures LayoutOk(t, c, fences, top) && SegsOk(t, c, fences, top, segs)
    ensures top in c && !c[top].inuse
  {
  }

  /** What the words around a chunk say. */
  lemma ChunkFacts(t: Tags, c: Chunks, fences: set<Addr>, top: Addr, segs: seq<Seg>, p: Addr)
    requires HeapOk(t, c, fences, top, segs) && p in c
    ensures p > 0 && p % 8 == 0 && c[p].size > 0 && c[p].size % 8 == 0 && (p != top ==> c[p].size >= 32)
    ensures p in t.head && t.head[p].size == c[p].size && t.head[p].cinuse == c[p].inuse
    ensures p != top && !c[p].inuse ==>
              var n := p + c[p].size;
              t.head[p].pinuse && n in c && c[n].inuse && n in t.head && n != top
  {
    hide SegsOk;
    assert ChunkOk(t, c, fences, top, p);
  }

  // ---- the tag words after an elementary step -------------------------------------

  /** The head word found at n, whatever that is. */
  function HeadAt(t: Tags, n: Addr): Head {
    if n in t.head then t.head[n] else Head(0, false, false)
  }

  /** set_inuse_and_pinuse */
  function UseTags(t: Tags, p: Addr, s: nat): Tags {
    Tags(t.head[p := Head(s, true, true)][p + s := HeadAt(t, p + s).(pinuse := true)], t.foot)
  }

  /** set_size_and_pinuse_of_inuse_chunk in front of set_size_and_pinuse_of_free_chunk */
  function SplitTags(t: Tags, p: Addr, s: nat, nb: nat): Tags
    requires nb <= s
  {
    Tags(t.head[p := Head(nb, true, true)][p + nb := Head(s - nb, true, false)], t.foot[p + s := s - nb])
  }

  /** The front of the top is handed out. */
  function SplitTopTags(t: Tags, p: Addr, s: nat, nb: nat): Tags
    requires nb <= s
  {
    Tags(t.head[p + nb := Head(s - nb, true, false)][p := Head(nb, true, true)], t.foot)
  }

  /** set_free_with_pinuse for the chunk from a to b */
  function FreeTags(t: Tags, a: Addr, b: Addr): Tags
    requires a <= b
  {
    Tags(t.head[b := HeadAt(t, b).(pinuse := false)][a := Head(b - a, true, false)], t.foot[b := b - a])
  }

  // ---- steps -----------------------------------------------------------------------

  lemma HeapUse(t: Tags, c: Chunks, fences: set<Addr>, top: Addr, segs: seq<Seg>, p: Addr)
    requires HeapOk(t, c, fences, top, segs) && p in c && !c[p].inuse && p != top
    ensures HeapOk(UseTags(t, p, c[p].size), c[p := c[p].(inuse := true)], fences, top, segs)
  {
    hide LayoutOk, SegsOk, UseTags;
    UseLayout(t, c, fences, top, p);
    UseKeeps(t, c, p, c[p].size);
    UseSegs(t, c, fences, top, segs, UseTags(t, p, c[p].size), c[p := c[p].(inuse := true)]);
  }

  lemma UseLayout(t: Tags, c: Chunks, fences: set<Addr>, top: Addr, p: Addr)
    requires LayoutOk(t, c, fences, top) && p in c && !c[p].inuse && p != top
    ensures LayoutOk(UseTags(t, p, c[p].size), c[p := c[p].(inuse := true)], fences, top)
  {
    hide LayoutOk;
    BehindFree(t, c, fences, top, p);
    UseWhole(t, c, fences, top, p, UseTags(t, p, c[p].size));
  }

  lemma UseKeeps(t: Tags, c: Chunks, p: Addr, s: nat)
    ensures PinuseKept(t, UseTags(t, p, s), c)
  {
  }

  /** Changing flags, and setting pinuse bits, has no effect on segments. */
  lemma UseSegs(t: Tags, c: Chunks, fences: set<Addr>, top: Addr, segs: seq<Seg>, t': Tags, c': Chunks)
    requires SegsOk(t, c, fences, top, segs) && c'.Keys == c.Keys
    requires forall q {:trigger c'[q]} :: q in c ==> c'[q].size == c[q].size
    requires PinuseKept(t, t', c)
    ensures SegsOk(t', c', fences, top, segs)
  {
    hide Within, Disjoint;
    assert Starts(segs, t', c');
    forall q | q in c' ensures Within(segs, q, q + c'[q].size) {
      assert c'[q].size == c[q].size;
    }
    SegsKeep(t, c, fences, top, segs, t', c', top);
  }

  /** The given chunks keep their head words, and with them a set pinuse bit. */
  ghost predicate PinuseKept(t: Tags, t': Tags, c: Chunks) {
    forall q {:trigger t'.head[q]} {:trigger q in t'.head} :: q in c && q in t.head ==>
      q in t'.head && (t.head[q].pinuse ==> t'.head[q].pinuse)
  }

  lemma HeapSplitFree(t: Tags, c: Chunks, fences: set<Addr>, top: Addr, segs: seq<Seg>, p: Addr, nb: nat)
    requires HeapOk(t, c, fences, top, segs) && p in c && !c[p].inuse && p != top
    requires nb % 8 == 0 && 32 <= nb && nb + 32 <= c[p].size
    ensures p + nb !in c
    ensures HeapOk(SplitTags(t, p, c[p].size, nb),
                   c[p := Chunk(nb, true)][p + nb := Chunk(c[p].size - nb, false)], fences, top, segs)
  {
    hide LayoutOk, SegsOk;
    HeapParts(t, c, fences, top, segs);
    BehindFree(t, c, fences, top, p);
    var t', c' := SplitTags(t, p, c[p].size, nb), c[p := Chunk(nb, true)][p + nb := Chunk(c[p].size - nb, false)];
    SplitFree(t, c, fences, top, p, nb, t');
    assert PinuseKept(t, t', c);
    SplitSegs(t, c, fences, top, segs, p, nb, t', c');
  }

  /** Cutting a chunk other than the top in two. */
  lemma SplitSegs(t: Tags, c: Chunks, fences: set<Addr>, top: Addr, segs: seq<Seg>, p: Addr, nb: nat, t': Tags, c': Chunks)
    requires LayoutOk(t, c, fences, top) && SegsOk(t, c, fences, top, segs) && p in c && p != top && 0 < nb < c[p].size && p + nb !in c
    requires c'.Keys == c.Keys + {p + nb} && c'[p].size == nb && c'[p + nb].size == c[p].size - nb
    requires forall q {:trigger c[q]} {:trigger c'[q]} :: q in c && q != p ==> c'[q] == c[q]
    requires PinuseKept(t, t', c)
    ensures SegsOk(t', c', fences, top, segs)
  {
    hide Disjoint, ChunkOk, Within;
    assert Before(c, p, top) && Before(c, top, p);
    SplitWithin(segs, c, fences, p, nb, c');
    SegsKeep(t, c, fences, top, segs, t', c', top);
  }

  lemma SplitWithin(segs: seq<Seg>, c: Chunks, fences: set<Addr>, p: Addr, nb: nat, c': Chunks)
    requires Covers(segs, c, fences) && p in c && 0 < nb < c[p].size && p + nb !in c
    requires c'.Keys == c.Keys + {p + nb} && c'[p].size == nb && c'[p + nb].size == c[p].size - nb
    requires forall q {:trigger c[q]} {:trigger c'[q]} :: q in c && q != p ==> c'[q] == c[q]
    ensures forall q {:trigger c'[q]} :: q in c' ==> Within(segs, q, q + c'[q].size)
  {
    hide Within;
    forall q | q in c' ensures Within(segs, q, q + c'[q].size) {
      assert q in c ==> Within(segs, q, q + c[q].size);
      if q == p || q == p + nb {
        WithinPart(segs, p, p + c[p].size, q, q + c'[q].size);
      }
    }
  }

  lemma HeapSplitTop(t: Tags, c: Chunks, fences: set<Addr>, top: Addr, segs: seq<Seg>, nb: nat)
    requires HeapOk(t, c, fences, top, segs) && nb % 8 == 0 && top in c && 32 <= nb < c[top].size
    ensures top + nb !in c
    ensures HeapOk(SplitTopTags(t, top, c[top].size, nb),
                   c[top := Chunk(nb, true)][top + nb := Chunk(c[top].size - nb, false)], fences, top + nb, segs)
  {
    hide LayoutOk, SegsOk;
    HeapParts(t, c, fences, top, segs);
    var t', c' := SplitTopTags(t, top, c[top].size, nb), c[top := Chunk(nb, true)][top + nb := Chunk(c[top].size - nb, false)];
    SplitTop(t, c, fences, top, nb, t');
    assert PinuseKept(t, t', c);
    SplitTopSegs(t, c, fences, top, segs, nb, t', c');
  }

  lemma SplitTopSegs(t: Tags, c: Chunks, fences: set<Addr>, top: Addr, segs: seq<Seg>, nb: nat, t': Tags, c': Chunks)
    requires SegsOk(t, c, fences, top, segs) && 0 < nb < c[top].size && top + nb !in c
    requires c'.Keys == c.Keys + {top + nb} && c'[top].size == nb && c'[top + nb].size == c[top].size - nb
    requires forall q {:trigger c[q]} {:trigger c'[q]} :: q in c && q != top ==> c'[q] == c[q]
    requires PinuseKept(t, t', c)
    ensures SegsOk(t', c', fences, top + nb, segs)
  {
    hide Disjoint, Within;
    SplitWithin(segs, c, fences, top, nb, c');
    SegsKeep(t, c, fences, top, segs, t', c', top + nb);
  }

  // ---- merging neighbours ------------------------------------------------------------

  /** gone holds one to three consecutive chunks, which reach from a to b. */
  ghost predicate Row(c: Chunks, gone: set<Addr>, a: Addr, b: Addr) {
    && a in c
    && var m := a + c[a].size;
       || (gone == {a} && b == m)
       || (m in c &&
           var n := m + c[m].size;
           || (gone == {a, m} && b == n)
           || (n in c && gone == {a, m, n} && b == n + c[n].size))
  }

  lemma RowIsRun(t: Tags, c: Chunks, fences: set<Addr>, top: Addr, gone: set<Addr>, a: Addr, b: Addr)
    requires LayoutOk(t, c, fences, top) && Row(c, gone, a, b)
    ensures Run(c, gone, a, b)
    ensures forall f {:trigger f in fences} :: f in fences ==> f < a || b <= f
    ensures (b - a) % 8 == 0 && (top !in gone ==> b - a >= 32)
  {
    var m := a + c[a].size;
    assert ChunkOk(t, c, fences, top, a);
    if m in c {
      assert ChunkOk(t, c, fences, top, m);
      var n := m + c[m].size;
      if n in c {
        assert ChunkOk(t, c, fences, top, n);
      }
      forall q | q in c || q in fences
        ensures Before(c, a, q) && Before(c, m, q) && (n in c ==> Before(c, n, q))
      {
      }
    } else {
      forall q | q in c || q in fences ensures Before(c, a, q) {
      }
    }
  }

  /** A row of chunks lies in one segment, and only its first chunk can start one. */
  lemma RowWithin(t: Tags, c: Chunks, fences: set<Addr>, top: Addr, segs: seq<Seg>, gone: set<Addr>, a: Addr, b: Addr)
    requires LayoutOk(t, c, fences, top) && SegsOk(t, c, fences, top, segs) && Row(c, gone, a, b)
    ensures Within(segs, a, b)
    ensures forall i {:trigger segs[i]} :: 0 <= i < |segs| && segs[i].base in gone ==> segs[i].base == a
  {
    hide ChunkOk, Within, Disjoint, Apart, NothingBehind, EndsWithTop;
    var m := a + c[a].size;
    SizePositive(t, c, fences, top, a);
    NotAStart(segs, a, m);
    if m in c {
      var n := m + c[m].size;
      SizePositive(t, c, fences, top, m);
      Together(segs, a, m, n);
      NotAStart(segs, a, n);
      if n in c {
        Together(segs, a, n, n + c[n].size);
      }
    }
  }

  /** No segment starts where a chunk ends. */
  lemma NotAStart(segs: seq<Seg>, a: Addr, m: Addr)
    requires Disjoint(segs) && Within(segs, a, m) && a < m
    ensures forall i {:trigger segs[i]} :: 0 <= i < |segs| ==> segs[i].base != m
  {
    var j: nat :| In(segs, j, a, m);
  }

  /** A row of chunks, between used chunks or the start of a segment, becomes one free chunk. */
  lemma HeapCoalesce(t: Tags, c: Chunks, fences: set<Addr>, top: Addr, segs: seq<Seg>, gone: set<Addr>, a: Addr, b: Addr)
    requires HeapOk(t, c, fences, top, segs) && Row(c, gone, a, b) && top !in gone
    requires a in t.head && t.head[a].pinuse && b in c && c[b].inuse && b in t.head && a <= b
    ensures HeapOk(FreeTags(t, a, b), (c - gone)[a := Chunk(b - a, false)], fences, top, segs)
  {
    hide LayoutOk, SegsOk, Row;
    HeapParts(t, c, fences, top, segs);
    RowIsRun(t, c, fences, top, gone, a, b);
    RowWithin(t, c, fences, top, segs, gone, a, b);
    assert a in c by { RowStart(c, gone, a, b); }
    Coalesce(t, c, fences, top, gone, a, b, FreeTags(t, a, b));
    CoalesceSegs(t, c, fences, top, segs, gone, a, b);
  }

  lemma RowStart(c: Chunks, gone: set<Addr>, a: Addr, b: Addr)
    requires Row(c, gone, a, b)
    ensures a in c && a in gone && gone <= c.Keys
  {
  }

  lemma CoalesceSegs(t: Tags, c: Chunks, fences: set<Addr>, top: Addr, segs: seq<Seg>, gone: set<Addr>, a: Addr, b: Addr)
    requires LayoutOk(t, c, fences, top) && SegsOk(t, c, fences, top, segs) && Run(c, gone, a, b) && top !in gone
    requires Within(segs, a, b) && forall i {:trigger segs[i]} :: 0 <= i < |segs| && segs[i].base in gone ==> segs[i].base == a
    requires a in t.head && b in c && c[b].inuse && b in t.head && a <= b
    ensures SegsOk(FreeTags(t, a, b), (c - gone)[a := Chunk(b - a, false)], fences, top, segs)
  {
    hide Within, Disjoint, ChunkOk, Apart;
    var t', c' := FreeTags(t, a, b), (c - gone)[a := Chunk(b - a, false)];
    assert forall q :: q in c' && q != a ==> c'[q] == c[q];
    forall i | 0 <= i < |segs|
      ensures segs[i].base in c' && segs[i].base in t'.head && t'.head[segs[i].base].pinuse
    {
      EndIsNoStart(t, c, fences, top, segs, gone, a, b, i);
    }
    assert a != top;
    SegsKeep(t, c, fences, top, segs, t', c', top);
  }

  lemma EndIsNoStart(t: Tags, c: Chunks, fences: set<Addr>, top: Addr, segs: seq<Seg>, gone: set<Addr>, a: Addr, b: Addr, i: nat)
    requires SegsOk(t, c, fences, top, segs) && Within(segs, a, b) && a < b && i < |segs|
    ensures segs[i].base != b
  {
    hide Within;
    NotAStart(segs, a, b);
  }

  /** A row of chunks that ends with the top becomes the top. */
  lemma HeapCoalesceTop(t: Tags, c: Chunks, fences: set<Addr>, top: Addr, segs: seq<Seg>, gone: set<Addr>, a: Addr)
    requires HeapOk(t, c, fences, top, segs) && top in gone && top in c && Row(c, gone, a, top + c[top].size)
    requires a in t.head && t.head[a].pinuse && a <= top
    ensures HeapOk(t.(head := t.head[a := Head(top + c[top].size - a, true, false)]),
                   (c - gone)[a := Chunk(top + c[top].size - a, false)], fences, a, segs)
  {
    hide LayoutOk, SegsOk, Row;
    HeapParts(t, c, fences, top, segs);
    var b := top + c[top].size;
    RowIsRun(t, c, fences, top, gone, a, b);
    RowWithin(t, c, fences, top, segs, gone, a, b);
    RowStart(c, gone, a, b);
    assert b !in fences by { assert LayoutOk(t, c, fences, top); TopEnd(t, c, fences, top); }
    CoalesceTop(t, c, fences, top, gone, a, t.(head := t.head[a := Head(b - a, true, false)]));
    CoalesceTopSegs(t, c, fences, top, segs, gone, a);
  }

  lemma TopEnd(t: Tags, c: Chunks, fences: set<Addr>, top: Addr)
    requires LayoutOk(t, c, fences, top)
    ensures top + c[top].size !in fences && top + c[top].size !in c
  {
  }

  lemma CoalesceTopSegs(t: Tags, c: Chunks, fences: set<Addr>, top: Addr, segs: seq<Seg>, gone: set<Addr>, a: Addr)
    requires LayoutOk(t, c, fences, top) && SegsOk(t, c, fences, top, segs) && Run(c, gone, a, top + c[top].size)
    requires top in gone && a <= top && forall f {:trigger f in fences} :: f in fences ==> f < a || top + c[top].size <= f
    requires Within(segs, a, top + c[top].size)
    requires forall i {:trigger segs[i]} :: 0 <= i < |segs| && segs[i].base in gone ==> segs[i].base == a
    ensures SegsOk(t.(head := t.head[a := Head(top + c[top].size - a, true, false)]),
                   (c - gone)[a := Chunk(top + c[top].size - a, false)], fences, a, segs)
  {
    hide Within, Disjoint, ChunkOk, Apart;
    var b := top + c[top].size;
    var t', c' := t.(head := t.head[a := Head(b - a, true, false)]), (c - gone)[a := Chunk(b - a, false)];
    assert forall q :: q in c' && q != a ==> c'[q] == c[q];
    assert NothingBehind(c', fences, a, b) by {
      forall q | (q in c' || q in fences) && q > a ensures q >= b + TOP_FOOT_SIZE {
        assert q in c || q in fences;
        assert q in c ==> (q in gone <==> a <= q < b);
      }
    }
    SegsKeep(t, c, fences, top, segs, t', c', a);
  }

  /** set_inuse on the front nb bytes of a used chunk and on the rest. */
  function SplitUsedTags(t: Tags, p: Addr, s: nat, nb: nat): Tags
    requires nb <= s && p in t.head
  {
    t.(head := t.head[p := t.head[p].(size := nb)][p + nb := Head(s - nb, true, true)])
  }

  lemma HeapSplitUsed(t: Tags, c: Chunks, fences: set<Addr>, top: Addr, segs: seq<Seg>, p: Addr, nb: nat)
    requires HeapOk(t, c, fences, top, segs) && p in c && c[p].inuse && p in t.head
    requires nb % 8 == 0 && 32 <= nb && nb + 32 <= c[p].size
    ensures p + nb !in c
    ensures HeapOk(SplitUsedTags(t, p, c[p].size, nb),
                   c[p := Chunk(nb, true)][p + nb := Chunk(c[p].size - nb, true)], fences, top, segs)
  {
    hide LayoutOk, SegsOk;
    HeapParts(t, c, fences, top, segs);
    var t', c' := SplitUsedTags(t, p, c[p].size, nb), c[p := Chunk(nb, true)][p + nb := Chunk(c[p].size - nb, true)];
    SplitUsed(t, c, fences, top, p, nb, t');
    SplitUsedKeeps(t, c, p, c[p].size, nb);
    SplitSegs(t, c, fences, top, segs, p, nb, t', c');
  }

  lemma SplitUsedKeeps(t: Tags, c: Chunks, p: Addr, s: nat, nb: nat)
    requires nb <= s && p in t.head
    ensures PinuseKept(t, SplitUsedTags(t, p, s, nb), c)
  {
  }

  function GrowTags(t: Tags, p: Addr, s: nat, nb: nat): Tags
    requires nb <= s && p in t.head
  {
    t.(head := t.head[p := t.head[p].(size := nb)][p + nb := Head(s - nb, true, false)])
  }

  /** A used chunk in front of the top grows into it; s is the size of both together. */
  lemma HeapGrow(t: Tags, c: Chunks, fences: set<Addr>, top: Addr, segs: seq<Seg>, p: Addr, nb: nat, s: nat)
    requires HeapOk(t, c, fences, top, segs) && p in c && c[p].inuse && p + c[p].size == top && p in t.head && top in c
    requires nb % 8 == 0 && c[p].size < nb < s && s == c[p].size + c[top].size
    ensures HeapOk(GrowTags(t, p, s, nb), (c - {top})[p := Chunk(nb, true)][p + nb := Chunk(s - nb, false)],
                   fences, p + nb, segs)
  {
    hide LayoutOk, SegsOk;
    HeapParts(t, c, fences, top, segs);
    SizePositive(t, c, fences, top, p);
    var t', c' := GrowTags(t, p, s, nb), (c - {top})[p := Chunk(nb, true)][p + nb := Chunk(s - nb, false)];
    GrowIntoTop(t, c, fences, top, p, nb, t');
    GrowSegs(t, c, fences, top, segs, p, nb, s, t', c');
  }

  lemma GrowSegs(t: Tags, c: Chunks, fences: set<Addr>, top: Addr, segs: seq<Seg>, p: Addr, nb: nat, s: nat, t': Tags, c': Chunks)
    requires LayoutOk(t, c, fences, top) && SegsOk(t, c, fences, top, segs) && p in c && p + c[p].size == top && p in t.head
    requires c[p].size < nb < s && s == c[p].size + c[top].size && c[p].size > 0
    requires t' == GrowTags(t, p, s, nb) && c' == (c - {top})[p := Chunk(nb, true)][p + nb := Chunk(s - nb, false)]
    ensures SegsOk(t', c', fences, p + nb, segs)
  {
    hide Within, Disjoint, ChunkOk;
    Together(segs, p, top, top + c[top].size);
    NotAStart(segs, p, top);
    forall q | q in c' ensures Within(segs, q, q + c'[q].size) {
      if q == p || q == p + nb {
        WithinPart(segs, p, p + s, q, q + c'[q].size);
      } else {
        assert c'[q] == c[q];
      }
    }
    assert p + nb in c ==> Before(c, top, p + nb);
    SegsKeep(t, c, fences, top, segs, t', c', p + nb);
  }
}
