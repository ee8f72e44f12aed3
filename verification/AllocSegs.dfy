/** Segments of the allocator (lj_alloc.c): the memory areas obtained from the system,
    and how the heap grows by extending the top, in front of a segment, or elsewhere. */
module AllocSegs {
  import opened AllocRings
  import opened AllocBins
  import opened AllocLayout

  /** msegment: an area and the address of the record that describes it. */
  datatype Seg = Seg(base: Addr, size: nat, where: Addr)

  /** Room behind the top for a segment record and fenceposts (TOP_FOOT_SIZE). */
  const TOP_FOOT_SIZE: nat := 64

  /** The bytes from a to b belong to segment i, with 16 bytes to spare behind them. */
  ghost predicate In(segs: seq<Seg>, i: nat, a: Addr, b: Addr) {
    i < |segs| && segs[i].base <= a <= b && b + 16 <= segs[i].base + segs[i].size
  }

  ghost predicate Within(segs: seq<Seg>, a: Addr, b: Addr) {
    exists i: nat :: In(segs, i, a, b)
  }

  ghost predicate Disjoint(segs: seq<Seg>) {
    forall i, j :: 0 <= i < j < |segs| ==>
      segs[i].base + segs[i].size <= segs[j].base || segs[j].base + segs[j].size <= segs[i].base
  }

  /** Segment i ends with the top and the spare room behind it. */
  ghost predicate TopSeg(segs: seq<Seg>, i: nat, top: Addr, end: Addr) {
    i < |segs| && segs[i].base <= top <= end && end + TOP_FOOT_SIZE == segs[i].base + segs[i].size
  }

  ghost predicate EndsWithTop(segs: seq<Seg>, top: Addr, end: Addr) {
    exists i: nat :: TopSeg(segs, i, top, end)
  }

  ghost predicate Covers(segs: seq<Seg>, c: Chunks, fences: set<Addr>) {
    && (forall p {:trigger c[p]} :: p in c ==> Within(segs, p, p + c[p].size))
    && (forall f {:trigger f in fences} :: f in fences ==> Within(segs, f, f))
  }

  ghost predicate Starts(segs: seq<Seg>, t: Tags, c: Chunks) {
    forall i {:trigger segs[i]} :: 0 <= i < |segs| ==>
      && segs[i].base > 0 && segs[i].base % 8 == 0 && segs[i].size > 0
      && segs[i].base in c && segs[i].base in t.head && t.head[segs[i].base].pinuse
  }

  ghost predicate NothingBehind(c: Chunks, fences: set<Addr>, top: Addr, end: Addr) {
    forall q {:trigger q in c} {:trigger q in fences} :: (q in c || q in fences) && q > top ==> q >= end + TOP_FOOT_SIZE
  }

  /** Chunks and fenceposts lie in segments; a segment starts with a chunk; behind the
      top there is only the spare room of its segment. */
  ghost predicate SegsOk(t: Tags, c: Chunks, fences: set<Addr>, top: Addr, segs: seq<Seg>) {
    && Disjoint(segs)
    && Covers(segs, c, fences)
    && Starts(segs, t, c)
    && top in c
    && EndsWithTop(segs, top, top + c[top].size)
    && NothingBehind(c, fences, top, top + c[top].size)
  }

  /** Neighbouring chunks lie in the same segment. */
  lemma Together(segs: seq<Seg>, a: Addr, b: Addr, e: Addr)
    requires Disjoint(segs) && Within(segs, a, b) && Within(segs, b, e) && a <= b <= e
    ensures Within(segs, a, e)
  {
    var i: nat :| In(segs, i, a, b);
    var j: nat :| In(segs, j, b, e);
    assert i == j;
    assert In(segs, i, a, e);
  }

  lemma WithinPart(segs: seq<Seg>, a: Addr, b: Addr, a': Addr, b': Addr)
    requires Within(segs, a, b) && a <= a' <= b' <= b
    ensures Within(segs, a', b')
  {
    var i: nat :| In(segs, i, a, b);
    assert In(segs, i, a', b');
  }

  lemma SameTopSeg(segs: seq<Seg>, top: Addr, end: Addr, top': Addr)
    requires Disjoint(segs) && EndsWithTop(segs, top, end) && Within(segs, top', end) && top' <= end
    ensures EndsWithTop(segs, top', end)
  {
    var i: nat :| TopSeg(segs, i, top, end);
    var j: nat :| In(segs, j, top', end);
    assert i == j;
    assert TopSeg(segs, i, top', end);
  }

  /** A change of chunks inside the segments that leaves the end of the top where it was. */
  lemma SegsKeep(t: Tags, c: Chunks, fences: set<Addr>, top: Addr, segs: seq<Seg>, t': Tags, c': Chunks, top': Addr)
    requires SegsOk(t, c, fences, top, segs)
    requires forall p {:trigger c'[p]} :: p in c' ==> Within(segs, p, p + c'[p].size)
    requires Starts(segs, t', c')
    requires top' in c' && top' + c'[top'].size == top + c[top].size
    requires NothingBehind(c', fences, top', top + c[top].size)
    ensures SegsOk(t', c', fences, top', segs)
  {
    hide Within, Disjoint, EndsWithTop, Starts, NothingBehind;
    var e := top + c[top].size;
    assert Within(segs, top', e) by { assert c'[top'] == c'[top']; }
    SameTopSeg(segs, top, e, top');
  }
}
