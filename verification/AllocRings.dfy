/** The circular doubly linked lists of free chunks (lj_alloc.c). All binned chunks
    of one size form one ring; the ring of a small bin also runs through the bin. */
module AllocRings {
  type Addr = int

  /** The fd and bk words, by chunk address. */
  datatype Links = Links(fd: map<Addr, Addr>, bk: map<Addr, Addr>)

  /** A set of chunks that following fd never leaves. */
  ghost predicate Closed(l: Links, s: set<Addr>) {
    forall y {:trigger l.fd[y]} :: y in s ==> y in l.fd && l.fd[y] in s
  }

  /** fd and bk are inverse to each other and stay within one ring; size names the ring. */
  ghost predicate Linked(l: Links, size: map<Addr, int>) {
    && (forall y {:trigger y in size} :: y in size ==> y in l.fd && y in l.bk)
    && (forall y {:trigger l.fd[y]} :: y in size ==> l.fd[y] in size && size[l.fd[y]] == size[y] && l.bk[l.fd[y]] == y)
    && (forall y {:trigger l.bk[y]} :: y in size ==> l.bk[y] in size && size[l.bk[y]] == size[y] && l.fd[l.bk[y]] == y)
  }

  /** Every closed set is a union of whole rings: each ring is a single cycle. */
  ghost predicate Connected(l: Links, size: map<Addr, int>) {
    forall s :: s <= size.Keys && Closed(l, s) ==>
      forall y, z :: y in s && z in size && size[z] == size[y] ==> z in s
  }

  ghost predicate RingsOk(l: Links, size: map<Addr, int>) {
    Linked(l, size) && Connected(l, size)
  }

  /** Link x in behind h, as insert_small_chunk and insert_large_chunk do. */
  function PushAfter(l: Links, h: Addr, x: Addr): Links
    requires h in l.fd
  {
    var f := l.fd[h];
    Links(l.fd[h := x][x := f], l.bk[f := x][x := h])
  }

  /** Link the neighbours of x to each other. */
  function Detach(l: Links, x: Addr): Links
    requires x in l.fd && x in l.bk
  {
    Links(l.fd[l.bk[x] := l.fd[x]], l.bk[l.fd[x] := l.bk[x]])
  }

  function SelfRing(l: Links, x: Addr): Links {
    Links(l.fd[x := x], l.bk[x := x])
  }

  /** A chunk is its own neighbour exactly when its ring has no other member. */
  lemma Alone(l: Links, size: map<Addr, int>, y: Addr)
    requires RingsOk(l, size) && y in size
    ensures l.fd[y] == y <==> l.bk[y] == y
    ensures l.bk[y] == y <==> forall z :: z in size && size[z] == size[y] ==> z == y
  {
    if l.fd[y] == y {
      assert Closed(l, {y});
    }
  }

  /** Both neighbours agree exactly in a ring of one or two. */
  lemma Pair(l: Links, size: map<Addr, int>, y: Addr, h: Addr)
    requires RingsOk(l, size) && y in size && h in size && size[y] == size[h] && y != h
    ensures l.fd[y] == l.bk[y] <==> forall z :: z in size && size[z] == size[y] ==> z == y || z == h
    ensures l.fd[y] == l.bk[y] ==> l.fd[y] == h
  {
    Alone(l, size, y);
    if l.fd[y] == l.bk[y] {
      assert Closed(l, {y, l.fd[y]});
    }
  }

  lemma StartRing(l: Links, size: map<Addr, int>, x: Addr, n: int)
    requires RingsOk(l, size) && x !in size && (forall y :: y in size ==> size[y] != n)
    ensures RingsOk(SelfRing(l, x), size[x := n])
  {
    var m, size' := SelfRing(l, x), size[x := n];
    forall s | s <= size'.Keys && Closed(m, s)
      ensures forall y, z :: y in s && z in size' && size'[z] == size'[y] ==> z in s
    {
      forall y | y in s - {x} ensures l.fd[y] in s - {x} {
        assert m.fd[y] in s;
      }
      assert Closed(l, s - {x});
    }
  }

  lemma PushRing(l: Links, size: map<Addr, int>, h: Addr, x: Addr)
    requires RingsOk(l, size) && h in size && x !in size
    ensures RingsOk(PushAfter(l, h, x), size[x := size[h]])
  {
    var m, size' := PushAfter(l, h, x), size[x := size[h]];
    forall s | s <= size'.Keys && Closed(m, s)
      ensures forall y, z :: y in s && z in size' && size'[z] == size'[y] ==> z in s
    {
      PushClosed(l, size, h, x, s);
    }
  }

  lemma PushClosed(l: Links, size: map<Addr, int>, h: Addr, x: Addr, s: set<Addr>)
    requires RingsOk(l, size) && h in size && x !in size
    requires s <= size.Keys + {x} && Closed(PushAfter(l, h, x), s)
    ensures x in s <==> h in s
    ensures forall y, z :: y in s && y != x && z in size && size[z] == size[y] ==> z in s
  {
    var m := PushAfter(l, h, x);
    var t := s - {x};
    assert Closed(l, t) by {
      forall y | y in t ensures l.fd[y] in t {
        assert m.fd[y] in s;
        if y == h {
          assert m.fd[x] in s;
        }
      }
    }
    if x in s {
      assert m.fd[x] == l.fd[h] && l.fd[h] in t;
    }
    if h in s {
      assert m.fd[h] in s;
    }
  }

  /** A member of a larger ring leaves it. */
  lemma LeaveRing(l: Links, size: map<Addr, int>, y: Addr)
    requires RingsOk(l, size) && y in size && l.bk[y] != y
    ensures RingsOk(Detach(l, y), size - {y})
  {
    DetachLinked(l, size, y);
    forall s | s <= size.Keys - {y} && Closed(Detach(l, y), s)
      ensures forall u, z :: u in s && z in size - {y} && size[z] == size[u] ==> z in s
    {
      DetachClosed(l, size, y, s);
    }
  }

  lemma DetachLinked(l: Links, size: map<Addr, int>, y: Addr)
    requires Linked(l, size) && y in size && l.bk[y] != y
    ensures Linked(Detach(l, y), size - {y})
  {
    var m, size' := Detach(l, y), size - {y};
    assert l.fd[y] != y && l.fd[l.bk[y]] == y && l.bk[l.fd[y]] == y;
    forall z | z in size'
      ensures var f := m.fd[z]; f in size' && size'[f] == size'[z] && f in m.bk && m.bk[f] == z
    {
      var f := l.fd[z];
      assert f in size && f in l.bk && l.bk[f] == z;
    }
    forall z | z in size'
      ensures var b := m.bk[z]; b in size' && size'[b] == size'[z] && b in m.fd && m.fd[b] == z
    {
      var b := l.bk[z];
      assert b in size && b in l.fd && l.fd[b] == z;
    }
  }

  lemma DetachClosed(l: Links, size: map<Addr, int>, y: Addr, s: set<Addr>)
    requires RingsOk(l, size) && y in size && l.bk[y] != y
    requires s <= size.Keys - {y} && Closed(Detach(l, y), s)
    ensures forall u, z :: u in s && z in size && z != y && size[z] == size[u] ==> z in s
  {
    var m := Detach(l, y);
    var t := if l.bk[y] in s then s + {y} else s;
    assert Closed(l, t) by {
      forall u | u in t ensures u in l.fd && l.fd[u] in t {
        if u == y {
          assert m.fd[l.bk[y]] in s;
        } else {
          assert m.fd[u] in s;
        }
      }
    }
  }

  /** A whole ring is dropped. */
  lemma DropRing(l: Links, size: map<Addr, int>, n: int)
    requires RingsOk(l, size)
    ensures RingsOk(l, Drop(size, n))
  {
    forall s | s <= Drop(size, n).Keys && Closed(l, s)
      ensures forall u, z :: u in s && z in Drop(size, n) && size[z] == size[u] ==> z in s
    {
      assert s <= size.Keys;
    }
  }

  /** Everything outside the ring named n. */
  function Drop(size: map<Addr, int>, n: int): map<Addr, int> {
    map y | y in size && size[y] != n :: size[y]
  }
}
