/** The bitwise tries of the large bins (lj_alloc.c): one binary tree per bin, whose
    nodes are chunks linked by child and parent words. A ghost view gives each node
    its position; the words must say exactly what the view says. */
module AllocTrie {
  import opened AllocBits
  import opened AllocRings

  /** The tree part of the allocator state: treebins, treemap and the tree words. */
  datatype Tree = Tree(root: seq<Addr>, marks: set<nat>, child0: map<Addr, Addr>, child1: map<Addr, Addr>,
                       parent: map<Addr, Addr>, index: map<Addr, nat>)

  /** The position of a node: its bin and its place in the tree of that bin. */
  datatype Key = Key(bin: nat, path: Path)

  datatype View = View(pos: map<Key, Addr>, key: map<Addr, Key>)

  /** The address of treebins[i], which a root has as its parent. */
  function RootSlot(i: nat): Addr { -100 - i }

  function Look(pos: map<Key, Addr>, k: Key): Addr {
    if k in pos then pos[k] else 0
  }

  /** The address of the chunk or bin that points at position k. */
  function Above(pos: map<Key, Addr>, k: Key): Addr {
    if k.path.Top? then RootSlot(k.bin) else Look(pos, Key(k.bin, k.path.up))
  }

  ghost predicate ViewOk(v: View) {
    && (forall x {:trigger v.key[x]} :: x in v.key ==> x > 0 && v.key[x] in v.pos && v.pos[v.key[x]] == x)
    && (forall k {:trigger v.pos[k]} :: k in v.pos ==> v.pos[k] in v.key && v.key[v.pos[k]] == k)
    && (forall k {:trigger v.pos[k]} :: k in v.pos ==> k.bin < 32)
    && (forall i, p {:trigger Key(i, Left(p))} :: Key(i, Left(p)) in v.pos ==> Key(i, p) in v.pos)
    && (forall i, p {:trigger Key(i, Right(p))} :: Key(i, Right(p)) in v.pos ==> Key(i, p) in v.pos)
  }

  ghost predicate NodeOk(t: Tree, v: View, x: Addr)
    requires x in v.key
  {
    var k := v.key[x];
    && x in t.child0 && t.child0[x] == Look(v.pos, Key(k.bin, Left(k.path)))
    && x in t.child1 && t.child1[x] == Look(v.pos, Key(k.bin, Right(k.path)))
    && x in t.parent && t.parent[x] == Above(v.pos, k)
    && x in t.index && t.index[x] == k.bin
  }

  ghost predicate TreeOk(t: Tree, v: View) {
    && ViewOk(v)
    && |t.root| == 32
    && (forall i :: 0 <= i < 32 ==> t.root[i] == Look(v.pos, Key(i, Top)))
    && (forall i: nat :: i in t.marks <==> i < 32 && Key(i, Top) in v.pos)
    && (forall x :: x in v.key ==> NodeOk(t, v, x))
  }

  ghost function AddView(v: View, x: Addr, k: Key): View {
    View(v.pos[k := x], v.key[x := k])
  }

  ghost function DropView(v: View, x: Addr): View
    requires x in v.key
  {
    View(v.pos - {v.key[x]}, v.key - {x})
  }

  ghost function SwapView(v: View, x: Addr, r: Addr): View
    requires x in v.key
  {
    View(v.pos[v.key[x] := r], (v.key - {x})[r := v.key[x]])
  }

  /** The tree once the word that points at position k holds y. */
  function SetSlot(t: Tree, u: Addr, k: Key, y: Addr): Tree
    requires |t.root| == 32 && k.bin < 32
  {
    match k.path
    case Top => t.(root := t.root[k.bin := y])
    case Left(_) => t.(child0 := t.child0[u := y])
    case Right(_) => t.(child1 := t.child1[u := y])
  }

  function AddTree(t: Tree, u: Addr, k: Key, x: Addr): Tree
    requires |t.root| == 32 && k.bin < 32
  {
    var s := SetSlot(t, u, k, x);
    s.(marks := if k.path.Top? then s.marks + {k.bin} else s.marks,
       child0 := s.child0[x := 0], child1 := s.child1[x := 0],
       parent := s.parent[x := u], index := s.index[x := k.bin])
  }

  lemma AddViewOk(v: View, x: Addr, k: Key)
    requires ViewOk(v) && x > 0 && x !in v.key && k !in v.pos && k.bin < 32
    requires k.path.Top? || Key(k.bin, k.path.up) in v.pos
    ensures ViewOk(AddView(v, x, k))
    ensures Key(k.bin, Left(k.path)) !in v.pos && Key(k.bin, Right(k.path)) !in v.pos
  {
  }

  /** A new node under an empty slot. */
  lemma AddNode(t: Tree, v: View, x: Addr, k: Key)
    requires TreeOk(t, v) && x > 0 && x !in v.key && k !in v.pos && k.bin < 32
    requires k.path.Top? || Key(k.bin, k.path.up) in v.pos
    ensures TreeOk(AddTree(t, Above(v.pos, k), k, x), AddView(v, x, k))
  {
    hide NodeOk, ViewOk;
    var t', w := AddTree(t, Above(v.pos, k), k, x), AddView(v, x, k);
    AddViewOk(v, x, k);
    AddNodeNew(t, v, x, k);
    forall y | y in w.key ensures NodeOk(t', w, y) {
      if y != x {
        AddNodeOld(t, v, x, k, y);
      }
    }
  }

  lemma AddNodeNew(t: Tree, v: View, x: Addr, k: Key)
    requires TreeOk(t, v) && x > 0 && x !in v.key && k !in v.pos && k.bin < 32
    requires k.path.Top? || Key(k.bin, k.path.up) in v.pos
    ensures NodeOk(AddTree(t, Above(v.pos, k), k, x), AddView(v, x, k), x)
  {
    if !k.path.Top? {
      assert v.key[v.pos[Key(k.bin, k.path.up)]] == Key(k.bin, k.path.up);
    }
  }

  lemma AddNodeOld(t: Tree, v: View, x: Addr, k: Key, y: Addr)
    requires TreeOk(t, v) && x > 0 && x !in v.key && k !in v.pos && k.bin < 32 && y in v.key
    requires k.path.Top? || Key(k.bin, k.path.up) in v.pos
    ensures NodeOk(AddTree(t, Above(v.pos, k), k, x), AddView(v, x, k), y)
  {
    assert NodeOk(t, v, y);
    assert v.pos[v.key[y]] == y;
    if !k.path.Top? {
      assert v.key[v.pos[Key(k.bin, k.path.up)]] == Key(k.bin, k.path.up);
    }
  }

  function DropTree(t: Tree, x: Addr, k: Key): Tree
    requires |t.root| == 32 && k.bin < 32 && x in t.parent
  {
    var s := SetSlot(t, t.parent[x], k, 0);
    s.(marks := if k.path.Top? then s.marks - {k.bin} else s.marks)
  }

  lemma DropViewOk(v: View, x: Addr)
    requires ViewOk(v) && x in v.key
    requires Key(v.key[x].bin, Left(v.key[x].path)) !in v.pos && Key(v.key[x].bin, Right(v.key[x].path)) !in v.pos
    ensures ViewOk(DropView(v, x))
  {
  }

  lemma NoNode(v: View, k: Key)
    requires ViewOk(v)
    ensures Look(v.pos, k) == 0 <==> k !in v.pos
  {
    if k in v.pos {
      assert v.key[v.pos[k]] == k;
    }
  }

  /** A node without children goes. */
  lemma RemoveLeaf(t: Tree, v: View, x: Addr)
    requires TreeOk(t, v) && x in v.key && t.child0[x] == 0 && t.child1[x] == 0
    ensures v.key[x].bin < 32
    ensures TreeOk(DropTree(t, x, v.key[x]), DropView(v, x))
  {
    var k := v.key[x];
    assert NodeOk(t, v, x);
    assert v.pos[k] == x;
    var w := DropView(v, x);
    var t' := DropTree(t, x, k);
    NoNode(v, Key(k.bin, Left(k.path)));
    NoNode(v, Key(k.bin, Right(k.path)));
    DropViewOk(v, x);
    forall y | y in w.key ensures NodeOk(t', w, y) {
      assert NodeOk(t, v, y);
      assert v.pos[v.key[y]] == y;
      if !k.path.Top? {
        assert v.key[v.pos[Key(k.bin, k.path.up)]] == Key(k.bin, k.path.up);
      }
    }
  }

  /** The tree once r has been given the slot, the parent and the children of x. */
  function SwapTree(t: Tree, x: Addr, r: Addr, k: Key): Tree
    requires |t.root| == 32 && k.bin < 32 && x in t.parent && x in t.child0 && x in t.child1
  {
    var s := SetSlot(t, t.parent[x], k, r);
    var c0, c1 := t.child0[x], t.child1[x];
    var p := s.parent[r := t.parent[x]];
    var p0 := if c0 != 0 then p[c0 := r] else p;
    s.(child0 := s.child0[r := c0], child1 := s.child1[r := c1],
       parent := if c1 != 0 then p0[c1 := r] else p0)
  }

  lemma SwapViewOk(v: View, x: Addr, r: Addr)
    requires ViewOk(v) && x in v.key && r > 0 && r !in v.key
    ensures ViewOk(SwapView(v, x, r))
  {
  }

  lemma ReplaceNode(t: Tree, v: View, x: Addr, r: Addr)
    requires TreeOk(t, v) && x in v.key && r > 0 && r !in v.key
    requires r in t.index && t.index[r] == v.key[x].bin
    ensures NodeOk(t, v, x) && v.key[x].bin < 32
    ensures TreeOk(SwapTree(t, x, r, v.key[x]), SwapView(v, x, r))
  {
    assert v.pos[v.key[x]] == x;
    var w := SwapView(v, x, r);
    var t' := SwapTree(t, x, r, v.key[x]);
    SwapViewOk(v, x, r);
    forall y | y in w.key ensures NodeOk(t', w, y) {
      if y != r {
        ReplaceOther(t, v, x, r, y);
      }
    }
  }

  lemma ReplaceOther(t: Tree, v: View, x: Addr, r: Addr, y: Addr)
    requires TreeOk(t, v) && x in v.key && r > 0 && r !in v.key && v.key[x].bin < 32
    requires y in v.key && y != x && NodeOk(t, v, x)
    ensures NodeOk(SwapTree(t, x, r, v.key[x]), SwapView(v, x, r), y)
  {
    assert NodeOk(t, v, y);
    assert v.pos[v.key[y]] == y && v.pos[v.key[x]] == x;
    ReplaceDown(t, v, x, r, y);
    ReplaceUp(t, v, x, r, y);
  }

  lemma ReplaceDown(t: Tree, v: View, x: Addr, r: Addr, y: Addr)
    requires TreeOk(t, v) && x in v.key && r > 0 && r !in v.key && v.key[x].bin < 32
    requires y in v.key && y != x && NodeOk(t, v, x) && NodeOk(t, v, y)
    ensures var s, q := SwapTree(t, x, r, v.key[x]), v.key[y];
            && y in s.child0 && s.child0[y] == Look(SwapView(v, x, r).pos, Key(q.bin, Left(q.path)))
            && y in s.child1 && s.child1[y] == Look(SwapView(v, x, r).pos, Key(q.bin, Right(q.path)))
  {
    var k := v.key[x];
    assert v.pos[v.key[y]] == y && v.pos[k] == x;
    if !k.path.Top? {
      assert v.key[v.pos[Key(k.bin, k.path.up)]] == Key(k.bin, k.path.up);
    }
  }

  lemma ReplaceUp(t: Tree, v: View, x: Addr, r: Addr, y: Addr)
    requires TreeOk(t, v) && x in v.key && r > 0 && r !in v.key && v.key[x].bin < 32
    requires y in v.key && y != x && NodeOk(t, v, x) && NodeOk(t, v, y)
    ensures var s := SwapTree(t, x, r, v.key[x]);
            y in s.parent && s.parent[y] == Above(SwapView(v, x, r).pos, v.key[y])
  {
    var k, g := v.key[x], v.key[y];
    ChildKeys(t, v, x, y);
    hide TreeOk, ViewOk;
    if g != Key(k.bin, Left(k.path)) && g != Key(k.bin, Right(k.path)) && !g.path.Top? {
      assert Key(g.bin, g.path.up) != k;
    }
  }

  /** The children of x are the nodes at the two positions below it. */
  lemma ChildKeys(t: Tree, v: View, x: Addr, y: Addr)
    requires TreeOk(t, v) && x in v.key && y in v.key && NodeOk(t, v, x)
    ensures var k, g := v.key[x], v.key[y];
            && (y == t.child0[x] <==> g == Key(k.bin, Left(k.path)))
            && (y == t.child1[x] <==> g == Key(k.bin, Right(k.path)))
            && y > 0 && g in v.pos && v.pos[g] == y
  {
    var k := v.key[x];
    var l, q := Key(k.bin, Left(k.path)), Key(k.bin, Right(k.path));
    assert v.pos[v.key[y]] == y;
    assert l in v.pos ==> v.key[v.pos[l]] == l;
    assert q in v.pos ==> v.key[v.pos[q]] == q;
  }
}
