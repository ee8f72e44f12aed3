/** The string buffer (lj_buf.c, lib_buffer.c): a byte queue between a read and a write pointer
    into memory that grows, is compacted, or belongs to a string until it is written to. */
module Buffer {
  type Byte = x: int | 0 <= x < 256

  const LJ_MAX_BUF: nat := 0x7FFF_FF00
  const LJ_MIN_SBUF: nat := 32
  /** Sizes have 32 bits. */
  const MSIZE: nat := 0x1_0000_0000

  /** How a call ends: well, with an error, or with a size that no longer fits 32 bits. */
  datatype Outcome = Done | NoMemory | BadArg | Wraps

  datatype Arg = NilArg | Num(n: int)

  // ---- the sizes -----------------------------------------------------------------------

  /** n doubled until it is at least sz. */
  function Doubled(n: nat, sz: nat): (d: nat)
    requires n > 0
    ensures d >= n && d >= sz && (d == n || d < 2 * sz)
    decreases sz - n
  {
    if n >= sz then n else Doubled(n + n, sz)
  }

  /** The size buf_grow chooses. */
  function NewSize(osz: nat, sz: nat): (d: nat)
    ensures d >= osz && d >= sz && (d < 2 * sz || d == osz || d == LJ_MIN_SBUF)
  {
    Doubled(if osz < LJ_MIN_SBUF then LJ_MIN_SBUF else osz, sz)
  }

  /** lj_buf_more2 enlarges the memory even if there is room, to keep compactions rare. */
  predicate LittleSlack(size: nat, r: nat, cow: bool) { cow || r < size / 8 }

  /** What becomes of a request for sz free bytes. */
  function MoreOutcome(size: nat, r: nat, w: nat, cow: bool, sz: nat): Outcome
    requires r <= w <= size
  {
    if sz <= size - w then Done
    else if sz > LJ_MAX_BUF then NoMemory
    else if w - r + sz >= MSIZE then Wraps
    else if w - r + sz > LJ_MAX_BUF then NoMemory
    else if w - r + sz <= size && LittleSlack(size, r, cow) && (w + sz >= MSIZE || NewSize(size, w + sz) >= MSIZE) then Wraps
    else Done
  }

  /** Sizes wrap exactly for buffers of 2 GiB and more: when the length with the request does,
      or when a buffer with room for the request is nevertheless to be doubled. */
  lemma WrapsExactly(size: nat, r: nat, w: nat, cow: bool, sz: nat)
    requires r <= w <= size < MSIZE && (cow ==> w == size <= LJ_MAX_BUF)
    ensures MoreOutcome(size, r, w, cow, sz) == Wraps <==>
              && size - w < sz <= LJ_MAX_BUF && size >= 0x8000_0000
              && (w - r + sz >= MSIZE || (w - r + sz <= LJ_MAX_BUF && r < size / 8))
  {
    if size - w < sz && w - r + sz <= LJ_MAX_BUF && w - r + sz <= size && LittleSlack(size, r, cow) {
      OneDoubling(size, w + sz);
    }
  }

  /** Below 2 GiB no size wraps: a request is met exactly if there is room for it, or if the content
      and the request together are within the limit. */
  lemma MeetsRequests(size: nat, r: nat, w: nat, cow: bool, sz: nat)
    requires r <= w <= size < 0x8000_0000 && (cow ==> w == size <= LJ_MAX_BUF)
    ensures MoreOutcome(size, r, w, cow, sz) == if sz <= size - w || w - r + sz <= 0x7FFF_FF00 then Done else NoMemory
  {
    if MoreOutcome(size, r, w, cow, sz) == Wraps {
      WrapsExactly(size, r, w, cow, sz);
    }
  }

  lemma OneDoubling(size: nat, sz: nat)
    requires size < sz <= 2 * size
    ensures NewSize(size, sz) == if size < LJ_MIN_SBUF then (if sz <= LJ_MIN_SBUF then LJ_MIN_SBUF else 2 * LJ_MIN_SBUF) else 2 * size
  {
    assert Doubled(2 * LJ_MIN_SBUF, sz) == 2 * LJ_MIN_SBUF || size >= LJ_MIN_SBUF;
    assert Doubled(2 * size, sz) == 2 * size;
  }

  /** A buffer of 2 GiB that is nearly full: the request would fit if the buffer were compacted,
      but the size is doubled, and is 0 afterwards. */
  lemma WrapsExample()
    ensures MoreOutcome(0x8000_0000, 0x100_0000, 0x8000_0000, false, 16) == Wraps
    ensures 0x8000_0000 - 0x100_0000 + 16 <= LJ_MAX_BUF && (0x8000_0000 + 0x8000_0000) % MSIZE == 0
  {
    WrapsExactly(0x8000_0000, 0x100_0000, 0x8000_0000, false, 16);
  }

  // ---- the buffer ------------------------------------------------------------------------

  class SBufExt {
    var b: array<Byte>
    var r: nat
    var w: nat
    /** The memory is that of a string, and must not be written to. */
    var cow: bool
    /** All bytes ever put and ever taken out. */
    ghost var written: seq<Byte>
    ghost var taken: seq<Byte>

    ghost predicate Shape()
      reads this
    {
      r <= w <= b.Length < MSIZE && (cow ==> w == b.Length <= LJ_MAX_BUF)
    }

    ghost function Content(): (s: seq<Byte>)
      requires Shape()
      reads this, b
    {
      b[r..w]
    }

    /** The buffer is a queue: what was taken out is what was put in first. */
    ghost predicate Valid()
      reads this, b
    {
      Shape() && written == taken + Content()
    }

    /** lj_bufx_init */
    constructor ()
      ensures Valid() && Content() == [] && written == [] && fresh(b)
    {
      b := new Byte[0];
      r, w, cow, written, taken := 0, 0, false, [], [];
    }

    /** buf_grow: new memory with the old contents. */
    method BufGrow(sz: nat)
      requires Shape() && b.Length < sz && NewSize(b.Length, sz) < MSIZE
      modifies this`b, this`cow
      ensures Shape() && fresh(b) && !cow && b.Length == NewSize(old(b.Length), sz)
      ensures Content() == old(Content())
    {
      var osz, nsz := b.Length, b.Length;
      if nsz < LJ_MIN_SBUF {
        nsz := LJ_MIN_SBUF;
      }
      while nsz < sz
        invariant nsz >= osz && nsz > 0 && Doubled(nsz, sz) == NewSize(osz, sz)
        decreases sz - nsz
      {
        nsz := nsz + nsz;
      }
      var m := new Byte[nsz];
      var i := 0;
      while i < osz
        invariant b == old(b) && b[..] == old(b[..]) && 0 <= i <= osz
        invariant m[..i] == b[..i]
      {
        m[i] := b[i];
        i := i + 1;
      }
      assert m[r..w] == b[r..w];
      b, cow := m, false;
    }

    /** The memmove of lj_buf_more2: the content moves down to the base. */
    method Compact()
      requires Shape() && !cow
      modifies this`r, this`w, b
      ensures Shape() && Content() == old(Content()) && r == 0 && w == old(w - r)
    {
      var len, i := w - r, 0;
      ghost var s := b[..];
      while i < len
        invariant 0 <= i <= len && r == old(r) && w == old(w)
        invariant forall k {:trigger b[k]} :: 0 <= k < i ==> b[k] == s[r + k]
        invariant forall k {:trigger b[k]} :: r + i <= k < w ==> b[k] == s[k]
      {
        b[i] := b[r + i];
        i := i + 1;
      }
      assert b[..len] == s[r..w];
      r, w := 0, len;
    }

    /** lj_buf_more and lj_buf_more2: there are sz free bytes behind the content, which has not
        changed; a string that holds it is left alone. */
    method More(sz: nat) returns (out: Outcome)
      requires Shape()
      modifies this`b, this`r, this`w, this`cow, b
      ensures Shape() && Content() == old(Content()) && (b == old(b) || fresh(b))
      ensures out == old(MoreOutcome(b.Length, r, w, cow, sz))
      ensures out == Done ==> sz <= b.Length - w && (sz > 0 ==> !cow)
      ensures old(cow) ==> old(b)[..] == old(b[..])
      ensures old(cow) && !cow ==> fresh(b)
      ensures sz <= old(b.Length - w) ==> unchanged(this) && b[..] == old(b[..])
      ensures !old(cow) && old(w - r) + sz <= old(b.Length) && old(r) >= old(b.Length) / 8 ==> b == old(b)
      ensures out != Done ==> unchanged(this) && old(b)[..] == old(b[..])
    {
      hide NewSize;
      if sz <= b.Length - w {
        return Done;
      }
      var len := w - r;
      if sz > LJ_MAX_BUF {
        return NoMemory;
      }
      if len + sz >= MSIZE {
        return Wraps;
      }
      if len + sz > LJ_MAX_BUF {
        return NoMemory;
      }
      if len + sz > b.Length {
        BufGrow(len + sz);
      } else if cow || r < b.Length / 8 {
        if w + sz >= MSIZE || NewSize(b.Length, w + sz) >= MSIZE {
          return Wraps;
        }
        BufGrow(w + sz);
        return Done;
      }
      if r != 0 {
        Compact();
      }
      out := Done;
    }

    /** lj_buf_putmem, and put with a string */
    method Put(q: seq<Byte>) returns (out: Outcome)
      requires Valid()
      modifies this, b
      ensures Valid() && out == old(MoreOutcome(b.Length, r, w, cow, |q|)) && taken == old(taken) && (b == old(b) || fresh(b))
      ensures Content() == if out == Done then old(Content()) + q else old(Content())
      ensures old(cow) ==> old(b)[..] == old(b[..])
    {
      out := More(|q|);
      if out == Done {
        Append(q);
      }
    }

    /** The bytes that a put copies behind the content belong to it. */
    method Append(q: seq<Byte>)
      requires Valid() && |q| <= b.Length - w && (q != [] ==> !cow)
      modifies this`w, this`written, b
      ensures Valid() && Content() == old(Content()) + q
      ensures q == [] ==> b[..] == old(b[..])
    {
      Write(q);
      Appended(q);
      w := w + |q|;
      written := written + q;
      assert taken + old(Content()) + q == taken + (old(Content()) + q);
    }

    lemma Appended(q: seq<Byte>)
      requires Shape() && |q| <= b.Length - w && b[w..w + |q|] == q
      ensures b[r..w + |q|] == Content() + q
    {
    }

    /** Bytes are stored behind the content: the memcpy of a put, or a client in reserved space. */
    method Write(q: seq<Byte>)
      requires Shape() && |q| <= b.Length - w
      modifies b
      ensures Content() == old(Content()) && b[w..w + |q|] == q
      ensures q == [] ==> b[..] == old(b[..])
    {
      var i := 0;
      while i < |q|
        invariant 0 <= i <= |q| && b[w..w + i] == q[..i] && b[..w] == old(b[..w])
        invariant i == 0 ==> b[..] == old(b[..])
      {
        b[w + i] := q[i];
        i := i + 1;
      }
    }

    /** put with another buffer, whose content is left where it is */
    method PutBuf(other: SBufExt) returns (out: Outcome)
      requires Valid() && other.Shape()
      modifies this, b
      ensures Valid() && (other == this ==> out == BadArg && unchanged(this))
      ensures other != this ==> out == old(MoreOutcome(b.Length, r, w, cow, other.w - other.r))
      ensures Content() == if out == Done then old(Content()) + old(other.Content()) else old(Content())
      ensures other.Shape() && (old(cow) || other.b != old(b) ==> other.Content() == old(other.Content()))
    {
      if other == this {
        return BadArg;
      }
      out := Put(other.b[other.r..other.w]);
    }

    /** skip: like taking out n bytes, or all there are. */
    method Skip(n: int) returns (out: Outcome)
      requires Valid()
      modifies this`r, this`w, this`taken
      ensures Valid() && written == old(written)
      ensures out == if 0 <= n <= LJ_MAX_BUF then Done else BadArg
      ensures Content() == if out == Done then Rest(old(Content()), n) else old(Content())
    {
      if !(0 <= n <= LJ_MAX_BUF) {
        return BadArg;
      }
      var len := w - r;
      taken := taken + Front(Content(), n);
      if n < len {
        r := r + n;
      } else if cow {
        r := w;
      } else {
        r, w := 0, 0;
      }
      out := Done;
    }

    /** get with any number of arguments: each takes out so many bytes, or all there are; one
        that is no size ends the call with an error. */
    method Get(args: seq<Arg>) returns (out: Outcome, res: seq<seq<Byte>>)
      requires Valid()
      modifies this`r, this`w, this`taken
      ensures Valid() && written == old(written)
      ensures (out, res, Content()) == Gets(if args == [] then [NilArg] else args, old(Content()))
    {
      hide Gets, ConsGets, Front, Rest;
      var todo := if args == [] then [NilArg] else args;
      var i := 0;
      res := [];
      assert todo[0..] == todo;
      ConsNone(Gets(todo, Content()));
      while i < |todo|
        invariant 0 <= i <= |todo| && Valid() && written == old(written) && cow == old(cow)
        invariant ConsGets(res, Gets(todo[i..], Content())) == Gets(todo, old(Content()))
      {
        GetsStep(todo, i, Content(), res);
        if BadSize(todo[i]) {
          return BadArg, res;
        }
        var q := TakeOut(SizeOf(todo[i]));
        res := res + [q];
        i := i + 1;
      }
      assert todo[i..] == [];
      GetsEnd(res, Content());
      if r == w && !cow {
        r, w := 0, 0;
      }
      out := Done;
    }

    /** One argument of get */
    method TakeOut(n: nat) returns (q: seq<Byte>)
      requires Valid()
      modifies this`r, this`taken
      ensures Valid() && q == Front(old(Content()), n) && Content() == Rest(old(Content()), n)
    {
      var len := w - r;
      var k := if n > len then len else n;
      q := b[r..r + k];
      assert Content()[..k] == q && Content()[k..] == b[r + k..w] && taken + q + Content()[k..] == taken + Content();
      taken := taken + q;
      r := r + k;
    }

    /** free */
    method Free()
      requires Valid()
      modifies this
      ensures Valid() && Content() == [] && b.Length == 0 && written == old(written) && !cow && fresh(b)
    {
      taken := written;
      b, r, w, cow := new Byte[0], 0, 0, false;
    }

    /** reset */
    method Reset()
      requires Valid()
      modifies this
      ensures Valid() && Content() == [] && written == old(written) && !cow && (b == old(b) || fresh(b))
    {
      taken := written;
      if cow {
        b, cow := new Byte[0], false;
      }
      r, w := 0, 0;
    }

    /** set: the content is that of a string, which is not copied. */
    method Set(str: array<Byte>)
      requires Valid() && str.Length <= LJ_MAX_BUF
      modifies this
      ensures Valid() && Content() == str[..] && b == str && cow && written == old(written) + str[..]
    {
      Free();
      written := written + str[..];
      b, r, w, cow := str, 0, str.Length, true;
    }

    /** reserve: room for at least sz bytes, to be written by the client. */
    method Reserve(sz: int) returns (out: Outcome, room: nat)
      requires Valid()
      modifies this`b, this`r, this`w, this`cow, b
      ensures Valid() && Content() == old(Content()) && (b == old(b) || fresh(b))
      ensures out == if 0 <= sz <= LJ_MAX_BUF then old(MoreOutcome(b.Length, r, w, cow, sz)) else BadArg
      ensures out == Done ==> room == b.Length - w >= sz
    {
      room := 0;
      if !(0 <= sz <= LJ_MAX_BUF) {
        return BadArg, 0;
      }
      out := More(sz);
      if out == Done {
        room := b.Length - w;
      }
    }

    /** commit: the first len bytes of the reserved room belong to the content. */
    method Commit(len: int) returns (out: Outcome)
      requires Valid()
      modifies this`w, this`written
      ensures Valid() && out == if 0 <= len <= LJ_MAX_BUF && len <= b.Length - old(w) then Done else BadArg
      ensures out == Done ==> Content() == old(Content()) + b[old(w)..old(w) + len]
      ensures out == BadArg ==> unchanged(this)
    {
      if !(0 <= len <= LJ_MAX_BUF) || len > b.Length - w {
        return BadArg;
      }
      written := written + b[w..w + len];
      w := w + len;
      out := Done;
    }

    /** Writing into reserved room and committing is as good as a put. */
    method PutReserved(q: seq<Byte>) returns (out: Outcome)
      requires Valid() && |q| <= LJ_MAX_BUF
      modifies this, b
      ensures Valid() && out == old(MoreOutcome(b.Length, r, w, cow, |q|)) && (b == old(b) || fresh(b))
      ensures Content() == if out == Done then old(Content()) + q else old(Content())
    {
      var room;
      out, room := Reserve(|q|);
      if out == Done {
        Write(q);
        out := Commit(|q|);
      }
    }
  }

  function Front(s: seq<Byte>, n: nat): seq<Byte> { if n < |s| then s[..n] else s }

  function Rest(s: seq<Byte>, n: nat): seq<Byte> { if n < |s| then s[n..] else [] }

  predicate BadSize(x: Arg) { x.Num? && !(0 <= x.n <= LJ_MAX_BUF) }

  function SizeOf(x: Arg): nat
    requires !BadSize(x)
  {
    if x.NilArg? then LJ_MAX_BUF else x.n
  }

  /** What get answers for a queue s, and what is left of it. */
  function Gets(args: seq<Arg>, s: seq<Byte>): (Outcome, seq<seq<Byte>>, seq<Byte>) {
    if args == [] then (Done, [], s)
    else if BadSize(args[0]) then (BadArg, [], s)
    else ConsGets([Front(s, SizeOf(args[0]))], Gets(args[1..], Rest(s, SizeOf(args[0]))))
  }

  function ConsGets(res: seq<seq<Byte>>, x: (Outcome, seq<seq<Byte>>, seq<Byte>)): (Outcome, seq<seq<Byte>>, seq<Byte>) {
    (x.0, res + x.1, x.2)
  }

  lemma ConsNone(x: (Outcome, seq<seq<Byte>>, seq<Byte>))
    ensures ConsGets([], x) == x
  {
    assert [] + x.1 == x.1;
  }

  lemma GetsStep(args: seq<Arg>, i: nat, s: seq<Byte>, res: seq<seq<Byte>>)
    requires i < |args|
    ensures ConsGets(res, Gets(args[i..], s)) ==
              if BadSize(args[i]) then (BadArg, res, s)
              else ConsGets(res + [Front(s, SizeOf(args[i]))], Gets(args[i + 1..], Rest(s, SizeOf(args[i]))))
  {
    assert args[i..][0] == args[i] && args[i..][1..] == args[i + 1..] && res + [] == res;
    if !BadSize(args[i]) {
      var q, x := Front(s, SizeOf(args[i])), Gets(args[i + 1..], Rest(s, SizeOf(args[i])));
      assert res + ([q] + x.1) == res + [q] + x.1;
    }
  }

  lemma GetsEnd(res: seq<seq<Byte>>, s: seq<Byte>)
    ensures ConsGets(res, Gets([], s)) == (Done, res, s)
  {
    assert res + [] == res;
  }

  function Joined(parts: seq<seq<Byte>>): seq<Byte> {
    if parts == [] then [] else parts[0] + Joined(parts[1..])
  }

  lemma JoinedCons(q: seq<Byte>, parts: seq<seq<Byte>>, rest: seq<Byte>)
    ensures Joined([q] + parts) + rest == q + (Joined(parts) + rest)
  {
    assert ([q] + parts)[1..] == parts;
    assert q + Joined(parts) + rest == q + (Joined(parts) + rest);
  }

  /** Whatever the arguments, the results and the rest are the queue. */
  lemma {:induction false} GetsConserve(args: seq<Arg>, s: seq<Byte>)
    ensures var x := Gets(args, s); Joined(x.1) + x.2 == s
  {
    if args != [] && !BadSize(args[0]) {
      var n := SizeOf(args[0]);
      var x := Gets(args[1..], Rest(s, n));
      assert Gets(args, s) == ConsGets([Front(s, n)], x);
      GetsConserve(args[1..], Rest(s, n));
      hide Gets;
      JoinedCons(Front(s, n), x.1, x.2);
      assert Front(s, n) + Rest(s, n) == s;
    }
  }

  /** How many of n bytes an argument of get takes: as many as it says, or all, but no more than
      there are and no more than a buffer may hold. */
  function Takes(x: Arg, n: nat): nat {
    var most: nat := match x case NilArg => 0x7FFF_FF00 case Num(k) => if k < 0 then 0 else k;
    if n < most then n else most
  }

  predicate IsSize(x: Arg) { x.Num? ==> 0 <= x.n <= 0x7FFF_FF00 }

  /** Result i is as long as its argument says, of what the ones before have left of n bytes. */
  ghost predicate TakesAt(args: seq<Arg>, n: nat, res: seq<seq<Byte>>, i: nat) {
    && i < |res| <= |args| && IsSize(args[i])
    && |Joined(res[..i])| <= n && |res[i]| == Takes(args[i], n - |Joined(res[..i])|)
  }

  /** A call of get on n bytes ends well if all arguments are sizes, and otherwise at the first that is
      none. */
  ghost predicate TakesAll(args: seq<Arg>, n: nat, out: Outcome, res: seq<seq<Byte>>) {
    && (forall i: nat {:trigger TakesAt(args, n, res, i)} :: i < |res| ==> TakesAt(args, n, res, i))
    && if out == Done then |res| == |args| else out == BadArg && |res| < |args| && !IsSize(args[|res|])
  }

  lemma TakesMore(x: Arg, args: seq<Arg>, n: nat, out: Outcome, q: seq<Byte>, res: seq<seq<Byte>>)
    requires IsSize(x) && |q| == Takes(x, n) <= n && TakesAll(args, n - |q|, out, res)
    ensures TakesAll([x] + args, n, out, [q] + res)
  {
    hide Takes;
    var all, most := [q] + res, [x] + args;
    forall i: nat | i < |all| ensures TakesAt(most, n, all, i) {
      if i == 0 {
        assert all[..0] == [];
      } else {
        assert TakesAt(args, n - |q|, res, i - 1);
        assert all[..i] == [q] + res[..i - 1];
        JoinedSize(q, res[..i - 1]);
      }
    }
  }

  lemma JoinedSize(q: seq<Byte>, res: seq<seq<Byte>>)
    ensures |Joined([q] + res)| == |q| + |Joined(res)|
  {
    assert ([q] + res)[1..] == res;
  }

  lemma GetsCons(x: Arg, args: seq<Arg>, s: seq<Byte>)
    requires !BadSize(x)
    ensures var q, y := Front(s, SizeOf(x)), Gets(args, Rest(s, SizeOf(x))); Gets([x] + args, s) == (y.0, [q] + y.1, y.2)
  {
    hide Front, Rest, SizeOf;
    assert ([x] + args)[0] == x && ([x] + args)[1..] == args;
  }

  lemma FirstTake(x: Arg, s: seq<Byte>)
    requires !BadSize(x)
    ensures IsSize(x) && |Front(s, SizeOf(x))| == Takes(x, |s|) && |Rest(s, SizeOf(x))| == |s| - |Front(s, SizeOf(x))|
  {
  }

  /** What get answers has the lengths that are asked for. */
  lemma {:induction false} GetsTake(args: seq<Arg>, s: seq<Byte>)
    ensures TakesAll(args, |s|, Gets(args, s).0, Gets(args, s).1)
    decreases |args|
  {
    if args != [] && !BadSize(args[0]) {
      var q, t := Front(s, SizeOf(args[0])), Rest(s, SizeOf(args[0]));
      GetsTake(args[1..], t);
      FirstTake(args[0], s);
      GetsCons(args[0], args[1..], s);
      assert args == [args[0]] + args[1..];
      hide Gets, TakesAll, Front, Rest, Takes;
      var y := Gets(args[1..], t);
      TakesMore(args[0], args[1..], |s|, y.0, q, y.1);
    }
  }

  /** get() takes out everything. */
  lemma GetAll(s: seq<Byte>)
    requires |s| <= LJ_MAX_BUF
    ensures Gets([NilArg], s) == (Done, [s], [])
  {
    GetsCons(NilArg, [], s);
    assert [NilArg] + [] == [NilArg] && [s] + [] == [s];
  }
}
