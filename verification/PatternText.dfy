/** How patterns are written (section 5.4.1 of the Lua 5.1 Reference Manual): a syntax for patterns
    with its own meaning and its text, and the proof that the matcher reads the text that way. */
module PatternText {
  import opened Pattern
  import opened PatternFacts

  // ---- character classes -----------------------------------------------------------------

  /** The characters a lower-case class letter lists. */
  predicate Listed(l: nat, c: nat) {
    if l == 'a' as nat then 65 <= c <= 90 || 97 <= c <= 122
    else if l == 'c' as nat then c <= 31 || c == 127
    else if l == 'd' as nat then 48 <= c <= 57
    else if l == 'g' as nat then 33 <= c <= 126
    else if l == 'l' as nat then 97 <= c <= 122
    else if l == 'p' as nat then 33 <= c <= 47 || 58 <= c <= 64 || 91 <= c <= 96 || 123 <= c <= 126
    else if l == 's' as nat then 9 <= c <= 13 || c == 32
    else if l == 'u' as nat then 65 <= c <= 90
    else if l == 'w' as nat then 48 <= c <= 57 || 65 <= c <= 90 || 97 <= c <= 122
    else if l == 'x' as nat then 48 <= c <= 57 || 65 <= c <= 70 || 97 <= c <= 102
    else l == 'z' as nat && c == 0
  }

  predicate IsLetter(l: nat) { 65 <= l <= 90 || 97 <= l <= 122 }

  /** %a, %c, %d, %g, %l, %p, %s, %u, %w, %x and %z, and the same in upper case. */
  predicate ClassLetter(l: nat) {
    && IsLetter(l)
    && var m := if l < 97 then l + 32 else l;
       || m == 'a' as nat || m == 'c' as nat || m == 'd' as nat || m == 'g' as nat || m == 'l' as nat || m == 'p' as nat
       || m == 's' as nat || m == 'u' as nat || m == 'w' as nat || m == 'x' as nat || m == 'z' as nat
  }

  /** An upper-case letter stands for all characters the lower-case one does not list. */
  predicate OfClass(l: nat, c: nat) {
    if l < 97 then !Listed(l + 32, c) else Listed(l, c)
  }

  lemma ClassIs(l: nat, c: nat)
    requires ClassLetter(l)
    ensures MatchClass(c, l) <==> OfClass(l, c)
  {
    assert l / 64 == 1 && (l / 32) % 2 == (if l < 97 then 0 else 1) && l % 32 == if l < 97 then l - 64 else l - 96;
  }

  // ---- syntax ----------------------------------------------------------------------------

  /** An element of a set: a character, plain or quoted with %, a range, or a class. */
  datatype Elem = One(c: nat, quoted: bool) | Span(lo: nat, hi: nat) | Kind(l: nat)

  /** What matches a single character. */
  datatype Atom = Any | Lit(c: nat, quoted: bool) | Letter(l: nat) | Set(neg: bool, elems: seq<Elem>)

  /** A pattern item. The suffix of an atom is ?, *, + or -, or 0 if it has none. */
  datatype Piece =
    | Chars(atom: Atom, suffix: nat)
    | OpenCapture
    | Position
    | CloseCapture
    | Between(b: nat, e: nat)
    | Edge(neg: bool, elems: seq<Elem>)
    | Same(digit: nat)

  predicate IsSuffix(q: nat) { q == '?' as nat || q == '*' as nat || q == '+' as nat || q == '-' as nat }

  /** The characters with a meaning of their own. */
  predicate Magic(c: nat) {
    || c == '^' as nat || c == '$' as nat || c == '(' as nat || c == ')' as nat || c == '%' as nat || c == '.' as nat
    || c == '[' as nat || c == ']' as nat || IsSuffix(c)
  }

  /** Any character that is no letter or digit may be quoted. */
  predicate Quotable(c: nat) { c > 0 && !IsLetter(c) && !(48 <= c <= 57) }

  predicate SetChar(c: nat) { c > 0 && c != '%' as nat && c != ']' as nat && c != '^' as nat && c != '-' as nat }

  predicate ElemOk(m: Elem) {
    match m
    case One(c, quoted) => if quoted then Quotable(c) else SetChar(c)
    case Span(lo, hi) => SetChar(lo) && SetChar(hi)
    case Kind(l) => ClassLetter(l)
  }

  predicate ElemsOk(ms: seq<Elem>) {
    forall i {:trigger ms[i]} :: 0 <= i < |ms| ==> ElemOk(ms[i])
  }

  predicate AtomOk(a: Atom) {
    match a
    case Any => true
    case Lit(c, quoted) => if quoted then Quotable(c) else c > 0 && !Magic(c)
    case Letter(l) => ClassLetter(l)
    case Set(_, ms) => ms != [] && ElemsOk(ms)
  }

  predicate PieceOk(i: Piece) {
    match i
    case Chars(a, q) => AtomOk(a) && (q == 0 || IsSuffix(q))
    case Between(b, e) => b > 0 && e > 0
    case Edge(_, ms) => ms != [] && ElemsOk(ms)
    case Same(k) => 48 <= k <= 57
    case _ => true
  }

  /** () is a position, so no capture is closed where it is opened. */
  predicate PiecesOk(ps: seq<Piece>) {
    ps != [] ==> PieceOk(ps[0]) && PiecesOk(ps[1..]) && (ps[0].OpenCapture? && |ps| > 1 ==> !ps[1].CloseCapture?)
  }

  // ---- text ------------------------------------------------------------------------------

  function ElemText(m: Elem): Bytes {
    match m
    case One(c, quoted) => if quoted then ['%' as nat, c] else [c]
    case Span(lo, hi) => [lo, '-' as nat, hi]
    case Kind(l) => ['%' as nat, l]
  }

  function ElemsText(ms: seq<Elem>): Bytes {
    if ms == [] then [] else ElemText(ms[0]) + ElemsText(ms[1..])
  }

  function SetText(neg: bool, ms: seq<Elem>): Bytes {
    ['[' as nat] + (if neg then ['^' as nat] else []) + ElemsText(ms) + [']' as nat]
  }

  function AtomText(a: Atom): Bytes {
    match a
    case Any => ['.' as nat]
    case Lit(c, quoted) => if quoted then ['%' as nat, c] else [c]
    case Letter(l) => ['%' as nat, l]
    case Set(neg, ms) => SetText(neg, ms)
  }

  function PieceText(i: Piece): Bytes {
    match i
    case Chars(a, q) => AtomText(a) + if q == 0 then [] else [q]
    case OpenCapture => ['(' as nat]
    case Position => ['(' as nat, ')' as nat]
    case CloseCapture => [')' as nat]
    case Between(b, e) => ['%' as nat, 'b' as nat, b, e]
    case Edge(neg, ms) => ['%' as nat, 'f' as nat] + SetText(neg, ms)
    case Same(k) => ['%' as nat, k]
  }

  /** The text of a pattern; with end set, $ stands behind it. */
  function Spelled(ps: seq<Piece>, end: bool): Bytes {
    if ps == [] then (if end then ['$' as nat] else []) else PieceText(ps[0]) + Spelled(ps[1..], end)
  }

  // ---- meaning ---------------------------------------------------------------------------

  predicate OfElem(m: Elem, c: nat) {
    match m
    case One(d, _) => c == d
    case Span(lo, hi) => lo <= c <= hi
    case Kind(l) => OfClass(l, c)
  }

  /** A set is the union of its elements, or its complement. */
  predicate OfSet(neg: bool, ms: seq<Elem>, c: nat) {
    if neg then forall i {:trigger ms[i]} :: 0 <= i < |ms| ==> !OfElem(ms[i], c)
    else exists i {:trigger ms[i]} :: 0 <= i < |ms| && OfElem(ms[i], c)
  }

  /** The characters an atom stands for. */
  predicate Of(a: Atom, c: nat) {
    match a
    case Any => true
    case Lit(d, _) => c == d
    case Letter(l) => OfClass(l, c)
    case Set(neg, ms) => OfSet(neg, ms, c)
  }

  /** How often a suffix lets its atom match. */
  predicate Times(q: nat, n: nat) {
    if q == '?' as nat then n <= 1
    else if q == '*' as nat || q == '-' as nat then true
    else if q == '+' as nat then n >= 1
    else n == 1
  }

  /** n characters from s on are of an atom. */
  ghost predicate AllOf(src: Bytes, a: Atom, s: nat, n: nat) {
    s + n <= |src| && forall k {:trigger src[k]} :: s <= k < s + n ==> Of(a, src[k])
  }

  /** The pieces match the subject from s to e and turn captures caps into caps'. */
  ghost predicate Means(src: Bytes, ps: seq<Piece>, end: bool, s: nat, caps: seq<Cap>, e: nat, caps': seq<Cap>)
    decreases |ps|
  {
    if ps == [] then e == s && caps' == caps && (end ==> s == |src|)
    else
      match ps[0]
      case Chars(a, q) => exists n: nat :: Times(q, n) && AllOf(src, a, s, n) && Means(src, ps[1..], end, s + n, caps, e, caps')
      case OpenCapture => |caps| < 32 && Means(src, ps[1..], end, s, caps + [Cap(s, CAP_UNFINISHED)], e, caps')
      case Position => |caps| < 32 && Means(src, ps[1..], end, s, caps + [Cap(s, CAP_POSITION)], e, caps')
      case CloseCapture =>
        LastOpen(caps).Some? &&
        (var l := LastOpen(caps).value; Means(src, ps[1..], end, s, caps[l := Cap(caps[l].init, s - caps[l].init)], e, caps'))
      case Between(b, c) => exists t: nat :: IsBalanced(src, s, t, b, c) && Means(src, ps[1..], end, t, caps, e, caps')
      case Edge(neg, ms) =>
        && !OfSet(neg, ms, if s == 0 then 0 else At(src, s - 1)) && OfSet(neg, ms, At(src, s))
        && Means(src, ps[1..], end, s, caps, e, caps')
      case Same(k) =>
        && 0 < k - 48 <= |caps|
        && var c := caps[k - 49];
           && c.len >= 0 && s + c.len <= |src| && c.init + c.len <= |src| && src[s..s + c.len] == src[c.init..c.init + c.len]
           && Means(src, ps[1..], end, s + c.len, caps, e, caps')
  }

  // ---- reading a set -----------------------------------------------------------------------

  /** The text t stands at p. */
  ghost predicate Stands(pat: Bytes, p: nat, t: Bytes) {
    p + |t| <= |pat| && pat[p..p + |t|] == t
  }

  lemma StandsAt(pat: Bytes, p: nat, t: Bytes, k: nat)
    requires Stands(pat, p, t) && k < |t|
    ensures At(pat, p + k) == t[k]
  {
    assert pat[p..p + |t|][k] == t[k];
  }

  lemma StandsParts(pat: Bytes, p: nat, t: Bytes, u: Bytes)
    requires Stands(pat, p, t + u)
    ensures Stands(pat, p, t) && Stands(pat, p + |t|, u)
  {
    assert pat[p..p + |t|] == pat[p..p + |t + u|][..|t|] == t;
    assert pat[p + |t|..p + |t| + |u|] == pat[p..p + |t + u|][|t|..] == u;
  }

  /** Element m is written at i, and no range or set goes wrong behind it. */
  ghost predicate ElemHere(pat: Bytes, i: nat, m: Elem, last: bool) {
    && ElemOk(m) && At(pat, i + |ElemText(m)|) != '-' as nat && (At(pat, i + |ElemText(m)|) == ']' as nat <==> last)
    && match m
       case One(c, false) => At(pat, i) == c
       case One(c, true) => At(pat, i) == '%' as nat && At(pat, i + 1) == c
       case Span(lo, hi) => At(pat, i) == lo && At(pat, i + 1) == '-' as nat && At(pat, i + 2) == hi
       case Kind(l) => At(pat, i) == '%' as nat && At(pat, i + 1) == l
  }

  lemma ElemsSplit(pat: Bytes, i: nat, ms: seq<Elem>)
    requires ms != [] && ElemsOk(ms) && Stands(pat, i, ElemsText(ms))
    ensures Stands(pat, i, ElemText(ms[0])) && Stands(pat, i + |ElemText(ms[0])|, ElemsText(ms[1..]))
    ensures |ElemsText(ms)| == |ElemText(ms[0])| + |ElemsText(ms[1..])| && ElemOk(ms[0]) && ElemsOk(ms[1..])
  {
    hide ElemText, Stands, ElemOk;
    StandsParts(pat, i, ElemText(ms[0]), ElemsText(ms[1..]));
  }

  lemma FirstChar(ms: seq<Elem>)
    requires ms != [] && ElemsOk(ms)
    ensures |ElemsText(ms)| >= 1 && ElemsText(ms)[0] != '^' as nat && ElemsText(ms)[0] != '-' as nat && ElemsText(ms)[0] != ']' as nat
  {
    assert ElemOk(ms[0]);
  }

  /** The first of the elements at i. */
  lemma ElemAtText(pat: Bytes, i: nat, ms: seq<Elem>)
    requires ms != [] && ElemsOk(ms) && Stands(pat, i, ElemsText(ms)) && At(pat, i + |ElemsText(ms)|) == ']' as nat
    ensures ElemHere(pat, i, ms[0], |ms| == 1)
  {
    hide Stands, ElemsText;
    var t, u := ElemText(ms[0]), ElemsText(ms[1..]);
    ElemsSplit(pat, i, ms);
    StandsAt(pat, i, t, 0);
    if |t| > 1 {
      StandsAt(pat, i, t, 1);
      StandsAt(pat, i, t, |t| - 1);
    }
    if |ms| > 1 {
      FirstChar(ms[1..]);
      StandsAt(pat, i + |t|, u, 0);
    } else {
      NoElems(ms[1..]);
    }
  }

  lemma NoElems(ms: seq<Elem>)
    requires ms == []
    ensures ElemsText(ms) == []
  {
  }

  predicate AnyOf(ms: seq<Elem>, c: nat) {
    exists i {:trigger ms[i]} :: 0 <= i < |ms| && OfElem(ms[i], c)
  }

  lemma AnyOfStep(ms: seq<Elem>, c: nat)
    requires ms != []
    ensures AnyOf(ms, c) <==> OfElem(ms[0], c) || AnyOf(ms[1..], c)
  {
    if AnyOf(ms, c) {
      var i :| 0 <= i < |ms| && OfElem(ms[i], c);
      assert i > 0 ==> ms[1..][i - 1] == ms[i];
    }
    if AnyOf(ms[1..], c) {
      var i :| 0 <= i < |ms[1..]| && OfElem(ms[1..][i], c);
      assert ms[i + 1] == ms[1..][i];
    }
  }

  /** The search for the closing bracket passes an element. */
  lemma ClosingPasses(pat: Bytes, i: nat, m: Elem, last: bool)
    requires ElemHere(pat, i, m, last)
    ensures Closing(pat, i) == if last then Some(i + |ElemText(m)|) else Closing(pat, i + |ElemText(m)|)
  {
    if m.Span? {
      assert Closing(pat, i) == Closing(pat, i + 1);
      assert Closing(pat, i + 1) == Closing(pat, i + 2);
    }
  }

  lemma {:induction false} ClosingAt(pat: Bytes, i: nat, ms: seq<Elem>)
    requires ms != [] && ElemsOk(ms) && Stands(pat, i, ElemsText(ms)) && At(pat, i + |ElemsText(ms)|) == ']' as nat
    ensures Closing(pat, i) == Some(i + |ElemsText(ms)|)
    decreases |ms|
  {
    hide Stands, ElemHere, ElemsText, ElemText, ElemsOk, Closing;
    ElemAtText(pat, i, ms);
    ElemsSplit(pat, i, ms);
    ClosingPasses(pat, i, ms[0], |ms| == 1);
    if |ms| > 1 {
      ClosingAt(pat, i + |ElemText(ms[0])|, ms[1..]);
    } else {
      NoElems(ms[1..]);
    }
  }

  function AsMember(m: Elem): Member {
    match m
    case One(d, quoted) => if quoted then Class(d) else Char(d)
    case Span(lo, hi) => Range(lo, hi)
    case Kind(l) => Class(l)
  }

  lemma MembersPass(pat: Bytes, i: nat, m: Elem, last: bool, ec: nat)
    requires ElemHere(pat, i, m, last) && i + |ElemText(m)| <= ec
    ensures Members(pat, i, ec) == [AsMember(m)] + Members(pat, i + |ElemText(m)|, ec)
  {
  }

  lemma AnyHasStep(m: Member, ms: seq<Member>, c: nat)
    ensures AnyHas([m] + ms, c) <==> Has(m, c) || AnyHas(ms, c)
  {
    assert ([m] + ms)[1..] == ms;
  }

  lemma MembersNone(pat: Bytes, i: nat, ms: seq<Elem>, c: nat)
    requires ms == []
    ensures !AnyHas(Members(pat, i, i + |ElemsText(ms)|), c) && !AnyOf(ms, c)
  {
  }

  /** One element more. */
  lemma MembersMore(pat: Bytes, i: nat, m: Elem, last: bool, n: nat, ec: nat, c: nat)
    requires ElemHere(pat, i, m, last) && n == i + |ElemText(m)| <= ec
    ensures AnyHas(Members(pat, i, ec), c) <==> OfElem(m, c) || AnyHas(Members(pat, n, ec), c)
  {
    MembersPass(pat, i, m, last, ec);
    MemberIs(m, c);
    hide Members, ElemText, AnyHas, Has, OfElem;
    AnyHasStep(AsMember(m), Members(pat, n, ec), c);
  }

  /** The set between the brackets has the elements for members. */
  lemma {:induction false} MembersAt(pat: Bytes, i: nat, ms: seq<Elem>, c: nat)
    requires ElemsOk(ms) && Stands(pat, i, ElemsText(ms)) && At(pat, i + |ElemsText(ms)|) == ']' as nat
    ensures AnyHas(Members(pat, i, i + |ElemsText(ms)|), c) <==> AnyOf(ms, c)
    decreases |ms|
  {
    hide Stands, AnyOf, ElemHere, ElemsText, ElemText, ElemsOk, AnyHas, Members, OfElem;
    if ms == [] {
      MembersNone(pat, i, ms, c);
    } else {
      var ec, n := i + |ElemsText(ms)|, i + |ElemText(ms[0])|;
      ElemAtText(pat, i, ms);
      ElemsSplit(pat, i, ms);
      AnyOfStep(ms, c);
      MembersAt(pat, n, ms[1..], c);
      MembersMore(pat, i, ms[0], |ms| == 1, n, ec, c);
    }
  }

  lemma MemberIs(m: Elem, c: nat)
    requires ElemOk(m)
    ensures Has(AsMember(m), c) <==> OfElem(m, c)
  {
    match m
    case One(d, quoted) =>
      if quoted {
        QuotedIs(d, c);
      }
    case Span(_, _) =>
    case Kind(l) => ClassIs(l, c);
  }

  lemma QuotedIs(d: nat, c: nat)
    requires Quotable(d)
    ensures MatchClass(c, d) <==> c == d
  {
    if d / 64 == 1 {
      assert d % 32 == if d < 96 then d - 64 else d - 96;
    }
  }

  /** Where the parts of a set are. */
  lemma SetParts(pat: Bytes, p: nat, neg: bool, ms: seq<Elem>)
    requires ms != [] && ElemsOk(ms) && Stands(pat, p, SetText(neg, ms))
    ensures var i := FirstMember(pat, p);
            && At(pat, p) == '[' as nat && Negated(pat, p) == neg && i + |ElemsText(ms)| + 1 == p + |SetText(neg, ms)|
            && Stands(pat, i, ElemsText(ms)) && At(pat, i + |ElemsText(ms)|) == ']' as nat && |ElemsText(ms)| >= 1
  {
    hide Magic, Stands, ElemsText;
    var head, tail := ['[' as nat] + (if neg then ['^' as nat] else []), ElemsText(ms) + [']' as nat];
    assert SetText(neg, ms) == head + tail;
    StandsParts(pat, p, head, tail);
    StandsAt(pat, p, head, 0);
    var i := p + |head|;
    StandsParts(pat, i, ElemsText(ms), [']' as nat]);
    StandsAt(pat, i + |ElemsText(ms)|, [']' as nat], 0);
    FirstChar(ms);
    StandsAt(pat, i, ElemsText(ms), 0);
    if neg {
      StandsAt(pat, p, head, 1);
    }
  }

  /** A set that stands at p is read as meant. */
  lemma SetAt(pat: Bytes, p: nat, neg: bool, ms: seq<Elem>)
    requires ms != [] && ElemsOk(ms) && Stands(pat, p, SetText(neg, ms))
    ensures At(pat, p) == '[' as nat && ClassEnd(pat, p) == Ok(p + |SetText(neg, ms)|) && |SetText(neg, ms)| >= 3
    ensures forall c {:trigger OfSet(neg, ms, c)} :: InSet(pat, p, p + |SetText(neg, ms)| - 1, c) <==> OfSet(neg, ms, c)
  {
    hide Stands, ElemsText, SetText, Negated, FirstMember, ElemsOk, Members, AnyHas, Closing;
    SetParts(pat, p, neg, ms);
    var i := FirstMember(pat, p);
    ClosingAt(pat, i, ms);
    forall c ensures InSet(pat, p, p + |SetText(neg, ms)| - 1, c) <==> OfSet(neg, ms, c) {
      MembersAt(pat, i, ms, c);
    }
  }

  // ---- reading a piece -----------------------------------------------------------------------

  /** From p on, the pattern is the text of the pieces. */
  ghost predicate Written(pat: Bytes, p: nat, ps: seq<Piece>, end: bool) {
    p <= |pat| && pat[p..] == Spelled(ps, end)
  }

  lemma PieceFirst(i: Piece)
    requires PieceOk(i)
    ensures |PieceText(i)| >= 1 && !IsSuffix(PieceText(i)[0]) && PieceText(i)[0] > 0 && (PieceText(i)[0] == ')' as nat <==> i.CloseCapture?)
  {
  }

  lemma TextFirst(ps: seq<Piece>, end: bool)
    requires PiecesOk(ps)
    ensures var c := At(Spelled(ps, end), 0); !IsSuffix(c) && (c == ')' as nat <==> ps != [] && ps[0].CloseCapture?)
  {
    if ps != [] {
      PieceFirst(ps[0]);
    }
  }

  lemma WrittenStep(pat: Bytes, p: nat, ps: seq<Piece>, end: bool)
    requires ps != [] && PiecesOk(ps) && Written(pat, p, ps, end)
    ensures Stands(pat, p, PieceText(ps[0])) && Written(pat, p + |PieceText(ps[0])|, ps[1..], end) && |PieceText(ps[0])| >= 1
    ensures !IsSuffix(At(pat, p + |PieceText(ps[0])|))
    ensures ps[0].OpenCapture? ==> At(pat, p + 1) != ')' as nat
  {
    hide PieceText, IsSuffix;
    var t, u := PieceText(ps[0]), Spelled(ps[1..], end);
    PieceFirst(ps[0]);
    assert pat[p..] == t + u;
    assert Stands(pat, p, t + u);
    StandsParts(pat, p, t, u);
    assert pat[p + |t|..] == u;
    TextFirst(ps[1..], end);
    assert At(pat, p + |t|) == At(u, 0);
    OpenIsOne();
  }

  lemma OpenIsOne()
    ensures |PieceText(OpenCapture)| == 1
  {
  }

  /** The atom at p is none of the other items, and matches what it should. */
  lemma AtomAt(pat: Bytes, p: nat, a: Atom)
    requires AtomOk(a) && Stands(pat, p, AtomText(a))
    ensures var c, d := At(pat, p), At(pat, p + 1);
            && c > 0 && c != '(' as nat && c != ')' as nat && c != '$' as nat
            && (c == '%' as nat ==> d != 'b' as nat && d != 'f' as nat && !IsDigit(d))
    ensures ClassEnd(pat, p) == Ok(p + |AtomText(a)|) && |AtomText(a)| >= 1
    ensures forall c {:trigger Of(a, c)} :: Single(pat, p, p + |AtomText(a)|, c) <==> Of(a, c)
  {
    hide Stands, InSet, OfSet, MatchClass, OfClass;
    match a
    case Set(neg, ms) => SetAt(pat, p, neg, ms);
    case Any => StandsAt(pat, p, AtomText(a), 0);
    case Lit(d, quoted) =>
      StandsAt(pat, p, AtomText(a), 0);
      if quoted {
        StandsAt(pat, p, AtomText(a), 1);
        forall c ensures MatchClass(c, d) <==> c == d {
          QuotedIs(d, c);
        }
      }
    case Letter(l) =>
      StandsAt(pat, p, AtomText(a), 0);
      StandsAt(pat, p, AtomText(a), 1);
      forall c ensures MatchClass(c, l) <==> OfClass(l, c) {
        ClassIs(l, c);
      }
  }

  function AsRep(q: nat): Rep {
    if q == '?' as nat then Optional
    else if q == '*' as nat then Longest
    else if q == '+' as nat then OnceOrMore
    else if q == '-' as nat then Shortest
    else Once
  }

  lemma CharsAt(pat: Bytes, p: nat, a: Atom, q: nat)
    requires PieceOk(Chars(a, q)) && Stands(pat, p, PieceText(Chars(a, q))) && !IsSuffix(At(pat, p + |PieceText(Chars(a, q))|))
    ensures ItemAt(pat, p) == Item(p + |AtomText(a)|, AsRep(q), p + |PieceText(Chars(a, q))|)
    ensures forall c {:trigger Of(a, c)} :: Single(pat, p, p + |AtomText(a)|, c) <==> Of(a, c)
  {
    hide Stands, AtomText, Single, Of, AtomOk, ClassEnd;
    var t: Bytes := if q == 0 then [] else [q];
    StandsParts(pat, p, AtomText(a), t);
    AtomAt(pat, p, a);
    if q != 0 {
      StandsAt(pat, p + |AtomText(a)|, t, 0);
    }
  }

  /** What the matcher sees where a piece is written. */
  ghost predicate SeenAt(pat: Bytes, p: nat, i: Piece) {
    var next := p + |PieceText(i)|;
    match i
    case Chars(a, q) =>
      && ItemAt(pat, p) == Item(p + |AtomText(a)|, AsRep(q), next)
      && forall c {:trigger Of(a, c)} :: Single(pat, p, p + |AtomText(a)|, c) <==> Of(a, c)
    case OpenCapture => ItemAt(pat, p) == Open(CAP_UNFINISHED, next)
    case Position => ItemAt(pat, p) == Open(CAP_POSITION, next)
    case CloseCapture => ItemAt(pat, p) == Close(next)
    case Between(b, e) => ItemAt(pat, p) == Balance(b, e, next)
    case Edge(neg, ms) =>
      && ItemAt(pat, p) == Frontier(p + 2, next)
      && forall c {:trigger OfSet(neg, ms, c)} :: InSet(pat, p + 2, next - 1, c) <==> OfSet(neg, ms, c)
    case Same(k) => ItemAt(pat, p) == Back(k, next)
  }

  lemma EdgeAt(pat: Bytes, p: nat, neg: bool, ms: seq<Elem>)
    requires PieceOk(Edge(neg, ms)) && Stands(pat, p, PieceText(Edge(neg, ms)))
    ensures SeenAt(pat, p, Edge(neg, ms))
  {
    hide Stands, SetText, InSet, OfSet, ElemsOk;
    StandsParts(pat, p, ['%' as nat, 'f' as nat], SetText(neg, ms));
    StandsAt(pat, p, ['%' as nat, 'f' as nat], 0);
    StandsAt(pat, p, ['%' as nat, 'f' as nat], 1);
    SetAt(pat, p + 2, neg, ms);
    hide ClassEnd;
  }

  lemma ShortAt(pat: Bytes, p: nat, i: Piece)
    requires PieceOk(i) && !i.Chars? && !i.Edge? && Stands(pat, p, PieceText(i)) && (i.OpenCapture? ==> At(pat, p + 1) != ')' as nat)
    ensures SeenAt(pat, p, i)
  {
    hide Stands, ClassEnd;
    var t := PieceText(i);
    StandsAt(pat, p, t, 0);
    if |t| > 1 {
      StandsAt(pat, p, t, 1);
    }
    if |t| > 2 {
      StandsAt(pat, p, t, 2);
      StandsAt(pat, p, t, 3);
    }
  }

  lemma PieceAt(pat: Bytes, p: nat, ps: seq<Piece>, end: bool)
    requires ps != [] && PiecesOk(ps) && Written(pat, p, ps, end)
    ensures SeenAt(pat, p, ps[0]) && Written(pat, p + |PieceText(ps[0])|, ps[1..], end)
  {
    hide Stands, Written, Spelled, PieceText, AtomText, Single, Of, InSet, OfSet, ItemAt, IsSuffix, PieceOk;
    WrittenStep(pat, p, ps, end);
    match ps[0]
    case Chars(a, q) => CharsAt(pat, p, a, q);
    case Edge(neg, ms) => EdgeAt(pat, p, neg, ms);
    case _ => ShortAt(pat, p, ps[0]);
  }

  lemma EndAt(pat: Bytes, p: nat, end: bool)
    requires Written(pat, p, [], end)
    ensures ItemAt(pat, p) == if end then AtEnd else End
  {
    assert end ==> pat[p..][0] == '$' as nat;
  }

  /** What cannot be read: a pattern that ends behind %, %b with fewer than two characters, %f without
      a set, and a set without its closing bracket. */
  lemma Unreadable(pat: Bytes, p: nat)
    requires p < |pat|
    ensures pat[p..] == ['%' as nat] ==> ItemAt(pat, p) == Malformed(EndsWithPercent)
    ensures pat[p] == '%' as nat && At(pat, p + 1) == 'b' as nat && p + 4 > |pat| ==> ItemAt(pat, p) == Malformed(Unbalanced)
    ensures pat[p] == '%' as nat && At(pat, p + 1) == 'f' as nat && At(pat, p + 2) != '[' as nat ==> ItemAt(pat, p) == Malformed(MissingFrontier)
    ensures pat[p] == '[' as nat && (forall i {:trigger pat[i]} :: p < i < |pat| ==> pat[i] != ']' as nat) ==> ItemAt(pat, p) == Malformed(MissingBracket)
  {
    if pat[p..] == ['%' as nat] {
      assert pat[p..][0] == pat[p];
    }
    var r := Closing(pat, FirstMember(pat, p));
    assert r.Some? ==> pat[r.value] == ']' as nat;
  }

  // ---- the theorem ---------------------------------------------------------------------------

  /** The matcher's language is the meaning of what is written: a pattern that is the text of
      pieces describes a match if and only if the pieces mean it. */
  lemma {:induction false} WrittenMeans(x: Text, p: nat, ps: seq<Piece>, end: bool, s: nat, caps: seq<Cap>, e: nat, caps': seq<Cap>)
    requires PiecesOk(ps) && Written(x.pat, p, ps, end)
    ensures Accepts(x, p, s, caps, e, caps') <==> Means(x.src, ps, end, s, caps, e, caps')
    decreases |ps|, 2
  {
    if ps == [] {
      EndAt(x.pat, p, end);
    } else {
      hide Written, PiecesOk, Accepts, Means;
      match ps[0]
      case Chars(a, q) => CharsMean(x, p, ps, end, s, caps, e, caps');
      case Between(b, c) => BetweenMeans(x, p, ps, end, s, caps, e, caps');
      case _ => OtherMeans(x, p, ps, end, s, caps, e, caps');
    }
  }

  lemma {:induction false} BetweenMeans(x: Text, p: nat, ps: seq<Piece>, end: bool, s: nat, caps: seq<Cap>, e: nat, caps': seq<Cap>)
    requires ps != [] && ps[0].Between? && PiecesOk(ps) && Written(x.pat, p, ps, end)
    ensures Accepts(x, p, s, caps, e, caps') <==> Means(x.src, ps, end, s, caps, e, caps')
    decreases |ps|, 1
  {
    hide Written, PieceText, ItemAt, InSet, OfSet, Of, Single, IsBalanced, AtomText, PieceOk;
    PieceAt(x.pat, p, ps, end);
    var next, rest := p + |PieceText(ps[0])|, ps[1..];
    forall t: nat ensures Accepts(x, next, t, caps, e, caps') <==> Means(x.src, rest, end, t, caps, e, caps') {
      WrittenMeans(x, next, rest, end, t, caps, e, caps');
    }
  }

  lemma {:induction false} OtherMeans(x: Text, p: nat, ps: seq<Piece>, end: bool, s: nat, caps: seq<Cap>, e: nat, caps': seq<Cap>)
    requires ps != [] && !ps[0].Chars? && !ps[0].Between? && PiecesOk(ps) && Written(x.pat, p, ps, end)
    ensures Accepts(x, p, s, caps, e, caps') <==> Means(x.src, ps, end, s, caps, e, caps')
    decreases |ps|, 1
  {
    hide Written, PieceText, ItemAt, InSet, OfSet, Of, Single, LastOpen, IsBalanced, AtomText, PieceOk;
    PieceAt(x.pat, p, ps, end);
    var next, rest := p + |PieceText(ps[0])|, ps[1..];
    match ps[0]
    case OpenCapture => WrittenMeans(x, next, rest, end, s, caps + [Cap(s, CAP_UNFINISHED)], e, caps');
    case Position => WrittenMeans(x, next, rest, end, s, caps + [Cap(s, CAP_POSITION)], e, caps');
    case CloseCapture =>
      if LastOpen(caps).Some? {
        var l := LastOpen(caps).value;
        WrittenMeans(x, next, rest, end, s, caps[l := Cap(caps[l].init, s - caps[l].init)], e, caps');
      }
    case Edge(_, _) => WrittenMeans(x, next, rest, end, s, caps, e, caps');
    case Same(k) =>
      if 0 < k - 48 <= |caps| && caps[k - 49].len >= 0 {
        WrittenMeans(x, next, rest, end, s + caps[k - 49].len, caps, e, caps');
      }
  }

  lemma {:induction false} CharsMean(x: Text, p: nat, ps: seq<Piece>, end: bool, s: nat, caps: seq<Cap>, e: nat, caps': seq<Cap>)
    requires ps != [] && ps[0].Chars? && PiecesOk(ps) && Written(x.pat, p, ps, end)
    ensures Accepts(x, p, s, caps, e, caps') <==> Means(x.src, ps, end, s, caps, e, caps')
    decreases |ps|, 1
  {
    hide Written, PieceText, ItemAt, Of, Single, AtomText, PieceOk, Repeats, AllOf, Allowed, Times, PiecesOk;
    PieceAt(x.pat, p, ps, end);
    var next, rest, a, q := p + |PieceText(ps[0])|, ps[1..], ps[0].atom, ps[0].suffix;
    var ep := p + |AtomText(a)|;
    if Accepts(x, p, s, caps, e, caps') {
      var n: nat :| Allowed(AsRep(q), n) && Repeats(x, p, ep, s, n) && Accepts(x, next, s + n, caps, e, caps');
      hide Accepts;
      TimesMean(x, p, ps, end, s, n, caps, e, caps');
    }
    if Means(x.src, ps, end, s, caps, e, caps') {
      var n: nat :| Times(q, n) && AllOf(x.src, a, s, n) && Means(x.src, rest, end, s + n, caps, e, caps');
      hide Means;
      TimesMean(x, p, ps, end, s, n, caps, e, caps');
    }
  }

  /** n repetitions of the first atom, and then the rest. */
  lemma {:induction false} TimesMean(x: Text, p: nat, ps: seq<Piece>, end: bool, s: nat, n: nat, caps: seq<Cap>, e: nat, caps': seq<Cap>)
    requires ps != [] && ps[0].Chars? && PiecesOk(ps) && Written(x.pat, p, ps, end)
    ensures var next, a := p + |PieceText(ps[0])|, ps[0].atom;
            Allowed(AsRep(ps[0].suffix), n) && Repeats(x, p, p + |AtomText(a)|, s, n) && Accepts(x, next, s + n, caps, e, caps') <==>
            Times(ps[0].suffix, n) && AllOf(x.src, a, s, n) && Means(x.src, ps[1..], end, s + n, caps, e, caps')
    decreases |ps|, 0
  {
    hide Written, PieceText, ItemAt, Of, Single, AtomText, PieceOk, Accepts, Means, Repeats, AllOf;
    PieceAt(x.pat, p, ps, end);
    RepeatsAre(x, p, ps[0].atom, s, n);
    WrittenMeans(x, p + |PieceText(ps[0])|, ps[1..], end, s + n, caps, e, caps');
  }

  lemma RepeatsAre(x: Text, p: nat, a: Atom, s: nat, n: nat)
    requires forall c {:trigger Of(a, c)} :: Single(x.pat, p, p + |AtomText(a)|, c) <==> Of(a, c)
    ensures Repeats(x, p, p + |AtomText(a)|, s, n) <==> AllOf(x.src, a, s, n)
  {
    hide Single, Of, AtomText;
    assert forall k {:trigger x.src[k]} :: s <= k < s + n && s + n <= |x.src| ==> (Single(x.pat, p, p + |AtomText(a)|, x.src[k]) <==> Of(a, x.src[k]));
  }

  /** What match can come to on a pattern that is below the depth limit: exactly the matches that
      the pieces mean. */
  lemma WrittenExact(x: Text, p: nat, ps: seq<Piece>, end: bool, s: nat, e: nat, caps': seq<Cap>)
    requires PiecesOk(ps) && Written(x.pat, p, ps, end) && s <= |x.src| && |x.pat| - p < LJ_MAX_XLEVEL
    ensures Hit(e, caps') in Call(x, p, s, [], 0) <==> Means(x.src, ps, end, s, [], e, caps')
  {
    hide Spelled, Call, Means;
    ShortPatternExact(x, p, s, e, caps');
    WrittenMeans(x, p, ps, end, s, [], e, caps');
  }

  /** The pieces mean some match at s. */
  ghost predicate MeansSome(src: Bytes, ps: seq<Piece>, end: bool, s: nat) {
    exists e: nat, caps :: Means(src, ps, end, s, [], e, caps)
  }

  /** The first outcome: none if the pieces mean no match, or one that they mean, or an error about
      captures. */
  lemma WrittenFirst(x: Text, p: nat, ps: seq<Piece>, end: bool, s: nat)
    requires PiecesOk(ps) && Written(x.pat, p, ps, end) && s <= |x.src| && |x.pat| - p < LJ_MAX_XLEVEL
    ensures var os := Call(x, p, s, [], 0);
            && (MeansSome(x.src, ps, end, s) <==> os != [] && os[0].Hit?)
            && (os != [] && os[0].Hit? ==> Means(x.src, ps, end, s, [], os[0].e, os[0].caps))
            && (os != [] && os[0].Raise? ==> os[0].error == TooManyCaptures || os[0].error == NoOpenCapture || os[0].error == InvalidCapture)
  {
    hide Spelled, Call, Means, Accepts, Fault, PiecesOk;
    FirstOutcome(x, p, s);
    var os := Call(x, p, s, [], 0);
    if os != [] && os[0].Hit? {
      WrittenMeans(x, p, ps, end, s, [], os[0].e, os[0].caps);
    }
    if MeansSome(x.src, ps, end, s) {
      var e: nat, caps :| Means(x.src, ps, end, s, [], e, caps);
      WrittenMeans(x, p, ps, end, s, [], e, caps);
    }
    WrittenFault(x.pat, p, ps, end, []);
  }

  /** Only the captures of a written pattern can be at fault. */
  lemma {:induction false} WrittenFault(pat: Bytes, p: nat, ps: seq<Piece>, end: bool, open: seq<bool>)
    requires PiecesOk(ps) && Written(pat, p, ps, end)
    ensures Fault(pat, p, open) in {None, Some(TooManyCaptures), Some(NoOpenCapture), Some(InvalidCapture)}
    decreases |ps|
  {
    hide Written, PieceText, ItemAt, Single, Of, InSet, OfSet, AtomText, PieceOk, LastTrue;
    if ps == [] {
      EndAt(pat, p, end);
    } else {
      PieceAt(pat, p, ps, end);
      var next, rest := p + |PieceText(ps[0])|, ps[1..];
      match ps[0]
      case OpenCapture => WrittenFault(pat, next, rest, end, open + [true]);
      case Position => WrittenFault(pat, next, rest, end, open + [false]);
      case CloseCapture =>
        if LastTrue(open).Some? {
          WrittenFault(pat, next, rest, end, open[LastTrue(open).value := false]);
        }
      case _ => WrittenFault(pat, next, rest, end, open);
    }
  }

  // ---- preference ------------------------------------------------------------------------------

  /** The outcomes of the rest of the pattern behind n repetitions of an item with suffix q. */
  ghost function Rest(x: Text, next: nat, q: nat, s: nat, n: nat, caps: seq<Cap>, d: nat): seq<Outcome> {
    if q == 0 || (q == '?' as nat && n == 0) then Outcomes(x, next, s + n, caps, d) else Call(x, next, s + n, caps, d)
  }

  /** n repetitions are preferred to m: - prefers few, the others many. */
  predicate Before(q: nat, n: nat, m: nat) { if q == '-' as nat then n < m else m < n }

  /** The outcomes os start with that of n repetitions of atom a. Their number is the most preferred
      one, among those that are possible, behind which the rest of the pattern comes to anything. */
  ghost predicate Preferred(x: Text, next: nat, a: Atom, q: nat, s: nat, n: nat, caps: seq<Cap>, d: nat, os: seq<Outcome>) {
    && Times(q, n) && AllOf(x.src, a, s, n)
    && os != [] && Rest(x, next, q, s, n, caps, d) != [] && os[0] == Rest(x, next, q, s, n, caps, d)[0]
    && forall m: nat {:trigger Rest(x, next, q, s, m, caps, d)} :: Times(q, m) && AllOf(x.src, a, s, m) && Before(q, m, n) ==>
         Rest(x, next, q, s, m, caps, d) == []
  }

  lemma Prefers(x: Text, p: nat, ps: seq<Piece>, end: bool, s: nat, caps: seq<Cap>, d: nat) returns (n: nat)
    requires ps != [] && ps[0].Chars? && PiecesOk(ps) && Written(x.pat, p, ps, end)
    requires s <= |x.src| && Outcomes(x, p, s, caps, d) != []
    ensures Preferred(x, p + |PieceText(ps[0])|, ps[0].atom, ps[0].suffix, s, n, caps, d, Outcomes(x, p, s, caps, d))
  {
    hide Written, PieceText, ItemAt, AtomText, PiecesOk, Single, Of;
    PieceAt(x.pat, p, ps, end);
    var a, q, next, ep := ps[0].atom, ps[0].suffix, p + |PieceText(ps[0])|, p + |AtomText(ps[0].atom)|;
    SuffixOk(ps);
    ItemIn(x.pat, p);
    assert Outcomes(x, p, s, caps, d) == Repetitions(x, p, ep, AsRep(q), next, s, caps, d);
    n := RepetitionsPrefer(x, p, ep, q, next, s, caps, d);
    forall m: nat ensures Repeats(x, p, ep, s, m) <==> AllOf(x.src, a, s, m) {
      RepeatsAre(x, p, a, s, m);
    }
  }

  lemma SuffixOk(ps: seq<Piece>)
    requires ps != [] && PiecesOk(ps) && ps[0].Chars?
    ensures ps[0].suffix == 0 || IsSuffix(ps[0].suffix)
  {
  }

  lemma ItemIn(pat: Bytes, p: nat)
    ensures ItemAt(pat, p).Item? ==> p < ItemAt(pat, p).next <= |pat|
  {
  }

  lemma RepetitionsPrefer(x: Text, p: nat, ep: nat, q: nat, next: nat, s: nat, caps: seq<Cap>, d: nat) returns (n: nat)
    requires p < next <= |x.pat| && s <= |x.src| && (q == 0 || IsSuffix(q)) && Repetitions(x, p, ep, AsRep(q), next, s, caps, d) != []
    ensures Times(q, n) && Repeats(x, p, ep, s, n) && Rest(x, next, q, s, n, caps, d) != []
    ensures Repetitions(x, p, ep, AsRep(q), next, s, caps, d)[0] == Rest(x, next, q, s, n, caps, d)[0]
    ensures forall m: nat {:trigger Rest(x, next, q, s, m, caps, d)} :: Times(q, m) && Repeats(x, p, ep, s, m) && Before(q, m, n) ==>
              Rest(x, next, q, s, m, caps, d) == []
  {
    hide Outcomes, Call, Single, Descending, Ascending, Repeats, Run;
    forall m: nat ensures Repeats(x, p, ep, s, m) <==> m <= Run(x, p, ep, s) {
      RunLongest(x, p, ep, s, m);
    }
    RunStep(x, p, ep, s);
    match AsRep(q)
    case Once => n := 1;
    case Optional =>
      n := if s < |x.src| && Single(x.pat, p, ep, x.src[s]) && Call(x, next, s + 1, caps, d) != [] then 1 else 0;
    case Longest => n := Greedy(x, next, s, Run(x, p, ep, s), caps, d);
    case OnceOrMore =>
      var k := Greedy(x, next, s + 1, Run(x, p, ep, s + 1), caps, d);
      n := k + 1;
      assert s + n == s + 1 + k;
    case Shortest => n := Lazy(x, next, s, Run(x, p, ep, s), caps, d);
  }

  lemma RunStep(x: Text, p: nat, ep: nat, s: nat)
    ensures Run(x, p, ep, s) == if s < |x.src| && Single(x.pat, p, ep, x.src[s]) then 1 + Run(x, p, ep, s + 1) else 0
  {
  }

  // ---- the dot -----------------------------------------------------------------------------------

  /** A dot matches any character and nothing else. */
  lemma Dot(src: Bytes, s: nat)
    requires s <= |src|
    ensures Call(Text(src, ['.' as nat]), 0, s, [], 0) == if s < |src| then [Hit(s + 1, [])] else []
  {
    var x := Text(src, ['.' as nat]);
    assert ItemAt(x.pat, 0) == Item(1, Once, 1) && ItemAt(x.pat, 1) == End;
    assert Outcomes(x, 1, s + 1, [], 1) == [Hit(s + 1, [])];
    assert Outcomes(x, 0, s, [], 1) == Repetitions(x, 0, 1, Once, 1, s, [], 1);
  }

  /** .* takes the rest of the subject, and .- nothing. */
  lemma DotRepeated(src: Bytes, s: nat)
    requires s <= |src|
    ensures var os := Call(Text(src, ['.' as nat, '*' as nat]), 0, s, [], 0); os != [] && os[0] == Hit(|src|, [])
    ensures var os := Call(Text(src, ['.' as nat, '-' as nat]), 0, s, [], 0); os != [] && os[0] == Hit(s, [])
  {
    DotEnd(src, s, '*' as nat);
    DotEnd(src, s, '-' as nat);
  }

  lemma DotEnd(src: Bytes, s: nat, q: nat)
    requires s <= |src| && (q == '*' as nat || q == '-' as nat)
    ensures var os := Call(Text(src, ['.' as nat, q]), 0, s, [], 0); os != [] && os[0] == Hit(if q == '*' as nat then |src| else s, [])
  {
    var x, ps := Text(src, ['.' as nat, q]), [Chars(Any, q)];
    assert PieceText(ps[0]) == x.pat && Spelled(ps[1..], false) == [];
    assert Spelled(ps, false) == x.pat && x.pat[0..] == x.pat;
    forall t: nat ensures Call(x, 2, t, [], 1) == [Hit(t, [])] {
      assert ItemAt(x.pat, 2) == End;
    }
    var m := |src| - s;
    assert AllOf(src, Any, s, m) && AllOf(src, Any, s, 0);
    Complete(x, 0, s, [], 1, |src|, []) by {
      assert Means(src, ps[1..], false, s + m, [], |src|, []);
      assert Times(q, m);
      WrittenMeans(x, 0, ps, false, s, [], |src|, []);
      assert ItemAt(x.pat, 0) == Item(1, AsRep(q), 2) && ItemAt(x.pat, 2) == End;
    }
    var n := Prefers(x, 0, ps, false, s, [], 1);
    assert Rest(x, 2, q, s, n, [], 1) == [Hit(s + n, [])] && Rest(x, 2, q, s, m, [], 1) != [] && Rest(x, 2, q, s, 0, [], 1) != [];
  }
}
