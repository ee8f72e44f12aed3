/** Lua patterns (lib_string.c, section 5.4.1 of the Lua 5.1 Reference Manual): the pattern
    language, and what a pattern matches, as a list of outcomes in the order of preference. */
module Pattern {
  /** Bytes are numbers; patterns and subjects are read as C strings, with a zero behind. */
  type Bytes = seq<nat>

  const LUA_MAXCAPTURES: nat := 32
  const LJ_MAX_XLEVEL: nat := 200
  const CAP_UNFINISHED: int := -1
  const CAP_POSITION: int := -2

  function At(s: Bytes, i: nat): nat {
    if i < |s| then s[i] else 0
  }

  /** LJ_ERR_STR* */
  datatype Error =
    | InvalidCapture      // STRCAPI
    | NoOpenCapture       // STRPATC
    | EndsWithPercent     // STRPATE
    | MissingBracket      // STRPATM
    | Unbalanced          // STRPATU
    | MissingFrontier     // STRPATB
    | TooComplex          // STRPATX
    | TooManyCaptures     // STRCAPN
    | UnfinishedCapture   // STRCAPU
    | BadReplacement      // STRGSRV

  datatype Result<T> = Ok(value: T) | Err(error: Error)
  datatype Option<T> = None | Some(value: T)

  // ---- characters -------------------------------------------------------------------------

  datatype CharType = Alpha | Cntrl | Digit | Graph | Lower | Punct | Space | Upper | Alnum | Xdigit

  predicate IsDigit(c: nat) { '0' as nat <= c <= '9' as nat }
  predicate IsUpper(c: nat) { 'A' as nat <= c <= 'Z' as nat }
  predicate IsLower(c: nat) { 'a' as nat <= c <= 'z' as nat }
  predicate IsPunct(c: nat) { 33 <= c <= 47 || 58 <= c <= 64 || 91 <= c <= 96 || 123 <= c <= 126 }

  /** lj_char_isa: ASCII character types. */
  predicate Isa(c: nat, t: CharType) {
    match t
    case Alpha => IsUpper(c) || IsLower(c)
    case Cntrl => c < 32 || c == 127
    case Digit => IsDigit(c)
    case Graph => IsUpper(c) || IsLower(c) || IsDigit(c) || IsPunct(c)
    case Lower => IsLower(c)
    case Punct => IsPunct(c)
    case Space => 9 <= c <= 13 || c == 32
    case Upper => IsUpper(c)
    case Alnum => IsUpper(c) || IsLower(c) || IsDigit(c)
    case Xdigit => IsDigit(c) || 'A' as nat <= c <= 'F' as nat || 'a' as nat <= c <= 'f' as nat
  }

  /** match_class_map */
  function ClassMap(i: nat): Option<CharType> {
    if i == 1 then Some(Alpha)
    else if i == 3 then Some(Cntrl)
    else if i == 4 then Some(Digit)
    else if i == 7 then Some(Graph)
    else if i == 12 then Some(Lower)
    else if i == 16 then Some(Punct)
    else if i == 19 then Some(Space)
    else if i == 21 then Some(Upper)
    else if i == 23 then Some(Alnum)
    else if i == 24 then Some(Xdigit)
    else None
  }

  /** match_class: character c is in the class of letter cl. */
  predicate MatchClass(c: nat, cl: nat) {
    if cl / 64 == 1 && ClassMap(cl % 32).Some? then
      (if (cl / 32) % 2 == 1 then Isa(c, ClassMap(cl % 32).value) else !Isa(c, ClassMap(cl % 32).value))
    else if cl == 'z' as nat then c == 0
    else if cl == 'Z' as nat then c != 0
    else cl == c
  }

  /** An upper-case class letter is the complement of the lower-case one; a character that is no
      letter stands for itself. */
  lemma ClassLetters(c: nat, cl: nat)
    ensures IsLower(cl) && (ClassMap(cl - 96).Some? || cl == 'z' as nat) ==> MatchClass(c, cl - 32) == !MatchClass(c, cl)
    ensures !IsLower(cl) && !IsUpper(cl) && cl < 256 ==> (MatchClass(c, cl) <==> c == cl)
  {
    if IsLower(cl) {
      assert cl / 64 == 1 && cl % 32 == cl - 96 && (cl / 32) % 2 == 1;
      assert (cl - 32) / 64 == 1 && (cl - 32) % 32 == cl - 96 && ((cl - 32) / 32) % 2 == 0;
    }
  }

  // ---- character sets ---------------------------------------------------------------------

  /** An element of a set in brackets. */
  datatype Member = Class(cl: nat) | Range(lo: nat, hi: nat) | Char(c: nat)

  predicate Has(m: Member, c: nat) {
    match m
    case Class(cl) => MatchClass(c, cl)
    case Range(lo, hi) => lo <= c <= hi
    case Char(d) => c == d
  }

  /** The elements between i and the closing bracket at ec. */
  function Members(pat: Bytes, i: nat, ec: nat): seq<Member>
    decreases ec - i
  {
    if i >= ec then []
    else if At(pat, i) == '%' as nat then [Class(At(pat, i + 1))] + Members(pat, i + 2, ec)
    else if At(pat, i + 1) == '-' as nat && i + 2 < ec then [Range(At(pat, i), At(pat, i + 2))] + Members(pat, i + 3, ec)
    else [Char(At(pat, i))] + Members(pat, i + 1, ec)
  }

  predicate Negated(pat: Bytes, p: nat) { At(pat, p + 1) == '^' as nat }

  function FirstMember(pat: Bytes, p: nat): nat { if Negated(pat, p) then p + 2 else p + 1 }

  /** c is in the set with brackets at p and ec. */
  predicate InSet(pat: Bytes, p: nat, ec: nat, c: nat) {
    AnyHas(Members(pat, FirstMember(pat, p), ec), c) != Negated(pat, p)
  }

  predicate AnyHas(ms: seq<Member>, c: nat) {
    ms != [] && (Has(ms[0], c) || AnyHas(ms[1..], c))
  }

  /** The end of the search for the closing bracket, from q on; the first character is no end. */
  function Closing(pat: Bytes, q: nat): (r: Option<nat>)
    ensures r.Some? ==> q < r.value < |pat| && pat[r.value] == ']' as nat
    decreases |pat| - q
  {
    if At(pat, q) == 0 then None
    else
      var n := if At(pat, q) == '%' as nat && At(pat, q + 1) != 0 then q + 2 else q + 1;
      if At(pat, n) == ']' as nat then Some(n) else Closing(pat, n)
  }

  /** classend */
  function ClassEnd(pat: Bytes, p: nat): (r: Result<nat>)
    requires At(pat, p) != 0
    ensures r.Ok? ==> p < r.value <= |pat|
    ensures r.Ok? && At(pat, p) == '[' as nat ==> r.value >= p + 3 && At(pat, r.value - 1) == ']' as nat
  {
    if At(pat, p) == '%' as nat then
      (if At(pat, p + 1) == 0 then Err(EndsWithPercent) else Ok(p + 2))
    else if At(pat, p) == '[' as nat then
      match Closing(pat, FirstMember(pat, p))
      case None => Err(MissingBracket)
      case Some(r) => Ok(r + 1)
    else Ok(p + 1)
  }

  /** singlematch */
  predicate Single(pat: Bytes, p: nat, ep: nat, c: nat) {
    if At(pat, p) == '.' as nat then true
    else if At(pat, p) == '%' as nat then MatchClass(c, At(pat, p + 1))
    else if At(pat, p) == '[' as nat then ep > 0 && InSet(pat, p, ep - 1, c)
    else At(pat, p) == c
  }

  // ---- pattern items ----------------------------------------------------------------------

  datatype Rep = Once | Optional | Longest | OnceOrMore | Shortest

  /** What the pattern says at one place, and where it goes on. */
  datatype Item =
    | End
    | AtEnd
    | Open(what: int, next: nat)
    | Close(next: nat)
    | Balance(b: nat, e: nat, next: nat)
    | Frontier(open: nat, next: nat)
    | Back(digit: nat, next: nat)
    | Item(ep: nat, rep: Rep, next: nat)
    | Malformed(error: Error)

  function ItemAt(pat: Bytes, p: nat): (r: Item)
    ensures (r.Open? || r.Close? || r.Balance? || r.Frontier? || r.Back? || r.Item?) ==> p < r.next <= |pat|
    ensures r.Open? ==> r.what == CAP_POSITION || r.what == CAP_UNFINISHED
    ensures r.Item? ==> p < r.ep <= r.next && At(pat, p) != 0 && ClassEnd(pat, p) == Ok(r.ep)
  {
    var c, d := At(pat, p), At(pat, p + 1);
    if c == 0 then End
    else if c == '(' as nat then (if d == ')' as nat then Open(CAP_POSITION, p + 2) else Open(CAP_UNFINISHED, p + 1))
    else if c == ')' as nat then Close(p + 1)
    else if c == '$' as nat && d == 0 then AtEnd
    else if c == '%' as nat && d == 'b' as nat then
      (if At(pat, p + 2) == 0 || At(pat, p + 3) == 0 then Malformed(Unbalanced) else Balance(At(pat, p + 2), At(pat, p + 3), p + 4))
    else if c == '%' as nat && d == 'f' as nat then
      (if At(pat, p + 2) != '[' as nat then Malformed(MissingFrontier)
       else match ClassEnd(pat, p + 2)
            case Err(x) => Malformed(x)
            case Ok(ep) => Frontier(p + 2, ep))
    else if c == '%' as nat && IsDigit(d) then Back(d, p + 2)
    else
      match ClassEnd(pat, p)
      case Err(x) => Malformed(x)
      case Ok(ep) =>
        if At(pat, ep) == '?' as nat then Item(ep, Optional, ep + 1)
        else if At(pat, ep) == '*' as nat then Item(ep, Longest, ep + 1)
        else if At(pat, ep) == '+' as nat then Item(ep, OnceOrMore, ep + 1)
        else if At(pat, ep) == '-' as nat then Item(ep, Shortest, ep + 1)
        else Item(ep, Once, ep)
  }

  // ---- captures ---------------------------------------------------------------------------

  datatype Cap = Cap(init: nat, len: int)

  /** capture_to_close: the last open capture. */
  function LastOpen(caps: seq<Cap>): (r: Option<nat>)
    ensures r.Some? ==> r.value < |caps| && caps[r.value].len == CAP_UNFINISHED && forall i {:trigger caps[i]} :: r.value < i < |caps| ==> caps[i].len != CAP_UNFINISHED
    ensures r.None? ==> forall i {:trigger caps[i]} :: 0 <= i < |caps| ==> caps[i].len != CAP_UNFINISHED
  {
    if caps == [] then None
    else if caps[|caps| - 1].len == CAP_UNFINISHED then Some(|caps| - 1)
    else LastOpen(caps[..|caps| - 1])
  }

  /** check_capture */
  function CheckCapture(caps: seq<Cap>, digit: nat): (r: Option<nat>)
    ensures r.Some? ==> r.value < |caps| && caps[r.value].len != CAP_UNFINISHED
  {
    var l: int := digit - '1' as int;
    if l < 0 || l >= |caps| || caps[l].len == CAP_UNFINISHED then None else Some(l)
  }

  /** The text of capture c starts at s too; a position has no text. */
  ghost predicate Again(src: Bytes, c: Cap, s: nat) {
    c.len >= 0 && s + c.len <= |src| && c.init + c.len <= |src| && src[c.init..c.init + c.len] == src[s..s + c.len]
  }

  // ---- balanced strings -------------------------------------------------------------------

  /** The scan of matchbalance: cont open pairs at i. */
  function Balanced(src: Bytes, i: nat, b: nat, e: nat, cont: nat): (r: Option<nat>)
    ensures r.Some? ==> i < r.value <= |src|
    decreases |src| - i
  {
    if i >= |src| then None
    else if src[i] == e then (if cont <= 1 then Some(i + 1) else Balanced(src, i + 1, b, e, cont - 1))
    else if src[i] == b then Balanced(src, i + 1, b, e, cont + 1)
    else Balanced(src, i + 1, b, e, cont)
  }

  /** Opening minus closing characters; the same character closes. */
  function Depth(t: Bytes, b: nat, e: nat): int {
    if t == [] then 0
    else Depth(t[..|t| - 1], b, e) + (if t[|t| - 1] == e then -1 else if t[|t| - 1] == b then 1 else 0)
  }

  /** The balanced string from i on ends where the depth first comes down to zero. */
  lemma {:induction false} BalancedFirst(src: Bytes, s: nat, i: nat, b: nat, e: nat, cont: nat)
    requires s < i <= |src| && cont >= 1 && cont == 1 + Depth(src[s + 1..i], b, e)
    ensures match Balanced(src, i, b, e, cont)
            case Some(r) => i < r <= |src| && Depth(src[s + 1..r], b, e) == -1 && forall k {:trigger src[s + 1..k]} :: i <= k < r ==> Depth(src[s + 1..k], b, e) >= 0
            case None => forall k {:trigger src[s + 1..k]} :: i <= k <= |src| ==> Depth(src[s + 1..k], b, e) >= 0
    decreases |src| - i
  {
    if i < |src| {
      assert src[s + 1..i + 1][..i - s - 1] == src[s + 1..i];
      if !(src[i] == e && cont == 1) {
        BalancedFirst(src, s, i + 1, b, e, if src[i] == e then cont - 1 else if src[i] == b then cont + 1 else cont);
      }
    }
  }

  // ---- outcomes ---------------------------------------------------------------------------

  /** What an attempt can come to: a match that ends at e with captures, or an error. */
  datatype Outcome = Hit(e: nat, caps: seq<Cap>) | Raise(error: Error)

  datatype Text = Text(src: Bytes, pat: Bytes)

  /** How many characters from s on a single-character item matches. */
  ghost function Run(x: Text, p: nat, ep: nat, s: nat): (n: nat)
    ensures s <= |x.src| ==> s + n <= |x.src|
    ensures forall k {:trigger x.src[k]} :: s <= k < s + n && k < |x.src| ==> Single(x.pat, p, ep, x.src[k])
    ensures s + n < |x.src| ==> !Single(x.pat, p, ep, x.src[s + n])
    decreases |x.src| - s
  {
    if s < |x.src| && Single(x.pat, p, ep, x.src[s]) then 1 + Run(x, p, ep, s + 1) else 0
  }

  /** match, called from nesting depth d. */
  ghost function Call(x: Text, p: nat, s: nat, caps: seq<Cap>, d: nat): seq<Outcome>
    decreases |x.pat| - p, 2
  {
    if d >= LJ_MAX_XLEVEL then [Raise(TooComplex)] else Outcomes(x, p, s, caps, d + 1)
  }

  /** Everything the pattern from p on can come to at s, best first. */
  ghost function Outcomes(x: Text, p: nat, s: nat, caps: seq<Cap>, d: nat): seq<Outcome>
    decreases |x.pat| - p, 1
  {
    match ItemAt(x.pat, p)
    case End => [Hit(s, caps)]
    case AtEnd => if s == |x.src| then [Hit(s, caps)] else []
    case Open(what, next) => if |caps| >= LUA_MAXCAPTURES then [Raise(TooManyCaptures)] else Call(x, next, s, caps + [Cap(s, what)], d)
    case Close(next) =>
      (match LastOpen(caps)
       case None => [Raise(NoOpenCapture)]
       case Some(l) => Call(x, next, s, caps[l := Cap(caps[l].init, s - caps[l].init)], d))
    case Balance(b, e, next) =>
      if At(x.src, s) != b then []
      else (match Balanced(x.src, s + 1, b, e, 1)
            case None => []
            case Some(s') => Outcomes(x, next, s', caps, d))
    case Frontier(open, next) =>
      if InSet(x.pat, open, next - 1, if s == 0 then 0 else At(x.src, s - 1)) || !InSet(x.pat, open, next - 1, At(x.src, s)) then []
      else Outcomes(x, next, s, caps, d)
    case Back(digit, next) =>
      (match CheckCapture(caps, digit)
       case None => [Raise(InvalidCapture)]
       case Some(l) => if Again(x.src, caps[l], s) then Outcomes(x, next, s + caps[l].len, caps, d) else [])
    case Item(ep, rep, next) => Repetitions(x, p, ep, rep, next, s, caps, d)
    case Malformed(error) => [Raise(error)]
  }

  /** A single-character item with its suffix. */
  ghost function Repetitions(x: Text, p: nat, ep: nat, rep: Rep, next: nat, s: nat, caps: seq<Cap>, d: nat): seq<Outcome>
    requires p < next <= |x.pat|
    decreases |x.pat| - p, 0
  {
    var m := s < |x.src| && Single(x.pat, p, ep, x.src[s]);
    match rep
    case Once => if m then Outcomes(x, next, s + 1, caps, d) else []
    case Optional => (if m then Call(x, next, s + 1, caps, d) else []) + Outcomes(x, next, s, caps, d)
    case Longest => Descending(x, next, s, Run(x, p, ep, s), caps, d)
    case OnceOrMore => if m then Descending(x, next, s + 1, Run(x, p, ep, s + 1), caps, d) else []
    case Shortest => Ascending(x, next, s, Run(x, p, ep, s), caps, d)
  }

  /** The rest after n repetitions, then after fewer. */
  ghost function Descending(x: Text, next: nat, s: nat, n: nat, caps: seq<Cap>, d: nat): seq<Outcome>
    decreases |x.pat| - next, 3, n
  {
    Call(x, next, s + n, caps, d) + (if n == 0 then [] else Descending(x, next, s, n - 1, caps, d))
  }

  /** The rest after no repetition, then after more, up to n. */
  ghost function Ascending(x: Text, next: nat, s: nat, n: nat, caps: seq<Cap>, d: nat): seq<Outcome>
    decreases |x.pat| - next, 3, n
  {
    Call(x, next, s, caps, d) + (if n == 0 then [] else Ascending(x, next, s + 1, n - 1, caps, d))
  }
}
