/** What string.find, string.match and string.gsub answer when the pattern and the replacement are
    written down as section 5.4 of the Lua 5.1 Reference Manual says. */
module GsubText {
  import opened Pattern
  import opened PatternFacts
  import opened PatternText
  import opened Matcher
  import Gsub

  // ---- patterns with an anchor ---------------------------------------------------------------

  /** The text of a pattern; ^ in front anchors it. */
  function PatternOf(anchor: bool, ps: seq<Piece>, end: bool): Bytes {
    (if anchor then ['^' as nat] else []) + Spelled(ps, end)
  }

  /** The pieces of such a pattern start behind the anchor. */
  lemma AnchorAt(anchor: bool, ps: seq<Piece>, end: bool)
    requires PiecesOk(ps)
    ensures var pat := PatternOf(anchor, ps, end);
            (At(pat, 0) == '^' as nat <==> anchor) && Written(pat, if anchor then 1 else 0, ps, end)
  {
    var pat := PatternOf(anchor, ps, end);
    if !anchor && ps != [] {
      PieceFirst(ps[0]);
      NoAnchor(ps[0]);
    }
    assert pat[if anchor then 1 else 0..] == Spelled(ps, end);
  }

  lemma NoAnchor(i: PatternText.Piece)
    requires PieceOk(i)
    ensures |PieceText(i)| >= 1 && PieceText(i)[0] != '^' as nat
  {
  }

  // ---- captures --------------------------------------------------------------------------------

  /** What a capture is to a Lua program: the text it took, or the position, counted from one. */
  function ValueOf(src: Bytes, c: Cap): Gsub.Value {
    if c.len == -2 then Gsub.Pos(c.init + 1)
    else if 0 <= c.len && c.init + c.len <= |src| then Gsub.Str(src[c.init..c.init + c.len])
    else Gsub.Str([])
  }

  predicate Closed(caps: seq<Cap>) {
    forall i {:trigger caps[i]} :: 0 <= i < |caps| ==> caps[i].len != -1
  }

  function Values(src: Bytes, caps: seq<Cap>): seq<Gsub.Value> {
    seq(|caps|, i requires 0 <= i < |caps| => ValueOf(src, caps[i]))
  }

  lemma OneValue(src: Bytes, caps: seq<Cap>, i: nat, s: nat, e: nat)
    requires s <= e <= |src| && CapsOk(caps, e) && i < |caps|
    ensures Gsub.OneCapture(src, caps, i, s, e) == if caps[i].len == -1 then Err(UnfinishedCapture) else Ok(ValueOf(src, caps[i]))
  {
  }

  lemma {:induction false} CapturesAre(src: Bytes, caps: seq<Cap>, i: nat, s: nat, e: nat)
    requires s <= e <= |src| && CapsOk(caps, e) && i <= |caps|
    ensures var r := Gsub.Captures(src, caps, i, |caps|, s, e);
            if Closed(caps[i..]) then r == Ok(Values(src, caps[i..])) else r == Err(UnfinishedCapture)
    decreases |caps| - i
  {
    hide CapsOk, Gsub.OneCapture, ValueOf;
    if i < |caps| {
      OneValue(src, caps, i, s, e);
      CapturesAre(src, caps, i + 1, s, e);
      assert caps[i..] == [caps[i]] + caps[i + 1..];
      assert Closed(caps[i..]) <==> caps[i].len != -1 && Closed(caps[i + 1..]) by {
        assert caps[i..][0] == caps[i];
        assert forall j {:trigger caps[i + 1..][j]} :: 0 <= j < |caps[i + 1..]| ==> caps[i + 1..][j] == caps[i..][j + 1];
      }
      assert Values(src, caps[i..]) == [ValueOf(src, caps[i])] + Values(src, caps[i + 1..]);
    } else {
      assert Values(src, caps[i..]) == [];
    }
  }

  // ---- string.find and string.match ----------------------------------------------------------------

  /** The answer for a match from at to e: find gives the first and the last position, counted from
      one, and the captures; match gives the captures, or the whole match if there are none. */
  function Answer(src: Bytes, find: bool, at: nat, e: nat, caps: seq<Cap>): Gsub.Reply {
    if !Closed(caps) then Gsub.Failed(UnfinishedCapture)
    else if find then Gsub.Located(at + 1, e, Values(src, caps))
    else if caps == [] && at <= e <= |src| then Gsub.Matched([Gsub.Str(src[at..e])])
    else Gsub.Matched(Values(src, caps))
  }

  lemma AnswerIs(src: Bytes, find: bool, at: nat, e: nat, caps: seq<Cap>)
    requires at <= e <= |src| && CapsOk(caps, e)
    ensures Gsub.ReplyOf(src, find, at, Found(e), caps) == Answer(src, find, at, e, caps)
  {
    hide CapsOk;
    CapturesAre(src, caps, 0, at, e);
    assert caps[0..] == caps;
    if caps == [] {
      WholeMatch(src, at, e);
    }
  }

  /** Position i from the front and the same from the back start at the same character; what lies
      outside is cut to the ends. */
  lemma StartPlaces(len: nat, i: int)
    ensures 1 <= i <= len ==> Gsub.StartOf(len, i) == i - 1 && Gsub.StartOf(len, i - len - 1) == i - 1
    ensures i > len ==> Gsub.StartOf(len, i) == len
    ensures i == 0 || i + len < 0 ==> Gsub.StartOf(len, i) == 0
  {
  }

  /** The answer tells of the leftmost place from start on, or only of start if there is an anchor,
      where the pieces mean a match. */
  ghost predicate Leftmost(src: Bytes, anchor: bool, ps: seq<Piece>, end: bool, start: nat, find: bool, at: nat, e: nat, caps: seq<Cap>, reply: Gsub.Reply) {
    && start <= at <= (if anchor then start else |src|) && at <= e <= |src|
    && Means(src, ps, end, at, [], e, caps) && reply == Answer(src, find, at, e, caps)
    && forall q: nat {:trigger MeansSome(src, ps, end, q)} :: start <= q < at ==> !MeansSome(src, ps, end, q)
  }

  /** string.find and string.match on a written pattern below the depth limit: nil if and only if
      the pieces mean no match anywhere, or the answer for the leftmost match, or an error about
      captures. */
  lemma FindWritten(src: Bytes, anchor: bool, ps: seq<Piece>, end: bool, start: nat, find: bool, reply: Gsub.Reply)
    requires PiecesOk(ps) && start <= |src| && |PatternOf(anchor, ps, end)| < LJ_MAX_XLEVEL
    requires Gsub.Answers(Text(src, PatternOf(anchor, ps, end)), start, find, reply)
    ensures reply.Nothing? ==> forall q: nat {:trigger MeansSome(src, ps, end, q)} :: start <= q <= (if anchor then start else |src|) ==> !MeansSome(src, ps, end, q)
    ensures reply.Located? || reply.Matched? || reply == Gsub.Failed(UnfinishedCapture) ==>
              exists at: nat, e: nat, caps :: Leftmost(src, anchor, ps, end, start, find, at, e, caps, reply)
    ensures reply.Failed? ==> reply.error in {UnfinishedCapture, TooManyCaptures, NoOpenCapture, InvalidCapture}
  {
    hide Call, CapsOk, PatternOf, PiecesOk, Written, Means, MeansSome, Answer, Gsub.ReplyOf;
    AnchorAt(anchor, ps, end);
    var x := Text(src, PatternOf(anchor, ps, end));
    var p := if anchor then 1 else 0;
    var at: nat, r: Attempt, caps: seq<Cap> :| Gsub.AnswersWith(x, start, find, reply, at, r, caps);
    forall q: nat | start <= q <= |src| ensures Call(x, p, q, [], 0) == [] ==> !MeansSome(src, ps, end, q) {
      WrittenFirst(x, p, ps, end, q);
    }
    match r
    case NoMatch => ReplyCases(src, find, at, r, caps);
    case Error(_) =>
      ReplyCases(src, find, at, r, caps);
      WrittenFirst(x, p, ps, end, at);
    case Found(e) =>
      WrittenFirst(x, p, ps, end, at);
      AnswerIs(src, find, at, e, caps);
      AnswerCases(src, find, at, e, caps);
      assert Leftmost(src, anchor, ps, end, start, find, at, e, caps, reply);
  }

  lemma ReplyCases(src: Bytes, find: bool, at: nat, r: Attempt, caps: seq<Cap>)
    requires !r.Found?
    ensures Gsub.ReplyOf(src, find, at, r, caps) == if r.NoMatch? then Gsub.Nothing else Gsub.Failed(r.error)
  {
  }

  lemma AnswerCases(src: Bytes, find: bool, at: nat, e: nat, caps: seq<Cap>)
    ensures var a := Answer(src, find, at, e, caps); !a.Nothing? && (a.Failed? ==> a == Gsub.Failed(UnfinishedCapture))
  {
  }

  // ---- templates -------------------------------------------------------------------------------------

  /** An element of a replacement template: a character, one quoted with %, or the text of the match
      (%0) or of a capture (%1 to %9). */
  datatype Token = Verb(c: nat) | Quoted(c: nat) | Whole | Capture(k: nat)

  predicate TokenOk(t: Token) {
    match t
    case Verb(c) => c != '%' as nat
    case Quoted(c) => !(48 <= c <= 57)
    case Whole => true
    case Capture(k) => 1 <= k <= 9
  }

  function TokenText(t: Token): Bytes {
    match t
    case Verb(c) => [c]
    case Quoted(c) => ['%' as nat, c]
    case Whole => ['%' as nat, 48]
    case Capture(k) => ['%' as nat, 48 + k]
  }

  function TemplateText(ts: seq<Token>): Bytes {
    if ts == [] then [] else TokenText(ts[0]) + TemplateText(ts[1..])
  }

  predicate TokensOk(ts: seq<Token>) {
    forall i {:trigger ts[i]} :: 0 <= i < |ts| ==> TokenOk(ts[i])
  }

  /** What a token puts in for the match from s to e. %1 is the whole match if there are no captures. */
  function TokenValue(t: Token, src: Bytes, caps: seq<Cap>, s: nat, e: nat): Result<Bytes>
    requires s <= e <= |src|
  {
    match t
    case Verb(c) => Ok([c])
    case Quoted(c) => Ok([c])
    case Whole => Ok(src[s..e])
    case Capture(k) =>
      if k == 1 && caps == [] then Ok(src[s..e])
      else if k == 0 || k > |caps| then Err(InvalidCapture)
      else if caps[k - 1].len == -1 then Err(UnfinishedCapture)
      else match ValueOf(src, caps[k - 1]) case Str(t) => Ok(t) case Pos(n) => Ok(Gsub.Decimal(n))
  }

  function TemplateValue(ts: seq<Token>, src: Bytes, caps: seq<Cap>, s: nat, e: nat): Result<Bytes>
    requires s <= e <= |src|
  {
    if ts == [] then Ok([])
    else
      match TokenValue(ts[0], src, caps, s, e)
      case Err(x) => Err(x)
      case Ok(t) =>
        match TemplateValue(ts[1..], src, caps, s, e)
        case Err(x) => Err(x)
        case Ok(u) => Ok(t + u)
  }

  lemma TokenAt(news: Bytes, i: nat, t: Token, src: Bytes, caps: seq<Cap>, s: nat, e: nat)
    requires TokenOk(t) && Stands(news, i, TokenText(t)) && s <= e <= |src| && CapsOk(caps, e)
    ensures i < |news|
    ensures match TokenValue(t, src, caps, s, e)
            case Err(x) => Gsub.TemplateStep(news, i, src, caps, s, e) == Err(x)
            case Ok(v) => Gsub.TemplateStep(news, i, src, caps, s, e) == Ok((v, i + |TokenText(t)|))
  {
    hide Stands, CapsOk;
    StandsAt(news, i, TokenText(t), 0);
    StandsIn(news, i, TokenText(t));
    if !t.Verb? {
      StandsAt(news, i, TokenText(t), 1);
    }
    if t.Capture? && t.k <= |caps| {
      OneValue(src, caps, t.k - 1, s, e);
    }
  }

  lemma StandsIn(pat: Bytes, p: nat, t: Bytes)
    requires Stands(pat, p, t)
    ensures p + |t| <= |pat|
  {
  }

  /** A written template is filled in as it says. */
  lemma {:induction false} FillWritten(news: Bytes, i: nat, ts: seq<Token>, src: Bytes, caps: seq<Cap>, s: nat, e: nat)
    requires TokensOk(ts) && i <= |news| && news[i..] == TemplateText(ts) && s <= e <= |src| && CapsOk(caps, e)
    ensures Gsub.Fill(news, i, src, caps, s, e) == TemplateValue(ts, src, caps, s, e)
    decreases |ts|
  {
    hide CapsOk, TokenValue, TokenText, TokenOk, Gsub.TemplateStep;
    if ts != [] {
      var t, u := TokenText(ts[0]), TemplateText(ts[1..]);
      TokenSize(ts[0]);
      assert Stands(news, i, t + u);
      StandsParts(news, i, t, u);
      assert news[i + |t|..] == news[i..][|t|..] == u;
      TokenAt(news, i, ts[0], src, caps, s, e);
      FillWritten(news, i + |t|, ts[1..], src, caps, s, e);
    }
  }

  lemma TokenSize(t: Token)
    ensures 1 <= |TokenText(t)| <= 2
  {
  }

  /** What a table or a function gives for a match: false and nil keep its text. */
  function GivenText(g: Gsub.Given, text: Bytes): Result<Bytes> {
    match g
    case Replaced(t) => Ok(t)
    case Unfit => Err(BadReplacement)
    case _ => Ok(text)
  }

  /** A function is called with the values of all captures, and a table is asked for the first; both
      with the whole match if there are no captures. */
  lemma CallsWithCaptures(get: Gsub.Value -> Gsub.Given, call: seq<Gsub.Value> -> Gsub.Given, src: Bytes, caps: seq<Cap>, s: nat, e: nat)
    requires s <= e <= |src| && CapsOk(caps, e) && Closed(caps)
    ensures var vs, text := if caps == [] then [Gsub.Str(src[s..e])] else Values(src, caps), src[s..e];
            && Gsub.NewText(Gsub.Function(call), src, caps, s, e) == GivenText(call(vs), text)
            && Gsub.NewText(Gsub.Table(get), src, caps, s, e) == GivenText(get(vs[0]), text)
  {
    hide CapsOk;
    CapturesAre(src, caps, 0, s, e);
    assert caps[0..] == caps;
    if caps == [] {
      WholeMatch(src, s, e);
    } else {
      OneValue(src, caps, 0, s, e);
    }
  }

  lemma WholeMatch(src: Bytes, s: nat, e: nat)
    requires s <= e <= |src| && CapsOk([], e)
    ensures Gsub.Captures(src, [], 0, 1, s, e) == Ok([Gsub.Str(src[s..e])])
  {
    assert Gsub.Captures(src, [], 1, 1, s, e) == Ok([]);
    assert [Gsub.Str(src[s..e])] + [] == [Gsub.Str(src[s..e])];
  }

  /** The digits of a number read back. */
  function Reading(t: Bytes): int {
    if t == [] then 0 else 10 * Reading(t[..|t| - 1]) + t[|t| - 1] - 48
  }

  lemma {:induction false} DecimalReads(n: nat)
    ensures Reading(Gsub.Decimal(n)) == n && |Gsub.Decimal(n)| >= 1 && (n > 0 ==> Gsub.Decimal(n)[0] != 48)
    ensures forall i {:trigger Gsub.Decimal(n)[i]} :: 0 <= i < |Gsub.Decimal(n)| ==> 48 <= Gsub.Decimal(n)[i] <= 57
  {
    var t := Gsub.Decimal(n);
    if n >= 10 {
      DecimalReads(n / 10);
      assert t[..|t| - 1] == Gsub.Decimal(n / 10);
    } else {
      assert t[..|t| - 1] == [];
    }
  }

  // ---- string.gsub -------------------------------------------------------------------------------------

  /** Every piece of the result is what the pattern and the template say: a match that the pieces of
      the pattern mean, with the template filled in from its captures, or a character where they
      mean no match, unless an empty match was replaced right before it. */
  ghost predicate PieceMeans(src: Bytes, ps: seq<Piece>, end: bool, ts: seq<Token>, done: seq<Gsub.Piece>, i: nat)
    requires i < |done|
  {
    match done[i]
    case New(s, e, text) =>
      s <= e <= |src| && exists caps :: Means(src, ps, end, s, [], e, caps) && TemplateValue(ts, src, caps, s, e) == Ok(text)
    case Kept(at, c) =>
      && at < |src| && c == src[at]
      && (!MeansSome(src, ps, end, at) || (i > 0 && done[i - 1].New? && done[i - 1].s == done[i - 1].e == at))
  }

  lemma GsubWritten(src: Bytes, anchor: bool, ps: seq<Piece>, end: bool, ts: seq<Token>, done: seq<Gsub.Piece>, pos: nat, i: nat)
    requires PiecesOk(ps) && TokensOk(ts) && |PatternOf(anchor, ps, end)| < LJ_MAX_XLEVEL && i < |done|
    requires Gsub.Pieces(Text(src, PatternOf(anchor, ps, end)), if anchor then 1 else 0, Gsub.Template(TemplateText(ts)), done, pos)
    ensures PieceMeans(src, ps, end, ts, done, i)
  {
    hide Call, CapsOk, PatternOf, PiecesOk, Written, Means, MeansSome, TemplateValue, Gsub.Fill;
    AnchorAt(anchor, ps, end);
    var x, p, repl := Text(src, PatternOf(anchor, ps, end)), if anchor then 1 else 0, Gsub.Template(TemplateText(ts));
    assert Gsub.GoodPiece(x, p, repl, done[i]);
    match done[i]
    case New(s, e, text) =>
      var caps :| Gsub.Replaces(x, p, repl, s, e, text, caps);
      WrittenFirst(x, p, ps, end, s);
      assert TemplateText(ts)[0..] == TemplateText(ts);
      FillWritten(TemplateText(ts), 0, ts, src, caps, s, e);
    case Kept(at, _) => WrittenFirst(x, p, ps, end, at);
  }
}
