/** How a template is written for a separator of one character (main.c): what a backslash is for. */
module TemplateEscape {
  import opened TemplateScan

  /** A character as it stands, or one behind a backslash. */
  datatype Unit = Plain(c: char) | Escaped(c: char)

  predicate UnitsOk(q: char, us: seq<Unit>) {
    forall i {:trigger us[i]} :: 0 <= i < |us| && us[i].Plain? ==> us[i].c != BACKSLASH && us[i].c != q
  }

  function UnitText(u: Unit): string {
    match u
    case Plain(c) => [c]
    case Escaped(c) => [BACKSLASH, c]
  }

  function UnitsText(us: seq<Unit>): string {
    if us == [] then "" else UnitText(us[0]) + UnitsText(us[1..])
  }

  /** A backslash makes the separator an ordinary character, and joins lines of text. In front of
      anything else, and of a line end in code, it stays. */
  function UnitMeans(q: char, code: bool, u: Unit): string {
    match u
    case Plain(c) => [c]
    case Escaped(c) =>
      if c == q then [q]
      else if c == '\n' && !code then ""
      else ['\\', c]
  }

  function UnitsMean(q: char, code: bool, us: seq<Unit>): string {
    if us == [] then "" else UnitMeans(q, code, us[0]) + UnitsMean(q, code, us[1..])
  }

  /** Pieces with separators between them, and perhaps a lone backslash at the end. */
  function TemplateText(q: char, pss: seq<seq<Unit>>, lone: bool): string
    requires pss != []
  {
    UnitsText(pss[0]) + if |pss| == 1 then (if lone then ['\\'] else "") else [q] + TemplateText(q, pss[1..], lone)
  }

  /** Text and code in turn. */
  function TemplateMeans(q: char, pss: seq<seq<Unit>>, lone: bool, code: bool): seq<string>
    requires pss != []
  {
    var t := UnitsMean(q, code, pss[0]);
    if |pss| == 1 then [t + if lone then ['\\'] else ""] else [t] + TemplateMeans(q, pss[1..], lone, !code)
  }

  /** What is left of the input from i on. */
  ghost predicate Left(input: string, i: nat, t: string) { i <= |input| && input[i..] == t }

  lemma LeftSplit(input: string, i: nat, t: string, rest: string)
    requires Left(input, i, t + rest)
    ensures i + |t| <= |input| && Left(input, i + |t|, rest)
    ensures |t| > 0 ==> input[i] == t[0]
    ensures |t| > 1 ==> input[i + 1] == t[1]
  {
    assert input[i + |t|..] == input[i..][|t|..];
    assert |t| > 0 ==> input[i] == input[i..][0];
    assert |t| > 1 ==> input[i + 1] == input[i..][1];
  }

  lemma UnitsFirst(q: char, code: bool, us: seq<Unit>, rest: string, cur: string)
    requires us != []
    ensures UnitsText(us) + rest == UnitText(us[0]) + (UnitsText(us[1..]) + rest)
    ensures cur + UnitsMean(q, code, us) == cur + UnitMeans(q, code, us[0]) + UnitsMean(q, code, us[1..])
    ensures |UnitsText(us)| == |UnitText(us[0])| + |UnitsText(us[1..])|
  {
    hide UnitText, UnitMeans;
  }

  lemma UnitsNone(q: char, code: bool, us: seq<Unit>, rest: string, cur: string)
    requires us == []
    ensures UnitsText(us) + rest == rest && cur + UnitsMean(q, code, us) == cur && |UnitsText(us)| == 0
  {
  }

  /** A piece has been passed. */
  lemma {:induction false} UnitsPass(q: char, input: string, i: nat, us: seq<Unit>, rest: string, code: bool, cur: string)
    requires q != BACKSLASH && q != NEWLINE && UnitsOk(q, us) && Left(input, i, UnitsText(us) + rest)
    ensures Left(input, i + |UnitsText(us)|, rest)
    ensures SplitFrom([q], input, i, code, cur) == SplitFrom([q], input, i + |UnitsText(us)|, code, cur + UnitsMean(q, code, us))
    decreases |us|
  {
    hide SplitFrom, UnitText, UnitMeans, UnitsText, UnitsMean, Left;
    if us == [] {
      UnitsNone(q, code, us, rest, cur);
    } else {
      UnitsFirst(q, code, us, rest, cur);
      UnitPasses(q, input, i, us[0], UnitsText(us[1..]) + rest, code, cur);
      UnitsPass(q, input, i + |UnitText(us[0])|, us[1..], rest, code, cur + UnitMeans(q, code, us[0]));
    }
  }

  lemma UnitPasses(q: char, input: string, i: nat, u: Unit, rest: string, code: bool, cur: string)
    requires q != BACKSLASH && q != NEWLINE && (u.Plain? ==> u.c != BACKSLASH && u.c != q) && Left(input, i, UnitText(u) + rest)
    ensures Left(input, i + |UnitText(u)|, rest)
    ensures SplitFrom([q], input, i, code, cur) == SplitFrom([q], input, i + |UnitText(u)|, code, cur + UnitMeans(q, code, u))
  {
    LeftSplit(input, i, UnitText(u), rest);
    hide Left;
    if u.Escaped? {
      SplitEscape([q], input, i, code, cur);
    } else {
      NoShortSep([q], input, i);
    }
  }

  lemma LastSplit(q: char, input: string, k: nat, lone: bool, code: bool, t: string)
    requires Left(input, k, if lone then ['\\'] else "")
    ensures SplitFrom([q], input, k, code, t) == [t + if lone then ['\\'] else ""]
  {
    if lone {
      assert input[k] == input[k..][0];
    } else {
      assert t + "" == t;
    }
  }

  lemma NextSplit(q: char, input: string, k: nat, rest: string, code: bool, t: string)
    requires q != BACKSLASH && Left(input, k, [q] + rest)
    ensures Left(input, k + 1, rest)
    ensures SplitFrom([q], input, k, code, t) == [t] + SplitFrom([q], input, k + 1, !code, "")
  {
    hide SplitFrom;
    LeftSplit(input, k, [q], rest);
    assert input[k..k + 1] == [q];
    SplitNext([q], input, k, code, t);
  }

  lemma {:induction false} PiecesSplit(q: char, input: string, i: nat, pss: seq<seq<Unit>>, lone: bool, code: bool)
    requires q != BACKSLASH && q != NEWLINE && pss != [] && (forall j {:trigger pss[j]} :: 0 <= j < |pss| ==> UnitsOk(q, pss[j]))
    requires Left(input, i, TemplateText(q, pss, lone))
    ensures SplitFrom([q], input, i, code, "") == TemplateMeans(q, pss, lone, code)
    decreases |pss|
  {
    hide SplitFrom, UnitsText, UnitsMean, UnitsOk, Left;
    var t, k := UnitsMean(q, code, pss[0]), i + |UnitsText(pss[0])|;
    assert "" + t == t;
    if |pss| == 1 {
      UnitsPass(q, input, i, pss[0], if lone then ['\\'] else "", code, "");
      LastSplit(q, input, k, lone, code, t);
    } else {
      UnitsPass(q, input, i, pss[0], [q] + TemplateText(q, pss[1..], lone), code, "");
      NextSplit(q, input, k, TemplateText(q, pss[1..], lone), code, t);
      PiecesSplit(q, input, k + 1, pss[1..], lone, !code);
    }
  }

  /** For a separator of one character, which is no backslash and no line end, the scanner takes
      every template for what is written there. */
  lemma ScansWritten(q: char, pss: seq<seq<Unit>>, lone: bool)
    requires q != '\\' && q != '\n' && pss != [] && (forall j {:trigger pss[j]} :: 0 <= j < |pss| ==> UnitsOk(q, pss[j]))
    ensures Scanned([q], TemplateText(q, pss, lone)) == TemplateMeans(q, pss, lone, false)
  {
    hide Scanned, SplitFrom, TemplateText, TemplateMeans;
    var input := TemplateText(q, pss, lone);
    assert input[0..] == input;
    ScanExact([q]);
    PiecesSplit(q, input, 0, pss, lone, false);
  }

  // ---- any pieces can be written -----------------------------------------------------------------

  /** The text with a backslash before every separator. */
  function Guarded(q: char, t: string): string {
    if t == "" then "" else (if t[0] == q then ['\\', q] else [t[0]]) + Guarded(q, t[1..])
  }

  function GuardedAll(q: char, ps: seq<string>): seq<string> {
    if ps == [] then [] else [Guarded(q, ps[0])] + GuardedAll(q, ps[1..])
  }

  function AsUnits(q: char, t: string): seq<Unit> {
    seq(|t|, i requires 0 <= i < |t| => if t[i] == q then Escaped(q) else Plain(t[i]))
  }

  lemma {:induction false} GuardedUnits(q: char, t: string, code: bool)
    requires q != '\\' && q != '\n' && '\\' !in t
    ensures UnitsText(AsUnits(q, t)) == Guarded(q, t) && UnitsMean(q, code, AsUnits(q, t)) == t && UnitsOk(q, AsUnits(q, t))
    decreases |t|
  {
    var us := AsUnits(q, t);
    forall i {:trigger us[i]} | 0 <= i < |us| && us[i].Plain? ensures us[i].c != BACKSLASH && us[i].c != q {
      assert us[i].c == t[i] && t[i] in t;
    }
    if t != "" {
      GuardedUnits(q, t[1..], code);
      assert us[1..] == AsUnits(q, t[1..]);
      assert t == [t[0]] + t[1..];
    }
  }

  function AllUnits(q: char, ps: seq<string>): seq<seq<Unit>> {
    seq(|ps|, i requires 0 <= i < |ps| => AsUnits(q, ps[i]))
  }

  lemma {:induction false} GuardedPieces(q: char, ps: seq<string>, code: bool)
    requires q != '\\' && q != '\n' && ps != [] && forall i {:trigger ps[i]} :: 0 <= i < |ps| ==> '\\' !in ps[i]
    ensures TemplateText(q, AllUnits(q, ps), false) == Join(GuardedAll(q, ps), [q]) && TemplateMeans(q, AllUnits(q, ps), false, code) == ps
    ensures |GuardedAll(q, ps)| == |ps|
    decreases |ps|
  {
    hide AsUnits, UnitsText, UnitsMean, Guarded;
    var pss := AllUnits(q, ps);
    GuardedUnits(q, ps[0], code);
    if |ps| > 1 {
      GuardedPieces(q, ps[1..], !code);
      assert pss[1..] == AllUnits(q, ps[1..]);
      assert ps == [ps[0]] + ps[1..];
      JoinFirst(Guarded(q, ps[0]), GuardedAll(q, ps[1..]), [q]);
      assert Guarded(q, ps[0]) + [q] + Join(GuardedAll(q, ps[1..]), [q]) == Guarded(q, ps[0]) + ([q] + Join(GuardedAll(q, ps[1..]), [q]));
    } else {
      assert GuardedAll(q, ps[1..]) == [];
      assert ps == [ps[0]] && ps[0] + "" == ps[0] && Guarded(q, ps[0]) + "" == Guarded(q, ps[0]);
    }
  }

  /** Any texts and pieces of code without backslashes can be written: with a backslash before every
      separator in them, and separators between them, the scanner gives them back. */
  lemma EscapeRoundTrip(q: char, ps: seq<string>)
    requires q != '\\' && q != '\n' && ps != [] && forall i {:trigger ps[i]} :: 0 <= i < |ps| ==> '\\' !in ps[i]
    ensures Scanned([q], Join(GuardedAll(q, ps), [q])) == ps
  {
    hide Scanned, TemplateText, TemplateMeans, AsUnits;
    forall i | 0 <= i < |ps| ensures UnitsOk(q, AllUnits(q, ps)[i]) {
      GuardedUnits(q, ps[i], false);
    }
    GuardedPieces(q, ps, false);
    ScansWritten(q, AllUnits(q, ps), false);
  }
}
