/** The template compiler (main.c): the chunk it generates, and the map from the lines of the chunk
    to the lines of the template. */
module TemplateExpand {
  import opened TemplateScan
  import Q = TemplateQuote

  // ---- the chunk ----------------------------------------------------------------------------------

  /** A piece of text as a call that prints it. */
  function Quoted(text: string): string {
    if text == "" then "" else "tmg.print(" + Q.Bracket(text, Q.Level(text)) + ")\n"
  }

  /** Pieces are text and code in turn. */
  predicate IsCode(i: nat) { i % 2 == 1 }

  /** Piece i, with the line end for the separator behind it. */
  function Done(i: nat, t: string): string {
    if !IsCode(i) then "\n" + Quoted(t) else t + "\n"
  }

  /** Pieces that have been ended by a separator. */
  function Rendered(ps: seq<string>): string {
    if ps == [] then "" else Rendered(ps[..|ps| - 1]) + Done(|ps| - 1, ps[|ps| - 1])
  }

  /** The generated chunk: text pieces quoted, code pieces as they are, in order. */
  function Chunk(ps: seq<string>): string
    requires ps != []
  {
    Rendered(ps[..|ps| - 1]) + Last(|ps| - 1, ps[|ps| - 1])
  }

  /** Which characters of the chunk are code of the template. */
  function Fill(n: nat, b: bool): (r: seq<bool>)
    ensures |r| == n && forall i {:trigger r[i]} :: 0 <= i < n ==> r[i] == b
  {
    seq(n, i => b)
  }

  function DoneMask(i: nat, t: string): seq<bool> {
    if !IsCode(i) then Fill(|Done(i, t)|, false) else Fill(|t|, true) + [false]
  }

  function RenderedMask(ps: seq<string>): seq<bool> {
    if ps == [] then [] else RenderedMask(ps[..|ps| - 1]) + DoneMask(|ps| - 1, ps[|ps| - 1])
  }

  /** The last piece, which no separator has ended. */
  function Last(i: nat, t: string): string {
    if !IsCode(i) then Quoted(t) else t
  }

  function ChunkMask(ps: seq<string>): seq<bool>
    requires ps != []
  {
    RenderedMask(ps[..|ps| - 1]) + Fill(|Last(|ps| - 1, ps[|ps| - 1])|, IsCode(|ps| - 1))
  }

  lemma RenderedMore(ps: seq<string>, t: string)
    ensures Rendered(ps + [t]) == Rendered(ps) + Done(|ps|, t) && RenderedMask(ps + [t]) == RenderedMask(ps) + DoneMask(|ps|, t)
  {
    hide Done, DoneMask;
    assert (ps + [t])[..|ps|] == ps;
  }

  lemma ChunkIs(ps: seq<string>, t: string)
    ensures Chunk(ps + [t]) == Rendered(ps) + Last(|ps|, t)
    ensures ChunkMask(ps + [t]) == RenderedMask(ps) + Fill(|Last(|ps|, t)|, IsCode(|ps|))
  {
    hide Last, IsCode, Rendered, RenderedMask, Fill;
    var qs := ps + [t];
    assert qs[..|qs| - 1] == ps && qs[|qs| - 1] == t;
  }

  // ---- lines ----------------------------------------------------------------------------------------

  function Newlines(t: string): nat {
    if t == "" then 0 else Newlines(t[..|t| - 1]) + (if t[|t| - 1] == NEWLINE then 1 else 0)
  }

  /** The line of character j, counted from one; a line end belongs to the line it ends. */
  function LineAt(t: string, j: nat): nat
    requires j <= |t|
  {
    1 + Newlines(t[..j])
  }

  lemma NewlinesMore(t: string, c: char)
    ensures Newlines(t + [c]) == Newlines(t) + (if c == NEWLINE then 1 else 0)
  {
    assert (t + [c])[..|t|] == t;
  }

  lemma {:induction false} NewlinesPrefix(t: string, j: nat, k: nat)
    requires j <= k <= |t|
    ensures Newlines(t[..j]) <= Newlines(t[..k])
    ensures NEWLINE !in t[j..k] ==> Newlines(t[..j]) == Newlines(t[..k])
    decreases k
  {
    if j < k {
      assert t[..k][..k - 1] == t[..k - 1];
      NewlinesPrefix(t, j, k - 1);
      assert t[j..k] == t[j..k - 1] + [t[k - 1]];
    }
  }

  /** What has been generated: the text, for each of its lines the line of the template, and for
      each character the place of the template it comes from, if it is code. */
  datatype Out = Out(text: string, lines: seq<int>, from: seq<int>)

  function Put(o: Out, c: char, line: int, g: int): Out {
    Out(o.text + [c], if c == NEWLINE then o.lines + [line] else o.lines, o.from + [g])
  }

  /** The characters of t, from place g of the template on, or from nowhere. */
  function PutAll(o: Out, t: string, line: int, g: int): Out {
    if t == "" then o
    else Put(PutAll(o, t[..|t| - 1], line, g), t[|t| - 1], line, if g < 0 then -1 else g + |t| - 1)
  }

  /** The same without a note of the line ends among them. */
  function PushAll(o: Out, t: string, g: int): Out {
    PutAll(o, t, 0, g).(lines := o.lines)
  }

  lemma {:induction false} PushIsPut(o: Out, t: string, line: int, g: int)
    ensures PushAll(o, t, g) == PutAll(o, t, line, g).(lines := o.lines)
    ensures NEWLINE !in t ==> PushAll(o, t, g) == PutAll(o, t, line, g)
    decreases |t|
  {
    if t != "" {
      var n := |t| - 1;
      PushIsPut(o, t[..n], line, g);
      assert t == t[..n] + [t[n]];
    }
  }

  lemma PutAllMore(o: Out, t: string, c: char, line: int, g: int)
    ensures PutAll(o, t + [c], line, g) == Put(PutAll(o, t, line, g), c, line, if g < 0 then -1 else g + |t|)
  {
    assert (t + [c])[..|t|] == t;
  }

  ghost predicate Rising(lines: seq<int>, cur: int) {
    && (forall i {:trigger lines[i]} :: 0 <= i < |lines| ==> 1 <= lines[i] <= cur)
    && (forall i, j {:trigger lines[i], lines[j]} :: 0 <= i < j < |lines| ==> lines[i] <= lines[j])
  }

  /** The map has one entry for each line but the last `missing` ones, and they never decrease. */
  ghost predicate MapBut(o: Out, cur: int, missing: nat) {
    |o.lines| + missing == 1 + Newlines(o.text) && |o.from| == |o.text| && Rising(o.lines, cur)
  }

  ghost predicate MapOk(o: Out, cur: int) { MapBut(o, cur, 0) }

  function LastLine(o: Out): int {
    if o.lines == [] then 0 else o.lines[|o.lines| - 1]
  }

  /** Character x of the text is character from[x] of the template, and its line is mapped to the
      line of that. */
  ghost predicate OriginOk(o: Out, input: string, x: nat) {
    && x < |o.text| == |o.from| && 0 <= o.from[x] < |input| && input[o.from[x]] == o.text[x]
    && LineAt(o.text, x) <= |o.lines| && o.lines[LineAt(o.text, x) - 1] == LineAt(input, o.from[x])
  }

  ghost predicate OriginsOk(o: Out, input: string) {
    forall x: nat {:trigger OriginOk(o, input, x)} :: x < |o.text| && x < |o.from| && o.from[x] >= 0 ==> OriginOk(o, input, x)
  }

  /** Exactly the characters of the mask come from the template. */
  ghost predicate Marks(from: seq<int>, mask: seq<bool>) {
    |from| == |mask| && forall x {:trigger from[x]} {:trigger mask[x]} :: 0 <= x < |from| ==> (from[x] >= 0 <==> mask[x])
  }

  lemma PutOk(o: Out, c: char, line: int, g: int, cur: int)
    requires MapOk(o, cur) && LastLine(o) <= line <= cur
    ensures MapOk(Put(o, c, line, g), cur) && LastLine(Put(o, c, line, g)) == if c == NEWLINE then line else LastLine(o)
  {
    hide Rising, Newlines;
    NewlinesMore(o.text, c);
    RisingMore(o, line, cur);
  }

  lemma RisingMore(o: Out, line: int, cur: int)
    requires Rising(o.lines, cur) && LastLine(o) <= line <= cur && (o.lines == [] ==> line >= 1)
    ensures Rising(o.lines + [line], cur) && (o.lines + [line])[|o.lines|] == line
  {
  }

  lemma PutOrigins(o: Out, c: char, line: int, g: int, cur: int, input: string)
    requires MapOk(o, cur) && OriginsOk(o, input)
    requires g < 0 || (g < |input| && input[g] == c && LastLine(o) == LineAt(input, g))
    ensures OriginsOk(Put(o, c, line, g), input)
  {
    var o' := Put(o, c, line, g);
    forall x: nat | x < |o'.text| && x < |o'.from| && o'.from[x] >= 0 ensures OriginOk(o', input, x) {
      if x < |o.text| {
        assert OriginOk(o, input, x);
        assert o'.text[..x] == o.text[..x];
      } else {
        assert o'.text[..x] == o.text;
      }
    }
  }

  lemma {:induction false} PutAllOk(o: Out, t: string, line: int, g: int, cur: int)
    requires MapOk(o, cur) && LastLine(o) <= line <= cur
    ensures MapOk(PutAll(o, t, line, g), cur) && PutAll(o, t, line, g).text == o.text + t
    ensures LastLine(o) <= LastLine(PutAll(o, t, line, g)) <= line
    ensures LastLine(PutAll(o, t, line, g)) == if NEWLINE in t then line else LastLine(o)
    decreases |t|
  {
    hide MapOk, LastLine;
    if t != "" {
      var n := |t| - 1;
      PutAllOk(o, t[..n], line, g, cur);
      PutOk(PutAll(o, t[..n], line, g), t[n], line, if g < 0 then -1 else g + n, cur);
      assert t == t[..n] + [t[n]];
    } else {
      assert o.text + t == o.text;
    }
  }

  lemma {:induction false} PutAllMarks(o: Out, t: string, line: int, g: int, mask: seq<bool>)
    requires Marks(o.from, mask)
    ensures Marks(PutAll(o, t, line, g).from, mask + Fill(|t|, g >= 0))
    decreases |t|
  {
    if t != "" {
      var n := |t| - 1;
      PutAllMarks(o, t[..n], line, g, mask);
      assert mask + Fill(|t|, g >= 0) == mask + Fill(n, g >= 0) + [g >= 0];
    } else {
      assert mask + Fill(0, g >= 0) == mask;
    }
  }

  /** Generated text has no origins. */
  lemma {:induction false} PutAllNoOrigins(o: Out, t: string, line: int, cur: int, input: string)
    requires MapOk(o, cur) && LastLine(o) <= line <= cur && OriginsOk(o, input)
    ensures OriginsOk(PutAll(o, t, line, -1), input)
    decreases |t|
  {
    if t != "" {
      var n := |t| - 1;
      PutAllNoOrigins(o, t[..n], line, cur, input);
      PutAllOk(o, t[..n], line, -1, cur);
      PutOrigins(PutAll(o, t[..n], line, -1), t[n], line, -1, cur, input);
    }
  }

  /** Code that stands at place g of the template, with no line end but perhaps the last character. */
  lemma {:induction false} PutAllOrigins(o: Out, t: string, line: int, g: nat, cur: int, input: string)
    requires MapOk(o, cur) && LastLine(o) <= line <= cur && OriginsOk(o, input)
    requires g + |t| <= |input| && input[g..g + |t|] == t && (t == "" || NEWLINE !in t[..|t| - 1]) && (t != "" ==> LastLine(o) == LineAt(input, g))
    ensures OriginsOk(PutAll(o, t, line, g), input)
    decreases |t|
  {
    hide MapOk, OriginsOk, LastLine;
    if t != "" {
      var n: nat := |t| - 1;
      var t1 := t[..n];
      assert input[g..g + n] == t1;
      assert n > 0 ==> forall c :: c in t1[..n - 1] ==> c in t1;
      PutAllOrigins(o, t1, line, g, cur, input);
      PutAllOk(o, t1, line, g, cur);
      NewlinesPrefix(input, g, g + n);
      assert input[g + n] == input[g..g + |t|][n];
      PutOrigins(PutAll(o, t1, line, g), t[n], line, g + n, cur, input);
    }
  }

  lemma InputMore(o: Out, input: string, c: char)
    requires OriginsOk(o, input)
    ensures OriginsOk(o, input + [c])
  {
    forall x: nat | x < |o.text| && x < |o.from| && o.from[x] >= 0 ensures OriginOk(o, input + [c], x) {
      assert OriginOk(o, input, x);
      assert (input + [c])[..o.from[x]] == input[..o.from[x]];
    }
  }

  lemma {:induction false} PutAllConcat(o: Out, t: string, u: string, line: int, g: int)
    ensures PutAll(PutAll(o, t, line, g), u, line, if g < 0 then -1 else g + |t|) == PutAll(o, t + u, line, g)
    decreases |u|
  {
    if u != "" {
      var n := |u| - 1;
      PutAllConcat(o, t, u[..n], line, g);
      assert (t + u)[..|t + u| - 1] == t + u[..n];
    } else {
      assert t + u == t;
    }
  }

  lemma {:induction false} NewlinesBoth(t: string, u: string)
    ensures Newlines(t + u) == Newlines(t) + Newlines(u)
    ensures Newlines(u) == 0 <==> NEWLINE !in u
    decreases |u|
  {
    if u != "" {
      var n := |u| - 1;
      NewlinesBoth(t, u[..n]);
      assert (t + u)[..|t + u| - 1] == t + u[..n];
      assert u == u[..n] + [u[n]];
    } else {
      assert t + u == t;
    }
  }

  /** Code that is put behind the chunk without a note of its line ends. */
  lemma PushAllOk(o: Out, t: string, g: nat, cur: int, mask: seq<bool>)
    requires MapOk(o, cur) && LastLine(o) <= cur && Marks(o.from, mask)
    ensures var o' := PushAll(o, t, g);
            MapBut(o', cur, Newlines(t)) && o'.text == o.text + t && o'.lines == o.lines && Marks(o'.from, mask + Fill(|t|, true))
  {
    hide Marks, PutAll, PushAll, Newlines, LastLine, Rising;
    PushIsPut(o, t, cur, g);
    PutAllOk(o, t, cur, g, cur);
    PutAllMarks(o, t, cur, g, mask);
    NewlinesBoth(o.text, t);
  }

  // ---- what the scanning loop keeps -----------------------------------------------------------------

  /** Code keeps its lines: separators contain no line end, and if they are longer than one
      character there are no backslashes. */
  ghost predicate Traced(sep: string, input: string) {
    NEWLINE !in sep && (|sep| <= 1 || BACKSLASH !in input)
  }

  /** What is pending are the last characters read, and no line end. */
  ghost predicate PendingLast(sep: string, st: Scan, input: string) {
    && |st.pending| <= |input| && input[|input| - |st.pending|..] == st.pending && NEWLINE !in st.pending
    && (st.pending == "" || |st.pending| < |sep|)
    && (st.esc ==> st.pending == "" && input != "" && input[|input| - 1] == BACKSLASH)
  }

  lemma {:induction false} RunPending(sep: string, input: string)
    requires Traced(sep, input)
    ensures PendingLast(sep, Run(sep, START, input, 0), input)
    decreases |input|
  {
    if input != "" {
      hide PendingLast, Step, Run;
      var less, c := input[..|input| - 1], input[|input| - 1];
      assert input == less + [c];
      TracedLess(sep, less, c);
      RunPending(sep, less);
      RunMore(sep, START, less, 0, c);
      StepPending(sep, Run(sep, START, less, 0), less, c);
    }
  }

  lemma TracedLess(sep: string, input: string, c: char)
    requires Traced(sep, input + [c])
    ensures Traced(sep, input) && (|sep| <= 1 || c != BACKSLASH)
  {
    assert c in input + [c] && forall x :: x in input ==> x in input + [c];
  }

  lemma StepPending(sep: string, st: Scan, input: string, c: char)
    requires PendingLast(sep, st, input) && Traced(sep, input + [c])
    ensures PendingLast(sep, Step(sep, st, c), input + [c])
  {
    TracedLess(sep, input, c);
    var m := st.pending + [c];
    assert (input + [c])[|input + [c]| - |m|..] == m;
    assert (input + [c])[|input + [c]| - 0..] == "";
    assert |m| <= |sep| && m == sep[..|m|] ==> m[|st.pending|] == sep[|st.pending|] && c in sep;
  }

  /** What has been put into the chunk, and which of it is code. */
  function TextOf(st: Scan): string {
    Rendered(st.pieces) + (if IsCode(|st.pieces|) then st.cur else "")
  }

  function MaskOf(st: Scan): seq<bool> {
    RenderedMask(st.pieces) + (if IsCode(|st.pieces|) then Fill(|st.cur|, true) else [])
  }

  /** The chunk so far, its line map and its origins, when the input has been scanned up to st. */
  ghost predicate LinesOk(sep: string, st: Scan, input: string, o: Out) {
    && MapOk(o, 1 + Newlines(input)) && Marks(o.from, MaskOf(st)) && o.text == TextOf(st)
    && (Traced(sep, input) ==> OriginsOk(o, input) && (IsCode(|st.pieces|) ==> LastLine(o) == 1 + Newlines(input)))
  }

  lemma MapLater(o: Out, cur: int, cur': int)
    requires MapOk(o, cur) && cur <= cur'
    ensures MapOk(o, cur') && LastLine(o) <= cur'
  {
  }

  /** A character that adds nothing to the chunk. */
  lemma NoOutput(sep: string, st: Scan, input: string, c: char, o: Out)
    requires LinesOk(sep, st, input, o) && TextOf(Step(sep, st, c)) == TextOf(st) && MaskOf(Step(sep, st, c)) == MaskOf(st)
    requires |Step(sep, st, c).pieces| == |st.pieces| && (IsCode(|st.pieces|) && Traced(sep, input + [c]) ==> c != NEWLINE)
    ensures LinesOk(sep, Step(sep, st, c), input + [c], o)
  {
    hide TextOf, MaskOf, Step, LastLine, OriginsOk, MapOk, Marks;
    NewlinesMore(input, c);
    MapLater(o, 1 + Newlines(input), 1 + Newlines(input + [c]));
    if Traced(sep, input + [c]) {
      TracedLess(sep, input, c);
      InputMore(o, input, c);
    }
  }

  /** Code t, which is the last that has been read, is added to the chunk. */
  lemma CodeOutput(sep: string, st: Scan, input: string, c: char, o: Out, t: string, g: nat)
    requires LinesOk(sep, st, input, o) && IsCode(|st.pieces|) && Step(sep, st, c).pieces == st.pieces && Step(sep, st, c).cur == st.cur + t
    requires t != "" && t[|t| - 1] == c
    requires Traced(sep, input + [c]) ==> g + |t| == |input| + 1 && (input + [c])[g..] == t && NEWLINE !in t[..|t| - 1]
    ensures LinesOk(sep, Step(sep, st, c), input + [c], PutAll(o, t, 1 + Newlines(input + [c]), g))
  {
    hide Step, LastLine, OriginsOk, MapOk, Marks, PutAll, TextOf, MaskOf, Newlines;
    var line, st' := 1 + Newlines(input + [c]), Step(sep, st, c);
    NewlinesMore(input, c);
    MapLater(o, 1 + Newlines(input), line);
    PutAllOk(o, t, line, g, line);
    PutAllMarks(o, t, line, g, MaskOf(st));
    CodeText(st, st', t);
    if Traced(sep, input + [c]) {
      CodeTraced(sep, st, input, c, o, t, g);
    }
  }

  lemma CodeText(st: Scan, st': Scan, t: string)
    requires IsCode(|st.pieces|) && st'.pieces == st.pieces && st'.cur == st.cur + t
    ensures TextOf(st) + t == TextOf(st') && MaskOf(st) + Fill(|t|, true) == MaskOf(st')
  {
    hide Rendered, RenderedMask;
  }

  lemma CodeTraced(sep: string, st: Scan, input: string, c: char, o: Out, t: string, g: nat)
    requires Traced(sep, input + [c]) && LinesOk(sep, st, input, o) && IsCode(|st.pieces|) && t != "" && t[|t| - 1] == c
    requires g + |t| == |input| + 1 && (input + [c])[g..] == t && NEWLINE !in t[..|t| - 1]
    ensures var line := 1 + Newlines(input + [c]); OriginsOk(PutAll(o, t, line, g), input + [c]) && LastLine(PutAll(o, t, line, g)) == line
  {
    hide LastLine, OriginsOk, MapOk, Marks, PutAll, TextOf, MaskOf, Newlines;
    var line := 1 + Newlines(input + [c]);
    NewlinesMore(input, c);
    TracedLess(sep, input, c);
    InputMore(o, input, c);
    CodePlace(input, c, t, g);
    MapLater(o, 1 + Newlines(input), line);
    PutAllOrigins(o, t, line, g, line, input + [c]);
    PutAllOk(o, t, line, g, line);
    CodeLast(t, c);
  }

  lemma CodePlace(input: string, c: char, t: string, g: nat)
    requires t != "" && g + |t| == |input| + 1 && (input + [c])[g..] == t && NEWLINE !in t[..|t| - 1]
    ensures g <= |input| && (input + [c])[g..g + |t|] == t && LineAt(input + [c], g) == 1 + Newlines(input)
  {
    var input' := input + [c];
    assert input'[g..|input|] == t[..|t| - 1];
    NewlinesPrefix(input', g, |input|);
    assert input'[..|input|] == input;
  }

  lemma CodeLast(t: string, c: char)
    requires t != "" && t[|t| - 1] == c && NEWLINE !in t[..|t| - 1]
    ensures NEWLINE in t <==> c == NEWLINE
  {
    assert t == t[..|t| - 1] + [c];
  }

  /** A separator: a line end, and the text before it, if it was text. */
  lemma SepOutput(sep: string, st: Scan, input: string, c: char, o: Out)
    requires LinesOk(sep, st, input, o) && Step(sep, st, c) == Scan(st.pieces + [st.cur], "", "", false)
    ensures var line := 1 + Newlines(input + [c]);
            LinesOk(sep, Step(sep, st, c), input + [c], PutAll(o, if IsCode(|st.pieces|) then "\n" else "\n" + Quoted(st.cur), line, -1))
  {
    hide Step, LastLine, OriginsOk, MapOk, Marks, PutAll, Rendered, RenderedMask, Quoted, Fill;
    var line, st', input' := 1 + Newlines(input + [c]), Step(sep, st, c), input + [c];
    var t := if IsCode(|st.pieces|) then "\n" else "\n" + Quoted(st.cur);
    assert t[0] == NEWLINE;
    NewlinesMore(input, c);
    MapLater(o, 1 + Newlines(input), line);
    PutAllOk(o, t, line, -1, line);
    PutAllMarks(o, t, line, -1, MaskOf(st));
    SepText(st, t);
    if Traced(sep, input') {
      TracedLess(sep, input, c);
      InputMore(o, input, c);
      PutAllNoOrigins(o, t, line, line, input');
    }
  }

  lemma SepText(st: Scan, t: string)
    requires t == if IsCode(|st.pieces|) then "\n" else "\n" + Quoted(st.cur)
    ensures var st' := Scan(st.pieces + [st.cur], "", "", false);
            TextOf(st) + t == TextOf(st') && MaskOf(st) + Fill(|t|, false) == MaskOf(st')
  {
    hide Rendered, RenderedMask, Quoted;
    RenderedMore(st.pieces, st.cur);
    assert Rendered(st.pieces) + st.cur + "\n" == Rendered(st.pieces) + (st.cur + "\n");
    assert Fill(1, false) == [false];
    assert IsCode(|st.pieces|) ==> RenderedMask(st.pieces) + Fill(|st.cur|, true) + Fill(1, false) == RenderedMask(st.pieces) + (Fill(|st.cur|, true) + [false]);
  }

  // ---- the compiler -----------------------------------------------------------------------------------

  /** The variables of tmg_expand while it scans a template. */
  class Expander {
    const sep: string
    var builder: string
    var buffer: string
    var matchBuf: string
    var lineMap: seq<int>
    var genLine: int
    var curLine: int
    var code: bool
    var escapeNext: bool
    /** The input read so far, the state of the scanner, and the origins of the chunk. */
    ghost var input: string
    ghost var st: Scan
    ghost var from: seq<int>

    constructor (separator: string)
      ensures sep == separator && input == "" && Scanning()
    {
      sep := separator;
      builder, buffer, matchBuf := "", "", "";
      lineMap := [1];
      genLine, curLine, code, escapeNext := 1, 1, false, false;
      input, st, from := "", START, [];
    }

    ghost function Now(): Out
      reads this
    {
      Out(builder, lineMap, from)
    }

    ghost predicate Scanning()
      reads this
    {
      && st == Run(sep, START, input, 0) && code == IsCode(|st.pieces|) && matchBuf == st.pending && escapeNext == st.esc
      && buffer == (if code then "" else st.cur) && curLine == 1 + Newlines(input) && genLine == |lineMap|
      && LinesOk(sep, st, input, Now())
    }

    /** str_push_chr to the builder, and note_newline with linemap_push for line ends. */
    method Emit(t: string, ghost g: int)
      requires genLine == |lineMap|
      modifies this`builder, this`lineMap, this`genLine, this`from
      ensures Now() == PutAll(old(Now()), t, curLine, g) && genLine == |lineMap|
    {
      var i := 0;
      ghost var o := Now();
      assert t[..0] == "";
      while i < |t|
        invariant i <= |t| && Now() == PutAll(o, t[..i], curLine, g) && genLine == |lineMap|
      {
        var ch := t[i];
        PutAllMore(o, t[..i], ch, curLine, g);
        assert t[..i + 1] == t[..i] + [ch];
        builder := builder + [ch];
        from := from + [if g < 0 then -1 else g + i];
        if ch == NEWLINE {
          genLine := genLine + 1;
          lineMap := lineMap + [curLine];
        }
        i := i + 1;
      }
      assert t[..|t|] == t;
    }

    /** str_push_chr to the builder alone */
    method Push(t: string, ghost g: int)
      requires genLine == |lineMap|
      modifies this`builder, this`from
      ensures Now() == PushAll(old(Now()), t, g)
    {
      var i := 0;
      ghost var o := Now();
      assert t[..0] == "";
      while i < |t|
        invariant i <= |t| && Now() == PushAll(o, t[..i], g)
      {
        PutAllMore(o, t[..i], t[i], 0, g);
        assert t[..i + 1] == t[..i] + [t[i]];
        builder := builder + [t[i]];
        from := from + [if g < 0 then -1 else g + i];
        i := i + 1;
      }
      assert t[..|t|] == t;
    }

    /** flush_text_buffer: the text in the buffer as a call that prints it. */
    method FlushText()
      requires genLine == |lineMap|
      modifies this`builder, this`lineMap, this`genLine, this`from, this`buffer
      ensures Now() == PutAll(old(Now()), Quoted(old(buffer)), curLine, -1) && genLine == |lineMap| && buffer == ""
    {
      hide Q.Level, Put;
      ghost var o, text := Now(), buffer;
      if buffer == "" {
        return;
      }
      var n := Q.FindLevel(buffer);
      Emit("tmg.print([", -1);
      Emit(Q.Equals(n), -1);
      Emit("[", -1);
      Emit(buffer, -1);
      Emit("]", -1);
      Emit(Q.Equals(n), -1);
      Emit("])\n", -1);
      buffer := "";
      QuotedParts(o, text, n, curLine);
    }

    /** One round of the scanning loop. */
    method Feed(c: char)
      requires Scanning()
      modifies this`builder, this`buffer, this`matchBuf, this`lineMap, this`genLine, this`curLine, this`code, this`escapeNext, this`input, this`st, this`from
      ensures Scanning() && input == old(input) + [c]
    {
      hide Run, LinesOk, Traced, PutAll, TextOf, MaskOf, Quoted, PendingLast, Newlines;
      ghost var st0, input0, o := st, input, Now();
      NewlinesMore(input, c);
      RunMore(sep, START, input, 0, c);
      if c == NEWLINE {
        curLine := curLine + 1;
      }
      input, st := input + [c], Step(sep, st, c);
      if escapeNext {
        FeedEscaped(c, st0, input0);
      } else if c == BACKSLASH {
        escapeNext := true;
        TextKept(sep, st0, c);
        NoOutput(sep, st0, input0, c, o);
      } else {
        matchBuf := matchBuf + [c];
        if |matchBuf| <= |sep| && matchBuf == sep[..|matchBuf|] {
          if |matchBuf| == |sep| {
            FeedSeparator(c, st0, input0);
          } else {
            TextKept(sep, st0, c);
            InSeparator(sep, matchBuf, c, input);
            NoOutput(sep, st0, input0, c, o);
          }
        } else {
          FeedPlain(c, st0, input0);
        }
      }
    }

    /** Character c has been read, but nothing has been done about it. */
    ghost predicate Reading(c: char, st0: Scan, input0: string)
      reads this
    {
      && st0 == Run(sep, START, input0, 0) && input == input0 + [c] && st == Step(sep, st0, c) && st == Run(sep, START, input, 0)
      && code == IsCode(|st0.pieces|) && escapeNext == st0.esc
      && buffer == (if code then "" else st0.cur) && curLine == 1 + Newlines(input) && genLine == |lineMap|
      && LinesOk(sep, st0, input0, Now())
    }

    /** The character behind a backslash. */
    method FeedEscaped(c: char, ghost st0: Scan, ghost input0: string)
      requires Reading(c, st0, input0) && escapeNext && matchBuf == st0.pending
      modifies this`builder, this`buffer, this`lineMap, this`genLine, this`escapeNext, this`from
      ensures Scanning()
    {
      hide Run, LinesOk, Traced, PutAll, TextOf, MaskOf, Quoted, PendingLast, Newlines;
      ghost var o := Now();
      escapeNext := false;
      var suppresses := |sep| > 0 && c == sep[0];
      var t := if suppresses then [c] else [BACKSLASH, c];
      if code {
        ghost var g := |input0| + 1 - |t|;
        EscapedPlace(sep, st0, input0, c, t);
        CodeOutput(sep, st0, input0, c, o, t, if g < 0 then 0 else g);
        Emit(t, if g < 0 then 0 else g);
      } else {
        if c != NEWLINE {
          buffer := buffer + t;
        }
        TextKept(sep, st0, c);
        NoOutput(sep, st0, input0, c, o);
      }
    }

    /** The last character of a separator: text and code change. */
    method FeedSeparator(c: char, ghost st0: Scan, ghost input0: string)
      requires Reading(c, st0, input0) && st == Scan(st0.pieces + [st0.cur], "", "", false) && !escapeNext
      modifies this`builder, this`buffer, this`matchBuf, this`lineMap, this`genLine, this`code, this`from
      ensures Scanning()
    {
      hide Run, LinesOk, PutAll, Quoted, Newlines, Step;
      ghost var o := Now();
      Emit("\n", -1);
      code := !code;
      FlushText();
      matchBuf := "";
      PutAllConcat(o, "\n", Quoted(st0.cur), curLine, -1);
      NothingMore(PutAll(o, "\n", curLine, -1), curLine);
      SepOutput(sep, st0, input0, c, o);
    }

    /** What is pending, and c, are no separator. */
    method FeedPlain(c: char, ghost st0: Scan, ghost input0: string)
      requires Reading(c, st0, input0) && !escapeNext && matchBuf == st0.pending + [c] && st == st0.(cur := st0.cur + matchBuf, pending := "")
      modifies this`builder, this`buffer, this`matchBuf, this`lineMap, this`genLine, this`from
      ensures Scanning()
    {
      hide Run, LinesOk, PutAll, Quoted, Newlines, Step, Traced, TextOf, MaskOf;
      ghost var o := Now();
      if code {
        MatchPlace(sep, st0, input0, c);
        ghost var g := |input0| - |st0.pending|;
        CodeOutput(sep, st0, input0, c, o, matchBuf, if g < 0 then 0 else g);
        Emit(matchBuf, if g < 0 then 0 else g);
      } else {
        buffer := buffer + matchBuf;
        TextKept(sep, st0, c);
        NoOutput(sep, st0, input0, c, o);
      }
      matchBuf := "";
    }

    /** What follows the scanning loop: what is left over belongs to the last piece. */
    method Finish()
      requires Scanning()
      modifies this`builder, this`buffer, this`matchBuf, this`lineMap, this`genLine, this`from
      ensures genLine == |lineMap| && ChunkOk(sep, input, Now())
    {
      hide Run, LinesOk, PutAll, Quoted, Newlines, Step, Traced, TextOf, MaskOf, ChunkOk;
      ghost var o, line := Now(), curLine;
      if code {
        ghost var g1, g2 := |input| - 1, |input| - |matchBuf|;
        g1, g2 := if g1 < 0 then 0 else g1, if g2 < 0 then 0 else g2;
        EndCode(sep, st, input, o, g1, g2);
        NothingMoreAt(o, 0, g1);
        if escapeNext {
          Push([BACKSLASH], g1);
        }
        Push(matchBuf, g2);
        NothingMore(Now(), line);
      } else {
        if escapeNext {
          buffer := buffer + [BACKSLASH];
        }
        buffer := buffer + matchBuf;
        EndText(sep, st, input, o);
        assert buffer == st.cur + (if st.esc then [BACKSLASH] else "") + st.pending;
      }
      matchBuf := "";
      FlushText();
    }
  }

  lemma NothingMore(o: Out, line: int)
    ensures Quoted("") == "" && PutAll(o, "", line, -1) == o
  {
  }

  lemma {:induction false} QuotedParts(o: Out, text: string, n: nat, line: int)
    requires text != "" && n == Q.Level(text)
    ensures PutAll(PutAll(PutAll(PutAll(PutAll(PutAll(PutAll(o, "tmg.print([", line, -1), Q.Equals(n), line, -1), "[", line, -1), text, line, -1), "]", line, -1),
              Q.Equals(n), line, -1), "])\n", line, -1) == PutAll(o, Quoted(text), line, -1)
  {
    hide PutAll, Q.Level, Q.Equals;
    var e := Q.Equals(n);
    PutAllConcat(o, "tmg.print([", e, line, -1);
    PutAllConcat(o, "tmg.print([" + e, "[", line, -1);
    PutAllConcat(o, "tmg.print([" + e + "[", text, line, -1);
    PutAllConcat(o, "tmg.print([" + e + "[" + text, "]", line, -1);
    PutAllConcat(o, "tmg.print([" + e + "[" + text + "]", e, line, -1);
    PutAllConcat(o, "tmg.print([" + e + "[" + text + "]" + e, "])\n", line, -1);
    QuotedIs(text, n);
  }

  lemma QuotedIs(text: string, n: nat)
    requires text != "" && n == Q.Level(text)
    ensures Quoted(text) == "tmg.print([" + Q.Equals(n) + "[" + text + "]" + Q.Equals(n) + "])\n"
  {
    hide Q.Level, Q.Equals;
    var e := Q.Equals(n);
    assert "tmg.print(" + ("[" + e + "[" + text + "]" + e + "]") + ")\n" == "tmg.print([" + e + "[" + text + "]" + e + "])\n";
  }

  /** Text mode, and characters that wait, leave the chunk alone. */
  lemma TextKept(sep: string, st: Scan, c: char)
    requires Step(sep, st, c).pieces == st.pieces && (!IsCode(|st.pieces|) || Step(sep, st, c).cur == st.cur)
    ensures TextOf(Step(sep, st, c)) == TextOf(st) && MaskOf(Step(sep, st, c)) == MaskOf(st)
  {
  }

  lemma InSeparator(sep: string, m: string, c: char, input: string)
    requires m != "" && m[|m| - 1] == c && |m| <= |sep| && m == sep[..|m|]
    ensures Traced(sep, input) ==> c != NEWLINE
  {
    assert sep[|m| - 1] == c;
  }

  lemma EscapedPlace(sep: string, st: Scan, input: string, c: char, t: string)
    requires st == Run(sep, START, input, 0) && st.esc && (t == [c] || t == [BACKSLASH, c])
    ensures Traced(sep, input + [c]) ==> |t| <= |input| + 1 && (input + [c])[|input| + 1 - |t|..] == t && NEWLINE !in t[..|t| - 1]
  {
    if Traced(sep, input + [c]) {
      TracedLess(sep, input, c);
      RunPending(sep, input);
    }
  }

  lemma MatchPlace(sep: string, st: Scan, input: string, c: char)
    requires st == Run(sep, START, input, 0)
    ensures Traced(sep, input + [c]) ==> var t := st.pending + [c];
              |st.pending| <= |input| && (input + [c])[|input| - |st.pending|..] == t && NEWLINE !in t[..|t| - 1]
  {
    if Traced(sep, input + [c]) {
      TracedLess(sep, input, c);
      RunPending(sep, input);
      assert (st.pending + [c])[..|st.pending|] == st.pending;
    }
  }

  // ---- the end of the template --------------------------------------------------------------------------

  /** Characters that wait for the rest of a separator when the template ends, if that is in code. */
  function LeftOver(sep: string, input: string): string {
    var st := Run(sep, START, input, 0);
    if IsCode(|st.pieces|) then st.pending else ""
  }

  /** What tmg_expand has generated for a template: the pieces the scanner finds as a chunk, and for
      every line of the chunk a line of the template, never decreasing, but none for the line ends
      among the code left over. Exactly the code characters have an origin, and if the separator
      allows it, every code character is on a line that is mapped to its line in the template. */
  ghost predicate ChunkOk(sep: string, input: string, o: Out) {
    && o.text == Chunk(Scanned(sep, input)) && MapBut(o, 1 + Newlines(input), Newlines(LeftOver(sep, input))) && Marks(o.from, ChunkMask(Scanned(sep, input)))
    && (Traced(sep, input) ==> OriginsOk(o, input))
  }

  lemma NothingMoreAt(o: Out, line: int, g: int)
    ensures PutAll(o, "", line, g) == o
  {
  }

  lemma EndText(sep: string, st: Scan, input: string, o: Out)
    requires st == Run(sep, START, input, 0) && LinesOk(sep, st, input, o) && !IsCode(|st.pieces|)
    ensures ChunkOk(sep, input, PutAll(o, Quoted(st.cur + (if st.esc then [BACKSLASH] else "") + st.pending), 1 + Newlines(input), -1))
  {
    hide Run, LastLine, OriginsOk, MapBut, Marks, PutAll, Rendered, RenderedMask, Quoted, Newlines, Fill;
    var line, last := 1 + Newlines(input), st.cur + (if st.esc then [BACKSLASH] else "") + st.pending;
    var t := Quoted(last);
    NewlinesBoth("", "");
    ChunkIs(st.pieces, last);
    MapLater(o, line, line);
    PutAllOk(o, t, line, -1, line);
    PutAllMarks(o, t, line, -1, MaskOf(st));
    assert MaskOf(st) == RenderedMask(st.pieces) + [] == RenderedMask(st.pieces);
    assert TextOf(st) == Rendered(st.pieces) + "" == Rendered(st.pieces);
    if Traced(sep, input) {
      PutAllNoOrigins(o, t, line, line, input);
    }
  }

  /** The code left over, put behind the chunk. */
  lemma EndCode(sep: string, st: Scan, input: string, o: Out, g1: nat, g2: nat)
    requires st == Run(sep, START, input, 0) && LinesOk(sep, st, input, o) && IsCode(|st.pieces|)
    requires (input != "" ==> g1 == |input| - 1) && (|st.pending| <= |input| ==> g2 == |input| - |st.pending|)
    ensures ChunkOk(sep, input, PushAll(PushAll(o, if st.esc then [BACKSLASH] else "", g1), st.pending, g2))
  {
    hide Run, LastLine, OriginsOk, MapOk, MapBut, Rising, Marks, PutAll, PushAll, Rendered, RenderedMask, Newlines, TextOf, MaskOf, Chunk, ChunkMask;
    var line, e := 1 + Newlines(input), if st.esc then [BACKSLASH] else "";
    var o1 := PutAll(o, e, line, g1);
    MapLater(o, line, line);
    PutAllOk(o, e, line, g1, line);
    PutAllMarks(o, e, line, g1, MaskOf(st));
    PushIsPut(o, e, line, g1);
    PushAllOk(o1, st.pending, g2, line, MaskOf(st) + Fill(|e|, true));
    EndCodeText(sep, st, input, e);
    if Traced(sep, input) {
      EndCodeOrigins(sep, st, input, o, o1, e, g1, g2);
    }
  }

  /** The characters left over are the last ones of the template. */
  lemma TailPlaces(sep: string, st: Scan, input: string)
    requires st == Run(sep, START, input, 0) && Traced(sep, input)
    ensures NEWLINE !in st.pending && |st.pending| <= |input| && input[|input| - |st.pending|..] == st.pending
    ensures st.esc ==> st.pending == "" && input != "" && input[|input| - 1..] == [BACKSLASH]
  {
    hide Run;
    RunPending(sep, input);
  }

  lemma EndCodeOrigins(sep: string, st: Scan, input: string, o: Out, o1: Out, e: string, g1: nat, g2: nat)
    requires st == Run(sep, START, input, 0) && LinesOk(sep, st, input, o) && IsCode(|st.pieces|) && Traced(sep, input)
    requires (input != "" ==> g1 == |input| - 1) && (|st.pending| <= |input| ==> g2 == |input| - |st.pending|)
    requires e == (if st.esc then [BACKSLASH] else "") && o1 == PutAll(o, e, 1 + Newlines(input), g1)
    ensures OriginsOk(PushAll(o1, st.pending, g2), input)
  {
    hide Run, LinesOk, OriginsOk, PutAll, PushAll, Newlines, PendingLast;
    TailPlaces(sep, st, input);
    PushIsPut(o1, st.pending, 1 + Newlines(input), g2);
    EndCodeTraced(sep, st, input, o, e, g1, g2);
  }

  lemma EndCodeText(sep: string, st: Scan, input: string, e: string)
    requires st == Run(sep, START, input, 0) && IsCode(|st.pieces|) && e == if st.esc then [BACKSLASH] else ""
    ensures TextOf(st) + e + st.pending == Chunk(Scanned(sep, input))
    ensures MaskOf(st) + Fill(|e|, true) + Fill(|st.pending|, true) == ChunkMask(Scanned(sep, input))
  {
    hide Run, Rendered, RenderedMask, Chunk, ChunkMask;
    ChunkIs(st.pieces, st.cur + e + st.pending);
    assert Fill(|st.cur|, true) + Fill(|e|, true) + Fill(|st.pending|, true) == Fill(|st.cur + e + st.pending|, true);
  }

  lemma EndCodeTraced(sep: string, st: Scan, input: string, o: Out, e: string, g1: nat, g2: nat)
    requires st == Run(sep, START, input, 0) && LinesOk(sep, st, input, o) && IsCode(|st.pieces|) && Traced(sep, input)
    requires (input != "" ==> g1 == |input| - 1) && (|st.pending| <= |input| ==> g2 == |input| - |st.pending|)
    requires e == if st.esc then [BACKSLASH] else ""
    ensures var line := 1 + Newlines(input); OriginsOk(PutAll(PutAll(o, e, line, g1), st.pending, line, g2), input)
  {
    hide Run, Traced, LastLine, OriginsOk, MapOk, Marks, PutAll, TextOf, MaskOf, Newlines;
    var line := 1 + Newlines(input);
    TailPlaces(sep, st, input);
    MapLater(o, line, line);
    if st.esc {
      TailOrigins(input, o, e, line, g1);
      NothingMoreAt(PutAll(o, e, line, g1), line, g2);
    } else {
      NothingMoreAt(o, line, g1);
      TailOrigins(input, o, st.pending, line, g2);
    }
  }

  /** The last characters of the template, with no line end among them, as code. */
  lemma TailOrigins(input: string, o: Out, t: string, line: int, g: nat)
    requires MapOk(o, line) && LastLine(o) == line == 1 + Newlines(input) && OriginsOk(o, input)
    requires g <= |input| && input[g..] == t && NEWLINE !in t
    ensures OriginsOk(PutAll(o, t, line, g), input)
  {
    hide LastLine, OriginsOk, MapOk, PutAll, Newlines;
    TailPlace(input, g);
    assert input[g..g + |t|] == t;
    assert t != "" ==> forall c :: c in t[..|t| - 1] ==> c in t;
    PutAllOrigins(o, t, line, g, line, input);
  }

  lemma TailPlace(input: string, g: nat)
    requires g <= |input| && NEWLINE !in input[g..]
    ensures LineAt(input, g) == 1 + Newlines(input)
  {
    hide Newlines;
    NewlinesPrefix(input, g, |input|);
    WholeFrom(input, g);
  }

  lemma WholeFrom(input: string, g: nat)
    requires g <= |input|
    ensures input[g..|input|] == input[g..] && input[..|input|] == input
  {
  }

  /** tmg_expand up to the loading of the chunk. */
  method Expand(template: string, sep: string) returns (chunk: string, lineMap: seq<int>, ghost from: seq<int>)
    ensures ChunkOk(sep, template, Out(chunk, lineMap, from))
  {
    hide ChunkOk, Run, LinesOk, Newlines;
    var x := new Expander(sep);
    var i := 0;
    assert template[..0] == "";
    while i < |template|
      invariant i <= |template| && x.Scanning() && x.sep == sep && x.input == template[..i]
    {
      x.Feed(template[i]);
      assert template[..i] + [template[i]] == template[..i + 1];
      i := i + 1;
    }
    assert template[..|template|] == template;
    x.Finish();
    chunk, lineMap, from := x.builder, x.lineMap, x.from;
  }

  // ---- what the chunk means ---------------------------------------------------------------------------

  /** For a separator that is one repeated character, and a template without backslashes, the chunk
      holds the pieces between the leftmost separators, and every code character is on a line mapped
      to its own. */
  lemma PlainTemplate(sep: string, input: string, o: Out)
    requires ChunkOk(sep, input, o) && Uniform(sep) && NEWLINE !in sep && BACKSLASH !in input
    ensures Split(sep, input) != [] && o.text == Chunk(Split(sep, input)) && Join(Split(sep, input), sep) == input && OriginsOk(o, input)
    ensures Marks(o.from, ChunkMask(Split(sep, input)))
  {
    hide Run, SplitFrom, Chunk, ChunkMask;
    ScanExactPlain(sep);
    SplitJoins(sep, input, 0, false, "");
    assert input[0..] == input;
  }

  /** The same, with backslashes, for a separator of one character. */
  lemma ShortTemplate(sep: string, input: string, o: Out)
    requires ChunkOk(sep, input, o) && |sep| <= 1 && NEWLINE !in sep
    ensures Scanned(sep, input) == Split(sep, input) && OriginsOk(o, input)
  {
    hide Run, SplitFrom, Chunk, ChunkMask;
    ScanExact(sep);
  }

  /** Where the print call for text piece i begins. */
  function PieceAt(ps: seq<string>, i: nat): nat
    requires i < |ps|
  {
    |Rendered(ps[..i])| + (if i + 1 < |ps| then 1 else 0)
  }

  /** Where its long bracket begins and ends. */
  function BracketAt(ps: seq<string>, i: nat): nat
    requires i < |ps|
  {
    PieceAt(ps, i) + 10
  }

  function BracketEnd(ps: seq<string>, i: nat): nat
    requires i < |ps|
  {
    BracketAt(ps, i) + |Q.Bracket(ps[i], Q.Level(ps[i]))|
  }

  lemma {:induction false} RenderedSplit(ps: seq<string>, i: nat) returns (tail: string)
    requires i < |ps|
    ensures Rendered(ps) == Rendered(ps[..i]) + Done(i, ps[i]) + tail
    decreases |ps|
  {
    hide Done;
    var n := |ps| - 1;
    if i == n {
      tail := "";
    } else {
      assert ps[..n][..i] == ps[..i];
      var t := RenderedSplit(ps[..n], i);
      tail := t + Done(n, ps[n]);
    }
  }

  lemma ChunkSplit(ps: seq<string>, i: nat) returns (tail: string)
    requires i < |ps| && !IsCode(i)
    ensures Chunk(ps) == Rendered(ps[..i]) + (if i + 1 < |ps| then "\n" else "") + Quoted(ps[i]) + tail
  {
    hide Quoted, Rendered;
    var n := |ps| - 1;
    if i == n {
      tail := "";
    } else {
      assert ps[..n][..i] == ps[..i];
      var t := RenderedSplit(ps[..n], i);
      tail := t + Last(n, ps[n]);
    }
  }

  /** How many characters piece i takes: code stands as it is, text has its bracket and a print call
      of twelve characters around it. */
  function Size(i: nat, t: string): nat {
    if i % 2 == 1 then |t| else if t == "" then 0 else |Q.Bracket(t, Q.Level(t))| + 12
  }

  function Sizes(ps: seq<string>): nat {
    if ps == [] then 0 else Sizes(ps[..|ps| - 1]) + Size(|ps| - 1, ps[|ps| - 1])
  }

  lemma {:induction false} RenderedSize(ps: seq<string>)
    ensures |Rendered(ps)| == Sizes(ps) + |ps|
    decreases |ps|
  {
    hide Q.Bracket, Q.Level;
    if ps != [] {
      RenderedSize(ps[..|ps| - 1]);
    }
  }

  /** The chunk has no more characters than the pieces and one line end for each separator. */
  lemma {:induction false} ChunkSize(ps: seq<string>)
    requires ps != []
    ensures |Chunk(ps)| == Sizes(ps) + |ps| - 1
  {
    hide Q.Bracket, Q.Level, Rendered;
    RenderedSize(ps[..|ps| - 1]);
  }

  lemma EndsLine(ps: seq<string>)
    requires ps != []
    ensures |Rendered(ps)| > 0 && Rendered(ps)[|Rendered(ps)| - 1] == NEWLINE
  {
    hide Q.Bracket, Q.Level;
    var less, t := Rendered(ps[..|ps| - 1]), Done(|ps| - 1, ps[|ps| - 1]);
    assert t[|t| - 1] == NEWLINE;
    assert Rendered(ps) == less + t;
  }

  /** Text t is in the chunk from at on, with a line end on each side, or at the end of the chunk. */
  ghost predicate OnLines(chunk: string, at: nat, t: string, last: bool) {
    && 0 < at && at + |t| <= |chunk| && chunk[at..at + |t|] == t && chunk[at - 1] == '\n'
    && if last then at + |t| == |chunk| else at + |t| < |chunk| && chunk[at + |t|] == '\n'
  }

  lemma CodeBetween(head: string, t: string, tail: string)
    requires head != "" && head[|head| - 1] == '\n'
    ensures OnLines(head + (t + "\n") + tail, |head|, t, false)
  {
    var c := head + (t + "\n") + tail;
    assert c[|head|..|head| + |t|] == t;
  }

  lemma CodeBehind(head: string, t: string)
    requires head != "" && head[|head| - 1] == '\n'
    ensures OnLines(head + t, |head|, t, true)
  {
    assert (head + t)[|head|..|head| + |t|] == t;
  }

  lemma SamePrefix(ps: seq<string>, i: nat)
    requires i < |ps|
    ensures ps[..|ps| - 1][..i] == ps[..i] && (i < |ps| - 1 ==> ps[..|ps| - 1][i] == ps[i])
  {
  }

  lemma Regroup(a: string, b: string, c: string, d: string)
    ensures a + b + c + d == a + b + (c + d)
  {
  }

  /** Every piece of code stands in the chunk behind what comes from the pieces before it. */
  lemma CodeStands(ps: seq<string>, i: nat)
    requires i < |ps| && IsCode(i)
    ensures OnLines(Chunk(ps), Sizes(ps[..i]) + i, ps[i], i + 1 == |ps|)
  {
    hide Rendered, Sizes, Quoted, OnLines;
    var n, head, t := |ps| - 1, Rendered(ps[..i]), ps[i];
    RenderedSize(ps[..i]);
    EndsLine(ps[..i]);
    if i < n {
      SamePrefix(ps, i);
      var tail := RenderedSplit(ps[..n], i);
      CodeBetween(head, t, tail + Last(n, ps[n]));
      Regroup(head, t + "\n", tail, Last(n, ps[n]));
    } else {
      CodeBehind(head, t);
    }
  }

  /** Every text piece is in the chunk as an argument of tmg.print, and the lexer reads exactly the
      piece there if and only if it has no carriage return, no line end at the start, and does not
      end like a closing bracket of its level. */
  lemma TextReadsBack(ps: seq<string>, i: nat)
    requires i < |ps| && !IsCode(i) && ps[i] != ""
    ensures var chunk, at, e := Chunk(ps), BracketAt(ps, i), BracketEnd(ps, i);
            && e + 2 <= |chunk| && chunk[at - 10..at] == "tmg.print(" && chunk[e..e + 2] == ")\n"
            && (Q.ReadLong(chunk, at) == Q.Some((ps[i], e)) <==> Q.Quotable(ps[i], Q.Level(ps[i])))
  {
    hide Chunk, Rendered, Q.ReadLong, Q.Quotable, Q.Level, Q.Bracket, Q.IsLevel;
    var tail := ChunkSplit(ps, i);
    var text, n := ps[i], Q.Level(ps[i]);
    var pre := Rendered(ps[..i]) + (if i + 1 < |ps| then "\n" else "") + "tmg.print(";
    Q.LevelIs(text);
    Q.QuoteRoundTripAt(pre, text, n, ")\n" + tail);
    assert Chunk(ps) == pre + Q.Bracket(text, n) + (")\n" + tail);
  }
}
