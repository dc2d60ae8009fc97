/** The unit tests of the overload-row grammar, as lemmas: the prose bound
    of `textureSampleLevel` (src/wgsl/overload_row.rs), read on its own, and
    the whole row of `textureSampleLevel 2d array`. */
module OverloadExamples {
  import opened Prelude
  import Misc
  import opened Types
  import opened Overloads
  import FnDecls
  import Tex = Texture

  /** The three lines of the prose bound, each a run of visible words
      joined by single spaces, and the indentation between them. */
  const Words1: seq<seq<char>> := ["depends", "on", "the", "storage", "texel", "format", "|F|."]
  const Words2: seq<seq<char>> := ["[See", "the", "texel", "format", "table](#storage-texel-formats)"]
  const Words2More: seq<seq<char>> := ["for", "the", "mapping", "of", "texel"]
  const Words3: seq<seq<char>> := ["format", "to", "channel", "format."]
  const Line1: seq<char> := Sentence(Words1)
  const Line2: seq<char> := Sentence(Words2) + (" " + Sentence(Words2More))
  const Line3: seq<char> := Sentence(Words3)
  const Indent: seq<char> := "\n        "

  /** Three lines written one under the other, indented alike. */
  function BodyOf(l1: seq<char>, l2: seq<char>, l3: seq<char>): seq<char>
  {
    l1 + (Indent + (l2 + (Indent + l3)))
  }

  /** The same three lines joined by single spaces. */
  function JoinedOf(l1: seq<char>, l2: seq<char>, l3: seq<char>): seq<char>
  {
    l1 + (" " + (l2 + (" " + l3)))
  }

  /** The prose as written, up to (not including) its trailing blanks. */
  function ProseBody(): seq<char>
  {
    BodyOf(Line1, Line2, Line3)
  }

  /** What the bound keeps of it: the three lines joined by single spaces. */
  const Joined: seq<char> := JoinedOf(Line1, Line2, Line3)

  /** Visible ASCII other than `<`. */
  predicate Plain(x: seq<char>)
  {
    forall i :: 0 <= i < |x| ==> '!' <= x[i] <= '~' && x[i] != '<'
  }

  /** Words joined by single spaces. */
  function Sentence(ws: seq<seq<char>>): seq<char>
    requires |ws| > 0
  {
    if |ws| == 1 then ws[0] else ws[0] + (" " + Sentence(ws[1..]))
  }

  predicate AllPlain(ws: seq<seq<char>>)
  {
    forall k :: 0 <= k < |ws| ==> |ws[k]| > 0 && Plain(ws[k])
  }

  /** A line the whitespace normaliser leaves alone: no blank at either
      end, no run of blanks inside, and no `<` anywhere. */
  predicate Line(x: seq<char>)
  {
    |x| > 0 && Misc.Collapsed(x) && NoOpenAngle(x) && !IsWhitespace(x[0]) && !IsWhitespace(x[|x| - 1])
  }

  lemma PlainFacts(x: seq<char>)
    requires |x| > 0 && Plain(x)
    ensures Line(x)
  {
    forall i | 0 <= i < |x| ensures !IsWhitespace(x[i]) {
      assert '!' <= x[i] <= '~';
    }
  }

  /** A word, a space, then a sentence: still a line. */
  lemma JoinFacts(x: seq<char>, y: seq<char>)
    requires Line(x) && Line(y)
    ensures Line(x + (" " + y))
  {
    var z := x + (" " + y);
    assert z[|x|] == ' ';
    forall i | 0 <= i < |z| && IsWhitespace(z[i])
      ensures z[i] == ' ' && (i + 1 == |z| || !IsWhitespace(z[i + 1]))
    {
      if i < |x| {
        assert z[i] == x[i];
        if i + 1 < |x| { assert z[i + 1] == x[i + 1]; }
      } else if i > |x| {
        assert z[i] == y[i - |x| - 1];
        if i + 1 < |z| { assert z[i + 1] == y[i - |x|]; }
      } else {
        assert z[i + 1] == y[0];
      }
    }
    forall i | 0 <= i < |z| ensures z[i] != '<' {
      if i < |x| { assert z[i] == x[i]; } else if i > |x| { assert z[i] == y[i - |x| - 1]; }
    }
    assert z[|z| - 1] == y[|y| - 1];
  }

  /** A sentence of plain words is a line. */
  lemma {:induction false} SentenceFacts(ws: seq<seq<char>>)
    requires |ws| > 0 && AllPlain(ws)
    ensures Line(Sentence(ws))
    decreases |ws|
  {
    PlainFacts(ws[0]);
    if |ws| > 1 {
      assert AllPlain(ws[1..]) by {
        forall k | 0 <= k < |ws| - 1 ensures |ws[1..][k]| > 0 && Plain(ws[1..][k]) {
          assert ws[1..][k] == ws[k + 1];
        }
      }
      SentenceFacts(ws[1..]);
      JoinFacts(ws[0], Sentence(ws[1..]));
    }
  }

  lemma Words1Plain()
    ensures AllPlain(Words1)
  {
  }

  lemma Words2Plain()
    ensures AllPlain(Words2)
  {
    TablePlain();
  }

  lemma TablePlain()
    ensures Plain("table](#storage-texel-formats)")
  {
  }

  lemma Words2MorePlain()
    ensures AllPlain(Words2More)
  {
  }

  lemma Words3Plain()
    ensures AllPlain(Words3)
  {
  }

  /** Each of the three lines of the test's prose is a line, and the first
      does not start with `i`. */
  lemma LinesOfProse()
    ensures Line(Line1) && Line(Line2) && Line(Line3) && Line1[0] != 'i'
  {
    Words1Plain();
    Words2Plain();
    Words2MorePlain();
    Words3Plain();
    SentenceFacts(Words1);
    SentenceFacts(Words2);
    SentenceFacts(Words2More);
    JoinFacts(Sentence(Words2), Sentence(Words2More));
    SentenceFacts(Words3);
    assert Line1[0] == Words1[0][0] == 'd';
  }

  lemma IndentFacts()
    ensures Blank(Indent) && |Indent| > 0 && NoOpenAngle(Indent)
  {
  }

  lemma NoAngleJoin(a: seq<char>, b: seq<char>)
    requires NoOpenAngle(a) && NoOpenAngle(b)
    ensures NoOpenAngle(a + b)
  {
    forall i | 0 <= i < |a + b| ensures (a + b)[i] != '<' {
      if i >= |a| { assert (a + b)[i] == b[i - |a|]; }
    }
  }

  lemma BodyEnds(a: seq<char>, m: seq<char>, z: seq<char>)
    requires |a| > 0 && |z| > 0
    ensures (a + (m + z))[0] == a[0] && (a + (m + z))[|a + (m + z)| - 1] == z[|z| - 1]
  {
  }

  /** A body of three lines shows no `<`, starts and ends with a visible
      character, and does not start with `is`. */
  lemma BodyFacts(l1: seq<char>, l2: seq<char>, l3: seq<char>)
    requires Line(l1) && Line(l2) && Line(l3) && l1[0] != 'i'
    ensures var b := BodyOf(l1, l2, l3);
      NoOpenAngle(b) && !IsWhitespace(b[0]) && !IsWhitespace(b[|b| - 1]) && !("is" <= b)
  {
    var b := BodyOf(l1, l2, l3);
    IndentFacts();
    NoAngleJoin(Indent, l3);
    NoAngleJoin(l2, Indent + l3);
    NoAngleJoin(Indent, l2 + (Indent + l3));
    NoAngleJoin(l1, Indent + (l2 + (Indent + l3)));
    BodyEnds(l1, Indent + (l2 + Indent), l3);
    assert b == l1 + ((Indent + (l2 + Indent)) + l3);
    assert b[0] == l1[0];
  }

  /** Trimming and normalising three indented lines, whatever blanks trail
      them, joins them with single spaces. */
  lemma ProseValue(l1: seq<char>, l2: seq<char>, l3: seq<char>, tail: seq<char>)
    requires Line(l1) && Line(l2) && Line(l3) && l1[0] != 'i'
    requires Blank(tail)
    ensures Misc.NormalizeWhitespace(Misc.Trim(BodyOf(l1, l2, l3) + tail)) == JoinedOf(l1, l2, l3)
  {
    BodyFacts(l1, l2, l3);
    IndentFacts();
    Misc.TrimOf(BodyOf(l1, l2, l3), tail);
    Misc.NormalizeKeeps(l3, []);
    assert l3 + [] == l3;
    assert Misc.NormalizeWhitespace([]) == [];
    Misc.NormalizeRun(Indent, l3);
    Misc.NormalizeKeeps(l2, Indent + l3);
    Misc.NormalizeRun(Indent, l2 + (Indent + l3));
    Misc.NormalizeKeeps(l1, Indent + (l2 + (Indent + l3)));
  }

  /** `<var ignore>X</var>` names the type parameter `X`. */
  lemma VarArg(x: seq<char>, rest: seq<char>)
    requires IsIdent(x)
    ensures ParseGenericArg("<var ignore>" + (x + ("</var>" + rest))) == Ok(rest, x)
  {
    var u := "<var ignore>" + (x + ("</var>" + rest));
    VarText(x + ("</var>" + rest));
    SkipWsNone(u);
    IdentSkips(x, "</var>" + rest);
    BareOf(x, "</var>" + rest);
    CloseVar([], rest);
    assert [] + ("</var>" + rest) == "</var>" + rest;
    VarStep(u, u, x + ("</var>" + rest), "</var>" + rest, x);
  }

  lemma IdentSkips(x: seq<char>, y: seq<char>)
    requires IsIdent(x)
    ensures SkipWs(x + y) == x + y
  {
    assert (x + y)[0] == x[0];
    SkipWsNone(x + y);
  }

  lemma Regroup3(a: seq<char>, b: seq<char>, c: seq<char>)
    ensures a + (b + c) == (a + b) + c
  {
  }

  /** Three indented lines, with blanks after them, in front of `<td>`. */
  lemma ProseKind(l1: seq<char>, l2: seq<char>, l3: seq<char>, tail: seq<char>, m: seq<char>)
    requires Line(l1) && Line(l2) && Line(l3) && l1[0] != 'i'
    requires Blank(tail)
    ensures ParseBoundKind(" " + (BodyOf(l1, l2, l3) + (tail + ("<td>" + m))))
      == Ok("<td>" + m, Prose(JoinedOf(l1, l2, l3)))
  {
    var body := BodyOf(l1, l2, l3);
    var p := body + tail;
    BodyFacts(l1, l2, l3);
    assert NoOpenAngle(tail);
    NoAngleJoin(body, tail);
    ProseStartsLikeBody(body, tail);
    Regroup3(body, tail, "<td>" + m);
    KindProseOf(" ", p, "<td>" + m);
    ProseValue(l1, l2, l3, tail);
  }

  lemma ProseStartsLikeBody(body: seq<char>, tail: seq<char>)
    requires |body| >= 2
    ensures var p := body + tail;
      p[0] == body[0] && (!("is" <= body) ==> !("is" <= p))
  {
    var p := body + tail;
    assert p[..2] == body[..2];
  }

  lemma VarShapeCF(y: seq<char>)
    ensures "<var ignore>CF</var> " + y == "<var ignore>" + ("CF" + ("</var>" + (" " + y)))
  {
    assert "<var ignore>CF</var> " == "<var ignore>" + ("CF" + ("</var>" + " "));
  }

  /** A prose bound of three indented lines, after blanks, reads as prose
      joined into one line, and stops at the `<td>` that follows it. */
  lemma ProseBoundAt(w: seq<char>, l1: seq<char>, l2: seq<char>, l3: seq<char>, tail: seq<char>, m: seq<char>)
    requires Blank(w) && Line(l1) && Line(l2) && Line(l3) && l1[0] != 'i'
    requires Blank(tail)
    ensures ParseBound(w + ("<var ignore>CF</var> " + (BodyOf(l1, l2, l3) + (tail + ("<td>" + m)))))
      == Ok("<td>" + m, Bound("CF", Prose(JoinedOf(l1, l2, l3))))
  {
    var body := BodyOf(l1, l2, l3);
    var rest := " " + (body + (tail + ("<td>" + m)));
    var u := "<var ignore>" + ("CF" + ("</var>" + rest));
    VarShapeCF(body + (tail + ("<td>" + m)));
    assert u[0] == '<';
    Skipped(w, u);
    VarArg("CF", rest);
    ProseKind(l1, l2, l3, tail, m);
    BoundStep(w + u, u, rest, "CF", "<td>" + m, Prose(JoinedOf(l1, l2, l3)));
  }

  /** The same, indented as in the first test and ending at `<td>`. */
  lemma ProseBound(l1: seq<char>, l2: seq<char>, l3: seq<char>, tail: seq<char>)
    requires Line(l1) && Line(l2) && Line(l3) && l1[0] != 'i'
    requires Blank(tail)
    ensures ParseBound(Indent + ("<var ignore>CF</var> " + (BodyOf(l1, l2, l3) + (tail + "<td>"))))
      == Ok("<td>", Bound("CF", Prose(JoinedOf(l1, l2, l3))))
  {
    IndentFacts();
    assert "<td>" + [] == "<td>";
    ProseBoundAt(Indent, l1, l2, l3, tail, []);
  }

  /** A tag other than `<var …>` and `<br>` starts no bound and no break. */
  lemma TagStops(s: seq<char>)
    requires |s| >= 2 && s[0] == '<' && s[1] != 'v' && s[1] != 'b'
    ensures ParseBound(s).Error? && SkipBreaks(s) == s
  {
    TagNoBreak(s);
    TagNoBound(s);
  }

  lemma TagNoBreak(s: seq<char>)
    requires |s| >= 2 && s[0] == '<' && s[1] != 'b'
    ensures SkipBreaks(s) == s
  {
    SkipWsNone(s);
    assert !("<br>" <= SkipWs(s)) by { assert "<br>"[1] == 'b'; }
    NoBreak(s);
  }

  lemma TagNoBound(s: seq<char>)
    requires |s| >= 2 && s[0] == '<' && s[1] != 'v'
    ensures ParseBound(s).Error?
  {
    SkipWsNone(s);
    TagNoArg(s);
    NoArgNoBound(s);
  }

  lemma NoArgNoBound(s: seq<char>)
    requires SkipWs(s) == s && ParseGenericArg(s).Error?
    ensures ParseBound(s).Error?
  {
  }

  lemma TagNoArg(s: seq<char>)
    requires |s| >= 2 && s[0] == '<' && s[1] != 'v'
    ensures ParseGenericArg(s).Error?
  {
    SkipWsNone(s);
    assert !("<var ignore>" <= s) by { assert "<var ignore>"[1] == 'v'; }
    assert !IsIdentStart(s[0]);
    assert GenericFallback(s, s).Error?;
  }

  /** `<td>` starts no bound and no break. */
  lemma TdStops()
    ensures ParseBound("<td>").Error? && SkipBreaks("<td>") == "<td>"
  {
    TagStops("<td>");
  }

  /** A parametrization holding one prose bound for `CF`, of three
      indented lines, reads as that bound and stops at `<td>`. */
  lemma ParseProse(l1: seq<char>, l2: seq<char>, l3: seq<char>)
    requires Line(l1) && Line(l2) && Line(l3) && l1[0] != 'i'
    ensures ParseParametrization(Indent + ("<var ignore>CF</var> " + (BodyOf(l1, l2, l3) + (Indent + "<td>"))))
      == Ok("<td>", [Bound("CF", Prose(JoinedOf(l1, l2, l3)))])
  {
    var s := Indent + ("<var ignore>CF</var> " + (BodyOf(l1, l2, l3) + (Indent + "<td>")));
    var b := Bound("CF", Prose(JoinedOf(l1, l2, l3)));
    IndentFacts();
    ProseBound(l1, l2, l3, Indent);
    TdStops();
    assert Linked([s, "<td>"], [b]);
    ParametrizationOf([s, "<td>"], [b]);
  }

  /** overload_row.rs, the first test: the prose parametrization of
      `textureSampleLevel` parses as one prose bound for `CF`, and stops at
      the `<td>` that opens the signature cell. */
  lemma ParseTestProse()
    ensures ParseParametrization(Indent + ("<var ignore>CF</var> " + (ProseBody() + (Indent + "<td>"))))
      == Ok("<td>", [Bound("CF", Prose(Joined))])
  {
    LinesOfProse();
    ParseProse(Line1, Line2, Line3);
  }

  // ---------------------------------------------------------------------
  // The second test: a whole row
  // ---------------------------------------------------------------------

  /** Blanks, then a tag: no union separator follows. */
  lemma SepStopsAtTag(w: seq<char>, y: seq<char>)
    requires Blank(w) && |y| > 0 && y[0] == '<'
    ensures UnionSep(w + y).Error?
  {
    Skipped(w, y);
  }

  /** Blanks, then a generic argument: no break to skip. */
  lemma NoBreakBeforeVar(w: seq<char>, y: seq<char>)
    requires Blank(w) && "<v" <= y
    ensures SkipBreaks(w + y) == w + y
  {
    Skipped(w, y);
    assert !("<br>" <= y) by { assert y[1] == 'v'; }
    NoBreak(w + y);
  }

  /** After blanks, `<var ignore>X</var> is` and a written union list: a
      union bound on `X` that ends where the list ends. */
  lemma UnionBoundOf(w: seq<char>, x: seq<char>, ts: seq<Ty>, ws: seq<Wrapping>, seps: seq<Separator>, rest: seq<char>)
    requires Blank(w) && IsIdent(x)
    requires |ts| == |ws| == |seps| + 1 && AllWellFormed(ts) && UnionSep(rest).Error?
    ensures ParseBound(w + ("<var ignore>" + (x + ("</var>" + (" " + ("is" + (" " + (Spelled(ts, ws, seps) + rest))))))))
      == Ok(rest, Bound(x, Union(UnionBound(ts))))
  {
    var k := " " + ("is" + (" " + (Spelled(ts, ws, seps) + rest)));
    assert Blank(" ");
    KindUnionOf(" ", " ", ts, ws, seps, rest);
    VarBound(w, x, k, rest, Union(UnionBound(ts)));
  }

  /** After blanks, `<var ignore>X</var>` and the text of a kind: a bound
      on `X` of that kind. */
  lemma VarBound(w: seq<char>, x: seq<char>, k: seq<char>, rest: seq<char>, kind: BoundKind)
    requires Blank(w) && IsIdent(x) && ParseBoundKind(k) == Ok(rest, kind)
    ensures ParseBound(w + ("<var ignore>" + (x + ("</var>" + k)))) == Ok(rest, Bound(x, kind))
  {
    var u := "<var ignore>" + (x + ("</var>" + k));
    assert u[0] == '<';
    Skipped(w, u);
    VarArg(x, k);
    BoundStep(w + u, u, k, x, rest, kind);
  }

  /** The types of the test. */
  const I32: Ty := Leaf("i32")
  const U32: Ty := Leaf("u32")
  const F32: Ty := Leaf("f32")
  const Sampler: Ty := Leaf("sampler")
  const TypeA: Ty := Leaf("A")
  const TexArray: Ty := Ty(Texture(Tex.TextureName(false, false, true, false, false, "2d")), [F32])
  const Vec2F32: Ty := Ty(Vector('2'), [F32])
  const Vec4F32: Ty := Ty(Vector('4'), [F32])

  lemma LeafText(x: seq<char>)
    ensures Render(Leaf(x)) == x
  {
    assert Brackets(Leaf(x)) == [];
  }

  lemma LeavesWellFormed()
    ensures WellFormed(I32) && WellFormed(U32) && WellFormed(F32) && WellFormed(Sampler) && WellFormed(TypeA)
  {
    NamedLeaf("i32");
    NamedLeaf("u32");
    NamedLeaf("f32");
    NamedLeaf("sampler");
    NamedLeaf("A");
  }

  /** A plain name that no keyword or texture name starts is a leaf type. */
  lemma NamedLeaf(x: seq<char>)
    requires |x| > 0 && IsIdentStart(x[0]) && x[0] != 'v' && x[0] != 'm' && x[0] != 't'
    requires forall i :: 1 <= i < |x| ==> IsAsciiAlpha(x[i]) || IsAsciiDigit(x[i])
    ensures WellFormed(Leaf(x))
  {
    assert IsIdent(x);
    assert !("void" <= x) && !("vec" <= x) && !("mat" <= x) && !("texture_" <= x);
  }

  lemma VectorsWellFormed()
    ensures WellFormed(TexArray) && WellFormed(Vec2F32) && WellFormed(Vec4F32)
  {
    LeavesWellFormed();
  }

  /** Each of the test's parametrized types is written as in the test. */
  lemma TexArrayText()
    ensures Render(TexArray) == "texture_2d_array<f32>"
  {
    LeafText("f32");
    SingleList(TexArray, "f32");
    assert RenderKind(TexArray.kind) == "texture_2d_array";
    RenderWithList(TexArray, "texture_2d_array", "f32");
  }

  lemma VecText(t: Ty, c: char)
    requires t == Ty(Vector(c), [F32])
    ensures Render(t) == "vec" + ([c] + "<f32>")
  {
    LeafText("f32");
    SingleList(t, "f32");
    RenderWithList(t, "vec" + [c], "f32");
  }

  /** The three union lists of the test, as written. */
  lemma UnionTextA()
    ensures Spelled([I32, U32], [InBrackets, InBrackets], [CommaOr]) == "[=i32=], or [=u32=]"
  {
    ItemTexts();
    SpelledOne(U32, InBrackets, CommaOr);
    SpelledFirst(I32, [U32], InBrackets, [InBrackets], [CommaOr]);
  }

  lemma UnionTextX()
    ensures Spelled([I32, U32], [InBrackets, InBrackets], [Or]) == "[=i32=] or [=u32=]"
  {
    ItemTexts();
    SpelledOne(U32, InBrackets, Or);
    SpelledFirst(I32, [U32], InBrackets, [InBrackets], [Or]);
  }

  lemma UnionTextY()
    ensures Spelled([I32, U32, F32], [InBrackets, InBrackets, InBrackets], [Comma, Or]) == "[=i32=], [=u32=] or [=f32=]"
  {
    UnionShapeY();
    ItemTexts();
    UnionLiteralY();
  }

  lemma UnionLiteralY()
    ensures "[=i32=]" + (", " + ("[=u32=]" + (" or " + "[=f32=]"))) == "[=i32=], [=u32=] or [=f32=]"
  {
  }

  lemma UnionShapeY()
    ensures Spelled([I32, U32, F32], [InBrackets, InBrackets, InBrackets], [Comma, Or])
      == ItemSpelling(InBrackets, I32) + (", " + (ItemSpelling(InBrackets, U32) + (" or " + ItemSpelling(InBrackets, F32))))
  {
    SpelledOne(F32, InBrackets, Or);
    SpelledCons(U32, [F32], InBrackets, [InBrackets], Comma, [Or]);
    assert [U32] + [F32] == [U32, F32] && [InBrackets] + [InBrackets] == [InBrackets, InBrackets] && [Comma] + [Or] == [Comma, Or];
    SpelledFirst(I32, [U32, F32], InBrackets, [InBrackets, InBrackets], [Comma, Or]);
  }

  lemma SpelledOne(t: Ty, w: Wrapping, sep: Separator)
    ensures SpelledMore([t], [w], [sep]) == SepSpelling(sep) + ItemSpelling(w, t)
  {
    assert SpelledMore([t][1..], [w][1..], [sep][1..]) == [];
  }

  lemma SpelledCons(t: Ty, ts: seq<Ty>, w: Wrapping, ws: seq<Wrapping>, sep: Separator, seps: seq<Separator>)
    requires |ts| == |ws| == |seps|
    ensures SpelledMore([t] + ts, [w] + ws, [sep] + seps) == SepSpelling(sep) + (ItemSpelling(w, t) + SpelledMore(ts, ws, seps))
  {
    assert ([t] + ts)[1..] == ts && ([w] + ws)[1..] == ws && ([sep] + seps)[1..] == seps;
  }

  lemma SpelledFirst(t: Ty, ts: seq<Ty>, w: Wrapping, ws: seq<Wrapping>, seps: seq<Separator>)
    requires |ts| == |ws| == |seps|
    ensures Spelled([t] + ts, [w] + ws, seps) == ItemSpelling(w, t) + SpelledMore(ts, ws, seps)
  {
    assert ([t] + ts)[1..] == ts && ([w] + ws)[1..] == ws;
  }

  lemma ItemTexts()
    ensures ItemSpelling(InBrackets, I32) == "[=i32=]"
    ensures ItemSpelling(InBrackets, U32) == "[=u32=]"
    ensures ItemSpelling(InBrackets, F32) == "[=f32=]"
  {
    LeafText("i32");
    LeafText("u32");
    LeafText("f32");
  }

  /** A union bound written `<var ignore>X</var> is …`, after blanks. */
  lemma UnionLink(w: seq<char>, x: seq<char>, lit: seq<char>, ts: seq<Ty>, ws: seq<Wrapping>, seps: seq<Separator>, rest: seq<char>)
    requires Blank(w) && IsIdent(x)
    requires |ts| == |ws| == |seps| + 1 && AllWellFormed(ts) && UnionSep(rest).Error?
    requires lit == "<var ignore>" + (x + ("</var> is " + Spelled(ts, ws, seps)))
    ensures ParseBound(w + (lit + rest)) == Ok(rest, Bound(x, Union(UnionBound(ts))))
  {
    UnionWritten(x, Spelled(ts, ws, seps), rest);
    UnionBoundOf(w, x, ts, ws, seps, rest);
  }

  lemma UnionWritten(x: seq<char>, sp: seq<char>, y: seq<char>)
    ensures ("<var ignore>" + (x + ("</var> is " + sp))) + y
      == "<var ignore>" + (x + ("</var>" + (" " + ("is" + (" " + (sp + y))))))
  {
    assert "</var> is " == "</var>" + (" " + ("is" + " "));
  }

  /** The test's label, blanks and bound lines. */
  const Label: seq<char> := "textureSampleLevel 2d array"
  const Nl4: seq<char> := "\n    "
  const Nl28: seq<char> := "\n                            "
  const LineA: seq<char> := "<var ignore>" + ("A" + ("</var> is " + "[=i32=], or [=u32=]"))
  const LineX: seq<char> := "<var ignore>" + ("X" + ("</var> is " + "[=i32=] or [=u32=]"))
  const LineY: seq<char> := "<var ignore>" + ("Y" + ("</var> is " + "[=i32=], [=u32=] or [=f32=]"))

  /** The signature as the test writes it, one argument per line, then `e`. */
  function SignatureThen(e: seq<char>): seq<char>
  {
    "fn textureSampleLevel(" + ("t: texture_2d_array<f32>" + ("," + (Nl28 + ("s: sampler" + ("," + (Nl28
    + ("coords: vec2<f32>" + ("," + (Nl28 + ("array_index: A" + ("," + (Nl28
    + ("level: f32" + (") -> vec4<f32>" + e))))))))))))))
  }

  /** The second test's input: the row of `textureSampleLevel 2d array`. */
  function TestRow(): seq<char>
  {
    "<tr algorithm=\"" + (Label + ("\">" + (Nl4 + ("<td>" + (LineA + ("<br>" + (Nl4 + (LineX + (Nl4 + (LineY
    + (Nl4 + ("<var ignore>CF</var> " + (ProseBody() + (Nl4
    + ("<td>" + ("<xmp highlight=rust>" + (Indent + SignatureThen("</xmp>"))))))))))))))))))
  }

  /** The arguments and the signature the test expects. */
  const TestArgs: seq<(seq<char>, Ty)> :=
    [("t", TexArray), ("s", Sampler), ("coords", Vec2F32), ("array_index", TypeA), ("level", F32)]
  const TestDecl: FnDecls.FnDecl := FnDecls.FnDecl("textureSampleLevel", TestArgs, Vec4F32)

  lemma BlankTexts()
    ensures Blank(Nl4) && Blank(Nl28) && Blank(Indent) && Blank([])
  {
  }

  lemma LinkOf(s: seq<char>, b: Bound, r: seq<char>, y: seq<char>)
    requires ParseBound(s) == Ok(r, b) && SkipBreaks(r) == y
    ensures BoundLink(s, b, y)
  {
  }

  /** The signature cell starts no bound and no break. */
  lemma CellStops(m: seq<char>)
    ensures ParseBound("<td>" + m).Error? && SkipBreaks("<td>" + m) == "<td>" + m
  {
    assert ("<td>" + m)[1] == 't';
    TagStops("<td>" + m);
  }

  /** A line that opens with `<var ignore>` starts with `<v`. */
  lemma VarStart(v: seq<char>)
    requires "<var ignore>" <= v
    ensures "<v" <= v && |v| > 0 && v[0] == '<'
  {
    assert v[..2] == "<v";
  }

  lemma VarHead(a: seq<char>, z: seq<char>)
    requires "<var ignore>" <= a
    ensures "<var ignore>" <= a + z
  {
    assert (a + z)[..12] == a[..12];
  }

  /** What the union lines of `A`, `X` and `Y` are made of. */
  lemma FactsA()
    ensures IsIdent("A") && AllWellFormed([I32, U32])
    ensures LineA == "<var ignore>" + ("A" + ("</var> is " + Spelled([I32, U32], [InBrackets, InBrackets], [CommaOr])))
  {
    UnionTextA();
    LeavesWellFormed();
  }

  lemma FactsX()
    ensures IsIdent("X") && AllWellFormed([I32, U32])
    ensures LineX == "<var ignore>" + ("X" + ("</var> is " + Spelled([I32, U32], [InBrackets, InBrackets], [Or])))
  {
    UnionTextX();
    LeavesWellFormed();
  }

  lemma FactsY()
    ensures IsIdent("Y") && AllWellFormed([I32, U32, F32])
    ensures LineY == "<var ignore>" + ("Y" + ("</var> is " + Spelled([I32, U32, F32], [InBrackets, InBrackets, InBrackets], [Comma, Or])))
  {
    UnionTextY();
    LeavesWellFormed();
  }

  /** After a union line: the next line, or a break and then the next line.
      Neither is a separator, and the breaks end at the next line. */
  lemma NextLine(v: seq<char>)
    requires "<var ignore>" <= v
    ensures UnionSep(Nl4 + v).Error? && SkipBreaks(Nl4 + v) == Nl4 + v
  {
    BlankTexts();
    VarStart(v);
    SepStopsAtTag(Nl4, v);
    NoBreakBeforeVar(Nl4, v);
  }

  lemma BreakLine(v: seq<char>)
    requires "<var ignore>" <= v
    ensures UnionSep("<br>" + (Nl4 + v)).Error? && SkipBreaks("<br>" + (Nl4 + v)) == Nl4 + v
  {
    var c := Nl4 + v;
    NextLine(v);
    BreakOf([], c);
    assert [] + ("<br>" + c) == "<br>" + c;
    SepStopsAtTag([], "<br>" + c);
  }

  /** The bounds cell of the test from each bound line on, in front of the
      signature cell `<td>` + `m`, for any three lines of prose. */
  function FromCF(l1: seq<char>, l2: seq<char>, l3: seq<char>, m: seq<char>): seq<char>
  {
    Nl4 + ("<var ignore>CF</var> " + (BodyOf(l1, l2, l3) + (Nl4 + ("<td>" + m))))
  }

  function FromY(l1: seq<char>, l2: seq<char>, l3: seq<char>, m: seq<char>): seq<char>
  {
    Nl4 + (LineY + FromCF(l1, l2, l3, m))
  }

  function FromX(l1: seq<char>, l2: seq<char>, l3: seq<char>, m: seq<char>): seq<char>
  {
    Nl4 + (LineX + FromY(l1, l2, l3, m))
  }

  function FromA(l1: seq<char>, l2: seq<char>, l3: seq<char>, m: seq<char>): seq<char>
  {
    LineA + ("<br>" + FromX(l1, l2, l3, m))
  }

  /** The four bounds the test expects, the prose one over any lines. */
  function BoundsOf(l1: seq<char>, l2: seq<char>, l3: seq<char>): seq<Bound>
  {
    [BoundA, BoundX, BoundY, Bound("CF", Prose(JoinedOf(l1, l2, l3)))]
  }

  /** What each bound line of the test starts, and where the next one
      starts. */
  lemma LinkY(v: seq<char>)
    requires "<var ignore>" <= v
    ensures BoundLink(Nl4 + (LineY + (Nl4 + v)), BoundY, Nl4 + v)
  {
    FactsY();
    NextLine(v);
    BlankTexts();
    UnionLink(Nl4, "Y", LineY, [I32, U32, F32], [InBrackets, InBrackets, InBrackets], [Comma, Or], Nl4 + v);
    LinkOf(Nl4 + (LineY + (Nl4 + v)), Bound("Y", Union(UnionBound([I32, U32, F32]))), Nl4 + v, Nl4 + v);
  }

  lemma LinkX(v: seq<char>)
    requires "<var ignore>" <= v
    ensures BoundLink(Nl4 + (LineX + (Nl4 + v)), BoundX, Nl4 + v)
  {
    FactsX();
    NextLine(v);
    BlankTexts();
    UnionLink(Nl4, "X", LineX, [I32, U32], [InBrackets, InBrackets], [Or], Nl4 + v);
    LinkOf(Nl4 + (LineX + (Nl4 + v)), Bound("X", Union(UnionBound([I32, U32]))), Nl4 + v, Nl4 + v);
  }

  lemma LinkA(v: seq<char>)
    requires "<var ignore>" <= v
    ensures BoundLink(LineA + ("<br>" + (Nl4 + v)), BoundA, Nl4 + v)
  {
    FactsA();
    BreakLine(v);
    BlankTexts();
    UnionLink([], "A", LineA, [I32, U32], [InBrackets, InBrackets], [CommaOr], "<br>" + (Nl4 + v));
    assert [] + (LineA + ("<br>" + (Nl4 + v))) == LineA + ("<br>" + (Nl4 + v));
    LinkOf(LineA + ("<br>" + (Nl4 + v)), Bound("A", Union(UnionBound([I32, U32]))), "<br>" + (Nl4 + v), Nl4 + v);
  }

  lemma LinkCF(l1: seq<char>, l2: seq<char>, l3: seq<char>, m: seq<char>)
    requires Line(l1) && Line(l2) && Line(l3) && l1[0] != 'i'
    ensures BoundLink(FromCF(l1, l2, l3, m), Bound("CF", Prose(JoinedOf(l1, l2, l3))), "<td>" + m)
  {
    BlankTexts();
    ProseBoundAt(Nl4, l1, l2, l3, Nl4, m);
    CellStops(m);
    LinkOf(FromCF(l1, l2, l3, m), Bound("CF", Prose(JoinedOf(l1, l2, l3))), "<td>" + m, "<td>" + m);
  }

  /** The union lines open with `<var ignore>`. */
  lemma LinesStart()
    ensures "<var ignore>" <= LineA && "<var ignore>" <= LineX && "<var ignore>" <= LineY
  {
  }

  /** One more bound in front of chained ones, whatever the link. */
  lemma ChainedTwo(link: (seq<char>, Bound, seq<char>) -> bool, s: seq<char>, b: Bound, s1: seq<char>, b1: Bound, c: seq<char>)
    requires Chained(link, [s1, c], [b1]) && link(s, b, s1)
    ensures Chained(link, [s, s1, c], [b, b1])
  {
    assert [s, s1, c][1..] == [s1, c] && [b, b1][1..] == [b1];
  }

  lemma ChainedThree(link: (seq<char>, Bound, seq<char>) -> bool, s: seq<char>, b: Bound, s1: seq<char>, b1: Bound,
                     s2: seq<char>, b2: Bound, c: seq<char>)
    requires Chained(link, [s1, s2, c], [b1, b2]) && link(s, b, s1)
    ensures Chained(link, [s, s1, s2, c], [b, b1, b2])
  {
    assert [s, s1, s2, c][1..] == [s1, s2, c] && [b, b1, b2][1..] == [b1, b2];
  }

  lemma ChainedFour(link: (seq<char>, Bound, seq<char>) -> bool, s: seq<char>, b: Bound, s1: seq<char>, b1: Bound,
                    s2: seq<char>, b2: Bound, s3: seq<char>, b3: Bound, c: seq<char>)
    requires Chained(link, [s1, s2, s3, c], [b1, b2, b3]) && link(s, b, s1)
    ensures Chained(link, [s, s1, s2, s3, c], [b, b1, b2, b3])
  {
    assert [s, s1, s2, s3, c][1..] == [s1, s2, s3, c] && [b, b1, b2, b3][1..] == [b1, b2, b3];
  }

  lemma ChainedOne(link: (seq<char>, Bound, seq<char>) -> bool, s: seq<char>, b: Bound, c: seq<char>)
    requires link(s, b, c)
    ensures Chained(link, [s, c], [b])
  {
    assert [s, c][1..] == [c];
  }

  /** Where the bounds of the test start, from each bound line on. */
  lemma LinkedCF(l1: seq<char>, l2: seq<char>, l3: seq<char>, m: seq<char>)
    requires Line(l1) && Line(l2) && Line(l3) && l1[0] != 'i'
    ensures Linked([FromCF(l1, l2, l3, m), "<td>" + m], [Bound("CF", Prose(JoinedOf(l1, l2, l3)))])
  {
    LinkCF(l1, l2, l3, m);
    ChainedOne(BoundLink, FromCF(l1, l2, l3, m), Bound("CF", Prose(JoinedOf(l1, l2, l3))), "<td>" + m);
  }

  const BoundA: Bound := Bound("A", Union(UnionBound([I32, U32])))
  const BoundX: Bound := Bound("X", Union(UnionBound([I32, U32])))
  const BoundY: Bound := Bound("Y", Union(UnionBound([I32, U32, F32])))

  /** Each bound line of the test, from the line after it on. */
  lemma LinkYAt(l1: seq<char>, l2: seq<char>, l3: seq<char>, m: seq<char>)
    ensures BoundLink(FromY(l1, l2, l3, m), BoundY, FromCF(l1, l2, l3, m))
  {
    VarHead("<var ignore>CF</var> ", BodyOf(l1, l2, l3) + (Nl4 + ("<td>" + m)));
    LinkY("<var ignore>CF</var> " + (BodyOf(l1, l2, l3) + (Nl4 + ("<td>" + m))));
  }

  lemma LinkXAt(l1: seq<char>, l2: seq<char>, l3: seq<char>, m: seq<char>)
    ensures BoundLink(FromX(l1, l2, l3, m), BoundX, FromY(l1, l2, l3, m))
  {
    LinesStart();
    VarHead(LineY, FromCF(l1, l2, l3, m));
    LinkX(LineY + FromCF(l1, l2, l3, m));
  }

  lemma LinkAAt(l1: seq<char>, l2: seq<char>, l3: seq<char>, m: seq<char>)
    ensures BoundLink(FromA(l1, l2, l3, m), BoundA, FromX(l1, l2, l3, m))
  {
    LinesStart();
    VarHead(LineX, FromY(l1, l2, l3, m));
    LinkA(LineX + FromY(l1, l2, l3, m));
  }

  lemma LinkedY(l1: seq<char>, l2: seq<char>, l3: seq<char>, m: seq<char>)
    requires Line(l1) && Line(l2) && Line(l3) && l1[0] != 'i'
    ensures Linked([FromY(l1, l2, l3, m), FromCF(l1, l2, l3, m), "<td>" + m], [BoundY, Bound("CF", Prose(JoinedOf(l1, l2, l3)))])
  {
    LinkedCF(l1, l2, l3, m);
    LinkYAt(l1, l2, l3, m);
    ChainedTwo(BoundLink, FromY(l1, l2, l3, m), BoundY, FromCF(l1, l2, l3, m), Bound("CF", Prose(JoinedOf(l1, l2, l3))), "<td>" + m);
  }

  lemma LinkedX(l1: seq<char>, l2: seq<char>, l3: seq<char>, m: seq<char>)
    requires Line(l1) && Line(l2) && Line(l3) && l1[0] != 'i'
    ensures Linked([FromX(l1, l2, l3, m), FromY(l1, l2, l3, m), FromCF(l1, l2, l3, m), "<td>" + m],
                   [BoundX, BoundY, Bound("CF", Prose(JoinedOf(l1, l2, l3)))])
  {
    LinkedY(l1, l2, l3, m);
    LinkXAt(l1, l2, l3, m);
    ChainedThree(BoundLink, FromX(l1, l2, l3, m), BoundX, FromY(l1, l2, l3, m), BoundY,
                FromCF(l1, l2, l3, m), Bound("CF", Prose(JoinedOf(l1, l2, l3))), "<td>" + m);
  }

  lemma LinkedA(l1: seq<char>, l2: seq<char>, l3: seq<char>, m: seq<char>)
    requires Line(l1) && Line(l2) && Line(l3) && l1[0] != 'i'
    ensures Linked([FromA(l1, l2, l3, m), FromX(l1, l2, l3, m), FromY(l1, l2, l3, m), FromCF(l1, l2, l3, m), "<td>" + m],
                   [BoundA, BoundX, BoundY, Bound("CF", Prose(JoinedOf(l1, l2, l3)))])
  {
    LinkedX(l1, l2, l3, m);
    LinkAAt(l1, l2, l3, m);
    ChainedFour(BoundLink, FromA(l1, l2, l3, m), BoundA, FromX(l1, l2, l3, m), BoundX, FromY(l1, l2, l3, m), BoundY,
               FromCF(l1, l2, l3, m), Bound("CF", Prose(JoinedOf(l1, l2, l3))), "<td>" + m);
  }

  lemma ParamsOf(l1: seq<char>, l2: seq<char>, l3: seq<char>, m: seq<char>)
    requires Line(l1) && Line(l2) && Line(l3) && l1[0] != 'i'
    ensures ParseParametrization(FromA(l1, l2, l3, m)) == Ok("<td>" + m, BoundsOf(l1, l2, l3))
  {
    var ss := [FromA(l1, l2, l3, m), FromX(l1, l2, l3, m), FromY(l1, l2, l3, m), FromCF(l1, l2, l3, m), "<td>" + m];
    LinkedA(l1, l2, l3, m);
    CellStops(m);
    ParametrizationOf(ss, BoundsOf(l1, l2, l3));
  }

  // The signature cell of the second test

  /** What follows the arguments: the parenthesis, the arrow and the
      output type. */
  function OutTail(e: seq<char>): seq<char>
  {
    [')'] + (" " + ("->" + (" " + (Render(Vec4F32) + e))))
  }

  lemma ArgsTextCons(n: Idents.Ident, t: Ty, lit: seq<char>, w: seq<char>, more: seq<(Idents.Ident, Ty)>,
                     rest: seq<char>, x: seq<char>)
    requires lit == n + ([':'] + (" " + Render(t))) && FnDecls.ArgsText(more, w, rest) == x
    ensures FnDecls.ArgsText([(n, t)] + more, w, rest) == "," + (w + (lit + x))
  {
    var as_ := [(n, t)] + more;
    assert as_[0] == (n, t) && as_[1..] == more;
    Regroup5(n, [':'], " ", Render(t), x);
  }

  lemma ArgListCons(n: Idents.Ident, t: Ty, lit: seq<char>, w: seq<char>, more: seq<(Idents.Ident, Ty)>,
                    rest: seq<char>, x: seq<char>)
    requires lit == n + ([':'] + (" " + Render(t))) && FnDecls.ArgsText(more, w, rest) == x
    ensures FnDecls.ArgList([(n, t)] + more, w, rest) == lit + x
  {
    var as_ := [(n, t)] + more;
    assert as_[0] == (n, t) && as_[1..] == more;
    Regroup5(n, [':'], " ", Render(t), x);
  }

  lemma Regroup5(a: seq<char>, b: seq<char>, c: seq<char>, d: seq<char>, e: seq<char>)
    ensures a + (b + (c + (d + e))) == (a + (b + (c + d))) + e
  {
  }

  /** Each argument of the test as written. */
  lemma ArgT()
    ensures "t: texture_2d_array<f32>" == "t" + ([':'] + (" " + Render(TexArray)))
  {
    TexArrayText();
  }

  lemma ArgS()
    ensures "s: sampler" == "s" + ([':'] + (" " + Render(Sampler)))
  {
    LeafText("sampler");
  }

  lemma ArgCoords()
    ensures "coords: vec2<f32>" == "coords" + ([':'] + (" " + Render(Vec2F32)))
  {
    VecText(Vec2F32, '2');
  }

  lemma ArgIndex()
    ensures "array_index: A" == "array_index" + ([':'] + (" " + Render(TypeA)))
  {
    LeafText("A");
  }

  lemma ArgLevel()
    ensures "level: f32" == "level" + ([':'] + (" " + Render(F32)))
  {
    LeafText("f32");
  }

  lemma OutText(e: seq<char>)
    ensures ") -> vec4<f32>" + e == OutTail(e)
  {
    VecText(Vec4F32, '4');
  }

  lemma FnText(x: seq<char>)
    ensures "fn textureSampleLevel(" + x == "fn" + (" " + ("textureSampleLevel" + (['('] + x)))
  {
  }

  lemma TestArgsShape()
    ensures TestArgs == [("t", TexArray)] + ([("s", Sampler)] + ([("coords", Vec2F32)] + ([("array_index", TypeA)] + ([("level", F32)] + []))))
  {
  }

  /** The arguments of the test, as `ArgList` writes them. */
  lemma TestArgList(e: seq<char>)
    ensures FnDecls.ArgList(TestArgs, Nl28, OutTail(e))
      == "t: texture_2d_array<f32>" + ("," + (Nl28 + ("s: sampler" + ("," + (Nl28 + ("coords: vec2<f32>" + ("," + (Nl28
           + ("array_index: A" + ("," + (Nl28 + ("level: f32" + OutTail(e)))))))))))))
  {
    var r := OutTail(e);
    ArgT(); ArgS(); ArgCoords(); ArgIndex(); ArgLevel();
    var x5 := "," + (Nl28 + ("level: f32" + r));
    ArgsTextCons("level", F32, "level: f32", Nl28, [], r, r);
    var x4 := "," + (Nl28 + ("array_index: A" + x5));
    ArgsTextCons("array_index", TypeA, "array_index: A", Nl28, [("level", F32)] + [], r, x5);
    var x3 := "," + (Nl28 + ("coords: vec2<f32>" + x4));
    ArgsTextCons("coords", Vec2F32, "coords: vec2<f32>", Nl28, [("array_index", TypeA)] + ([("level", F32)] + []), r, x4);
    var x2 := "," + (Nl28 + ("s: sampler" + x3));
    ArgsTextCons("s", Sampler, "s: sampler", Nl28, [("coords", Vec2F32)] + ([("array_index", TypeA)] + ([("level", F32)] + [])), r, x3);
    TestArgsShape();
    ArgListCons("t", TexArray, "t: texture_2d_array<f32>", Nl28,
                [("s", Sampler)] + ([("coords", Vec2F32)] + ([("array_index", TypeA)] + ([("level", F32)] + []))), r, x2);
  }

  /** The signature of the test is the declaration `fn`, its name, and its
      arguments and output as `FnDecls` reads them. */
  lemma SignatureShape(e: seq<char>)
    ensures SignatureThen(e) == "fn" + (" " + ("textureSampleLevel" + (['('] + FnDecls.ArgList(TestArgs, Nl28, OutTail(e)))))
  {
    TestArgList(e);
    OutText(e);
    FnText(FnDecls.ArgList(TestArgs, Nl28, OutTail(e)));
  }

  lemma TestArgsWellFormed()
    ensures FnDecls.ArgsWellFormed(TestArgs)
  {
    LeavesWellFormed();
    VectorsWellFormed();
  }

  lemma Nl28Blank()
    ensures forall i :: 0 <= i < |Nl28| ==> IsWhitespace(Nl28[i])
  {
  }

  lemma OutReads(rest: seq<char>)
    ensures WellFormed(Vec4F32) && ParseTy(Render(Vec4F32) + rest) == Ok(rest, Vec4F32)
  {
    VectorsWellFormed();
    ParseRenderBracketed(Vec4F32, rest);
  }

  /** A declaration written out with `ArgList` reads back. */
  lemma DeclText(t: seq<char>, n: seq<char>, as_: seq<(Idents.Ident, Ty)>, w: seq<char>, out: Ty, rest: seq<char>)
    requires t == "fn" + (" " + (n + (['('] + FnDecls.ArgList(as_, w, [')'] + (" " + ("->" + (" " + (Render(out) + rest))))))))
    requires IsIdent(n) && as_ != [] && FnDecls.ArgsWellFormed(as_) && WellFormed(out)
    requires forall i :: 0 <= i < |w| ==> IsWhitespace(w[i])
    requires ParseTy(Render(out) + rest) == Ok(rest, out)
    ensures FnDecls.Parse(t) == Ok(rest, FnDecls.FnDecl(n, as_, out))
  {
    FnDecls.DeclOf(n, as_, w, out, rest);
  }

  /** overload_row.rs, the second test: the signature reads as the
      declaration the test expects, whatever follows its `</xmp>`. */
  lemma ParseTestDecl(e: seq<char>)
    ensures FnDecls.Parse(SignatureThen("</xmp>" + e)) == Ok("</xmp>" + e, TestDecl)
  {
    SignatureShape("</xmp>" + e);
    TestArgsWellFormed();
    OutReads("</xmp>" + e);
    Nl28Blank();
    NameOfTest();
    DeclText(SignatureThen("</xmp>" + e), "textureSampleLevel", TestArgs, Nl28, Vec4F32, "</xmp>" + e);
  }

  lemma NameOfTest()
    ensures IsIdent("textureSampleLevel")
  {
  }

  /** The signature cell with no blanks around its tags but the indentation
      before `fn`. */
  lemma DeclCellAt(w3: seq<char>, t: seq<char>, rest: seq<char>, d: FnDecls.FnDecl)
    requires Blank(w3) && |t| > 0 && !IsWhitespace(t[0]) && FnDecls.Parse(t) == Ok("</xmp>" + rest, d)
    ensures DeclCell("<td>" + ("<xmp highlight=rust>" + (w3 + t))) == Ok(rest, d)
  {
    var x := "<xmp highlight=rust>" + (w3 + t);
    TdBare(w3, t);
    XmpBare(w3, t);
    EndBare(rest);
    DeclCellStep("<td>" + x, x, t, "</xmp>" + rest, d, rest);
  }

  lemma TdBare(w3: seq<char>, t: seq<char>)
    ensures var x := "<xmp highlight=rust>" + (w3 + t); Opening("<td>", "<td>" + x) == Ok(x, ())
  {
    var x := "<xmp highlight=rust>" + (w3 + t);
    assert x[..4] == "<xmp";
    TdOf([], [], x);
    assert [] + ("<td>" + ([] + x)) == "<td>" + x;
  }

  lemma XmpBare(w3: seq<char>, t: seq<char>)
    requires Blank(w3) && |t| > 0 && !IsWhitespace(t[0])
    ensures Opening("<xmp highlight=rust>", "<xmp highlight=rust>" + (w3 + t)) == Ok(t, ())
  {
    XmpOf(w3, t, []);
    assert t + [] == t;
  }

  lemma EndBare(rest: seq<char>)
    ensures SkipWs("</xmp>" + rest) == "</xmp>" + rest
  {
    DeclEnd([], [], rest);
    assert [] + ("</xmp>" + rest) == "</xmp>" + rest;
  }

  // The whole row of the second test

  /** The signature cell of the test, after its `<td>`, for any text `e`
      after the closing `</xmp>`. */
  function CellWith(e: seq<char>): seq<char>
  {
    "<xmp highlight=rust>" + (Indent + SignatureThen("</xmp>" + e))
  }

  /** The row of the test, over any three lines of prose and any text after
      it. */
  function RowWith(l1: seq<char>, l2: seq<char>, l3: seq<char>, e: seq<char>): seq<char>
  {
    "<tr algorithm=\"" + (Label + ("\">" + (Nl4 + ("<td>" + FromA(l1, l2, l3, CellWith(e))))))
  }

  lemma LabelFacts()
    ensures NoQuote(Label)
  {
  }

  lemma SignatureStart(e: seq<char>)
    ensures |SignatureThen(e)| > 0 && SignatureThen(e)[0] == 'f' && !IsWhitespace(SignatureThen(e)[0])
  {
  }

  lemma FromAStart(l1: seq<char>, l2: seq<char>, l3: seq<char>, m: seq<char>)
    ensures |FromA(l1, l2, l3, m)| > 0 && !IsWhitespace(FromA(l1, l2, l3, m)[0])
  {
    LinesStart();
    VarStart(LineA);
  }

  /** The signature cell reads as the declaration the test expects. */
  lemma TestCell(e: seq<char>)
    ensures DeclCell("<td>" + CellWith(e)) == Ok(e, TestDecl)
  {
    ParseTestDecl(e);
    SignatureStart("</xmp>" + e);
    IndentBlank();
    DeclCellAt(Indent, SignatureThen("</xmp>" + e), e, TestDecl);
  }

  lemma IndentBlank()
    ensures Blank(Indent)
  {
    BlankTexts();
  }

  /** A row whose bounds cell opens right after its `<td>`. */
  lemma RowAt(a: seq<char>, w: seq<char>, q: seq<char>, c: seq<char>, rest: seq<char>, ps: seq<Bound>, d: FnDecls.FnDecl)
    requires NoQuote(a) && Blank(w) && |q| > 0 && !IsWhitespace(q[0])
    requires ParseParametrization(q) == Ok(c, ps) && DeclCell(c) == Ok(rest, d)
    ensures ParseRow("<tr algorithm=\"" + (a + ("\">" + (w + ("<td>" + q))))) == Ok(rest, OverloadRow(a, ps, d))
  {
    var y := w + ("<td>" + q);
    LabelOf(a, y);
    TdOpen(w, q);
    ParamsCellStep(y, q, c, ps);
    RowStep("<tr algorithm=\"" + (a + ("\">" + y)), y, a, c, ps, rest, d);
  }

  lemma TdOpen(w: seq<char>, q: seq<char>)
    requires Blank(w) && |q| > 0 && !IsWhitespace(q[0])
    ensures Opening("<td>", w + ("<td>" + q)) == Ok(q, ())
  {
    assert Blank([]);
    OpeningOf("<td>", w, [], q);
    assert [] + q == q;
  }

  /** The row reads as its label, its four bounds in order and its
      declaration, for any three lines of prose. */
  lemma ParseRowWith(l1: seq<char>, l2: seq<char>, l3: seq<char>, e: seq<char>)
    requires Line(l1) && Line(l2) && Line(l3) && l1[0] != 'i'
    ensures ParseRow(RowWith(l1, l2, l3, e)) == Ok(e, OverloadRow(Label, BoundsOf(l1, l2, l3), TestDecl))
  {
    ParamsOf(l1, l2, l3, CellWith(e));
    TestCell(e);
    LabelFacts();
    BlankTexts();
    FromAStart(l1, l2, l3, CellWith(e));
    RowAt(Label, Nl4, FromA(l1, l2, l3, CellWith(e)), "<td>" + CellWith(e), e, BoundsOf(l1, l2, l3), TestDecl);
  }

  /** The test's row is the generic row over the three lines of the prose. */
  lemma TestRowIs()
    ensures TestRow() == RowWith(Line1, Line2, Line3, [])
  {
    assert "</xmp>" + [] == "</xmp>";
  }

  /** overload_row.rs, the second test: the row of `textureSampleLevel 2d
      array` reads whole, as its label, the unions on `A`, `X` and `Y`, the
      prose bound on `CF`, and the declaration of its signature. */
  lemma ParseTestRow()
    ensures ParseRow(TestRow())
      == Ok([], OverloadRow("textureSampleLevel 2d array",
                            [Bound("A", Union(UnionBound([I32, U32]))),
                             Bound("X", Union(UnionBound([I32, U32]))),
                             Bound("Y", Union(UnionBound([I32, U32, F32]))),
                             Bound("CF", Prose(Joined))],
                            TestDecl))
  {
    LinesOfProse();
    ParseRowWith(Line1, Line2, Line3, []);
    TestRowIs();
  }
}
