/** Texture type names (src/wgsl/texture.rs): `texture`, optional flag
    segments in a fixed order, a mandatory dimensionality, optional `_array`. */
module Texture {
  import opened Prelude

  datatype TextureName = TextureName(
    depth: bool,
    storage: bool,
    arrayed: bool,   // `array` in the source (a Dafny keyword)
    multisampled: bool,
    external: bool,
    dimensionality: seq<char>)

  /** The dimensionality tokens the grammar accepts. */
  predicate ValidDim(d: seq<char>)
  {
    d == "1d" || d == "2d" || d == "3d" || d == "cube"
  }

  /** `x` when `b` holds, nothing otherwise. */
  function Flag(b: bool, x: seq<char>): seq<char>
  {
    if b then x else []
  }

  /** The text that parses to `t`, followed by `rest`: each present segment
      in the order the parser tries them (external, depth, storage,
      multisampled), the dimensionality, then `_array`. */
  function SpelledThen(t: TextureName, rest: seq<char>): seq<char>
  {
    "texture" + (Flag(t.external, "_external") + (Flag(t.depth, "_depth")
    + (Flag(t.storage, "_storage") + (Flag(t.multisampled, "_multisampled")
    + ("_" + (t.dimensionality + (Flag(t.arrayed, "_array") + rest)))))))
  }

  function Spelling(t: TextureName): seq<char>
  {
    SpelledThen(t, [])
  }

  lemma AppendAssoc(a: seq<char>, b: seq<char>, c: seq<char>)
    ensures (a + b) + c == a + (b + c)
  {
  }

  lemma SpelledThenIs(t: TextureName, rest: seq<char>)
    ensures SpelledThen(t, rest) == Spelling(t) + rest
  {
    var f := Flag(t.arrayed, "_array");
    var x5 := t.dimensionality + f;
    var x4 := "_" + x5;
    var x3 := Flag(t.multisampled, "_multisampled") + x4;
    var x2 := Flag(t.storage, "_storage") + x3;
    var x1 := Flag(t.depth, "_depth") + x2;
    var x0 := Flag(t.external, "_external") + x1;
    assert f + [] == f;
    assert Spelling(t) == "texture" + x0;
    AppendAssoc(t.dimensionality, f, rest);
    AppendAssoc("_", x5, rest);
    AppendAssoc(Flag(t.multisampled, "_multisampled"), x4, rest);
    AppendAssoc(Flag(t.storage, "_storage"), x3, rest);
    AppendAssoc(Flag(t.depth, "_depth"), x2, rest);
    AppendAssoc(Flag(t.external, "_external"), x1, rest);
    AppendAssoc("texture", x0, rest);
  }

  /** `opt_attrib(att)`: `map(opt(tag(att)), is_some)`; never fails. */
  function OptAttrib(att: seq<char>, s: seq<char>): (r: (bool, seq<char>))
    ensures r.0 <==> att <= s
    ensures Flag(r.0, att) + r.1 == s
  {
    if att <= s then
      assert att == s[..|att|];
      assert s[..|att|] + s[|att|..] == s;
      (true, s[|att|..])
    else
      assert Flag(false, att) + s == s;
      (false, s)
  }

  /** `preceded(tag("_"), alt((tag("1d"), tag("2d"), tag("3d"), tag("cube"))))`. */
  function Dims(s: seq<char>): (r: Res<seq<char>>)
    ensures !r.Failure?
    ensures r.Ok? ==> ValidDim(r.value) && "_" + (r.value + r.rest) == s
  {
    if "_" <= s then
      assert s == "_" + s[1..];
      DimAfter(s[1..])
    else Error
  }

  /** The `alt` of the four dimensionalities, in that order. */
  function DimAfter(t: seq<char>): (r: Res<seq<char>>)
    ensures !r.Failure?
    ensures r.Ok? ==> ValidDim(r.value) && r.value + r.rest == t
  {
    if "1d" <= t then DimTag("1d", t)
    else if "2d" <= t then DimTag("2d", t)
    else if "3d" <= t then DimTag("3d", t)
    else if "cube" <= t then DimTag("cube", t)
    else Error
  }

  function DimTag(d: seq<char>, t: seq<char>): (r: Res<seq<char>>)
    requires ValidDim(d) && d <= t
    ensures r.Ok? && r.value == d && d + r.rest == t
  {
    assert t == t[..|d|] + t[|d|..];
    Ok(t[|d|..], d)
  }

  lemma DimsOf(d: seq<char>, rest: seq<char>)
    requires ValidDim(d)
    ensures Dims("_" + (d + rest)) == Ok(rest, d)
  {
    var s := "_" + (d + rest);
    assert "_" <= s && s[1..] == d + rest;
    if d == "1d" {
      assert "1d" <= d + rest && (d + rest)[2..] == rest;
    } else if d == "2d" {
      assert "2d" <= d + rest && (d + rest)[2..] == rest;
    } else if d == "3d" {
      assert "3d" <= d + rest && (d + rest)[2..] == rest;
    } else {
      assert (d + rest)[0] == 'c';
      assert "cube" <= d + rest && (d + rest)[4..] == rest;
    }
  }

  /** `TextureName::parse`. Succeeds only on inputs that start with the
      spelling of the result, which no longer segment can extend. */
  function Parse(s: seq<char>): (r: Res<TextureName>)
    ensures !r.Failure?
    ensures r.Ok? ==> Spelling(r.value) + r.rest == s && ValidDim(r.value.dimensionality)
    ensures r.Ok? ==> r.value.arrayed || !("_array" <= r.rest)
  {
    if !("texture" <= s) then Error
    else
      var s0 := s[7..];
      assert s == "texture" + s0;
      var e := OptAttrib("_external", s0);
      var d := OptAttrib("_depth", e.1);
      var st := OptAttrib("_storage", d.1);
      var ms := OptAttrib("_multisampled", st.1);
      match Dims(ms.1)
      case Ok(s5, dim) =>
        var a := OptAttrib("_array", s5);
        var t := TextureName(d.0, st.0, a.0, ms.0, e.0, dim);
        assert SpelledThen(t, a.1) == s;
        SpelledThenIs(t, a.1);
        Ok(a.1, t)
      case _ => Error
  }

  /** The character after the leading `_` of each segment tells the segments
      apart, so an absent flag's tag never matches the next segment. */
  lemma NoTag(att: seq<char>, s: seq<char>)
    requires |att| >= 2 && |s| >= 2 && s[1] != att[1]
    ensures OptAttrib(att, s) == (false, s)
  {
  }

  lemma Tagged(att: seq<char>, s: seq<char>)
    ensures OptAttrib(att, att + s) == (true, s)
  {
    assert att <= att + s;
    assert (att + s)[|att|..] == s;
  }

  lemma FlagSecond(b: bool, att: seq<char>, s: seq<char>)
    requires |att| >= 2 && |s| >= 2
    ensures |Flag(b, att) + s| >= 2 && (Flag(b, att) + s)[1] == (if b then att[1] else s[1])
  {
  }

  lemma OptAttribOf(b: bool, att: seq<char>, s: seq<char>)
    requires |att| >= 2 && (b || (|s| >= 2 && s[1] != att[1]))
    ensures OptAttrib(att, Flag(b, att) + s) == (b, s)
  {
    if b { Tagged(att, s); } else { assert Flag(b, att) + s == s; NoTag(att, s); }
  }

  /** Completeness: the spelling of any name with a valid dimensionality
      parses back to it, provided what follows cannot extend it. */
  lemma {:induction false} ParseSpelling(t: TextureName, rest: seq<char>)
    requires ValidDim(t.dimensionality)
    requires t.arrayed || !("_array" <= rest)
    ensures Parse(Spelling(t) + rest) == Ok(rest, t)
  {
    var e, a := TailStages(t, rest);
    var s0, b, c, d := HeadStages(t, e);
    SpelledFrom(t, rest, e, s0);
    ParseStages(Spelling(t) + rest, s0, b, c, d, e, a, rest, t);
  }

  /** The dimensionality and `_array` stages of `Parse` on a spelling. */
  lemma TailStages(t: TextureName, rest: seq<char>) returns (e: seq<char>, a: seq<char>)
    requires ValidDim(t.dimensionality)
    requires t.arrayed || !("_array" <= rest)
    ensures e == "_" + (t.dimensionality + (Flag(t.arrayed, "_array") + rest))
    ensures |e| >= 2 && e[1] != 'm' && e[1] != 's' && e[1] != 'd' && e[1] != 'e'
    ensures Dims(e) == Ok(a, t.dimensionality)
    ensures OptAttrib("_array", a) == (t.arrayed, rest)
  {
    a := Flag(t.arrayed, "_array") + rest;
    e := "_" + (t.dimensionality + a);
    var dch := t.dimensionality[0];
    assert dch == '1' || dch == '2' || dch == '3' || dch == 'c';
    assert e[1] == dch;
    DimsOf(t.dimensionality, a);
    if t.arrayed { Tagged("_array", rest); } else { assert a == rest; }
  }

  /** The four flag stages of `Parse`, ahead of a segment whose second
      character none of their tags has. */
  lemma HeadStages(t: TextureName, e: seq<char>) returns (s0: seq<char>, b: seq<char>, c: seq<char>, d: seq<char>)
    requires |e| >= 2 && e[1] != 'm' && e[1] != 's' && e[1] != 'd' && e[1] != 'e'
    ensures s0 == Flag(t.external, "_external") + (Flag(t.depth, "_depth")
      + (Flag(t.storage, "_storage") + (Flag(t.multisampled, "_multisampled") + e)))
    ensures OptAttrib("_external", s0) == (t.external, b)
    ensures OptAttrib("_depth", b) == (t.depth, c)
    ensures OptAttrib("_storage", c) == (t.storage, d)
    ensures OptAttrib("_multisampled", d) == (t.multisampled, e)
  {
    d := Flag(t.multisampled, "_multisampled") + e;
    FlagSecond(t.multisampled, "_multisampled", e);
    c := Flag(t.storage, "_storage") + d;
    FlagSecond(t.storage, "_storage", d);
    b := Flag(t.depth, "_depth") + c;
    FlagSecond(t.depth, "_depth", c);
    s0 := Flag(t.external, "_external") + b;
    OptAttribOf(t.external, "_external", b);
    OptAttribOf(t.depth, "_depth", c);
    OptAttribOf(t.storage, "_storage", d);
    OptAttribOf(t.multisampled, "_multisampled", e);
  }

  /** A spelling followed by `rest` is `texture` then the flag segments. */
  lemma SpelledFrom(t: TextureName, rest: seq<char>, e: seq<char>, s0: seq<char>)
    requires e == "_" + (t.dimensionality + (Flag(t.arrayed, "_array") + rest))
    requires s0 == Flag(t.external, "_external") + (Flag(t.depth, "_depth")
      + (Flag(t.storage, "_storage") + (Flag(t.multisampled, "_multisampled") + e)))
    ensures "texture" <= Spelling(t) + rest && (Spelling(t) + rest)[7..] == s0
  {
    SpelledThenIs(t, rest);
    assert Spelling(t) + rest == "texture" + s0;
  }

  /** `Parse` as its sequence of stages, each given by its result. */
  lemma ParseStages(s: seq<char>, s0: seq<char>, b: seq<char>, c: seq<char>, d: seq<char>,
                    e: seq<char>, a: seq<char>, rest: seq<char>, t: TextureName)
    requires "texture" <= s && s[7..] == s0
    requires OptAttrib("_external", s0) == (t.external, b)
    requires OptAttrib("_depth", b) == (t.depth, c)
    requires OptAttrib("_storage", c) == (t.storage, d)
    requires OptAttrib("_multisampled", d) == (t.multisampled, e)
    requires Dims(e) == Ok(a, t.dimensionality)
    requires OptAttrib("_array", a) == (t.arrayed, rest)
    ensures Parse(s) == Ok(rest, t)
  {
  }

  /** `Display for TextureName`: `texture`, `_depth`?, `_storage`?, `_<dim>`,
      `_array`?, `_external`?; the multisampled flag is never written. */
  function Render(t: TextureName): (r: seq<char>)
    ensures !t.external && !t.multisampled ==> r == Spelling(t)
  {
    "texture" + Flag(t.depth, "_depth") + Flag(t.storage, "_storage")
    + "_" + t.dimensionality + Flag(t.arrayed, "_array") + Flag(t.external, "_external")
  }

  /** Rendering loses the multisampled flag. */
  lemma RenderDropsMultisampled(t: TextureName)
    ensures Render(t) == Render(t.(multisampled := false))
  {
  }

  /** A name survives rendering and re-parsing when it is neither external
      nor multisampled and its dimensionality is valid. */
  predicate RoundTrips(t: TextureName)
  {
    ValidDim(t.dimensionality) && !t.external && !t.multisampled
  }

  lemma RenderRoundTrip(t: TextureName, rest: seq<char>)
    requires RoundTrips(t)
    requires t.arrayed || !("_array" <= rest)
    ensures Parse(Render(t) + rest) == Ok(rest, t)
  {
    ParseSpelling(t, rest);
  }

  /** Rendering then parsing an external name yields a name that is not
      external: the trailing `_external` is left unconsumed. */
  lemma {:induction false} ExternalDoesNotRoundTrip(t: TextureName)
    requires ValidDim(t.dimensionality) && t.external && !t.multisampled && !t.arrayed
    ensures Parse(Render(t)) == Ok("_external", t.(external := false))
  {
    var u := t.(external := false);
    assert Render(t) == Spelling(u) + "_external";
    assert "_external"[1] != "_array"[1];
    ParseSpelling(u, "_external");
  }

  /** The unit test's names parse completely, with the expected flags. */
  lemma ParseTestArray()
    ensures Parse("texture_2d_array") == Ok("", TextureName(false, false, true, false, false, "2d"))
  {
    var t := TextureName(false, false, true, false, false, "2d");
    assert Spelling(t) + "" == "texture_2d_array";
    ParseSpelling(t, "");
  }

  lemma ParseTestDepthArray()
    ensures Parse("texture_depth_2d_array") == Ok("", TextureName(true, false, true, false, false, "2d"))
  {
    var t := TextureName(true, false, true, false, false, "2d");
    assert Spelling(t) + "" == "texture_depth_2d_array";
    ParseSpelling(t, "");
  }

  lemma ParseTestCube()
    ensures Parse("texture_cube") == Ok("", TextureName(false, false, false, false, false, "cube"))
  {
    var t := TextureName(false, false, false, false, false, "cube");
    assert Spelling(t) + "" == "texture_cube";
    ParseSpelling(t, "");
  }

  /** `Parse` fails when the text after the flag stages is no dimensionality. */
  lemma ParseStagesError(s: seq<char>, s0: seq<char>, b: seq<char>, c: seq<char>, d: seq<char>, e: seq<char>)
    requires "texture" <= s && s[7..] == s0
    requires OptAttrib("_external", s0).1 == b
    requires OptAttrib("_depth", b).1 == c
    requires OptAttrib("_storage", c).1 == d
    requires OptAttrib("_multisampled", d).1 == e
    requires Dims(e).Error?
    ensures Parse(s).Error?
  {
  }

  /** `texture_external` has no dimensionality, so it is not a texture name. */
  lemma ParseRejectsExternal()
    ensures Parse("texture_external").Error?
  {
    var s := "texture_external";
    assert s[7..] == "_external" + [];
    Tagged("_external", []);
    assert !("_" <= []);
    ParseStagesError(s, s[7..], [], [], [], []);
  }

  /** Flags out of order: `_storage` before `_depth` leaves `_depth_2d`,
      which is no dimensionality. */
  lemma ParseRejectsOutOfOrder()
    ensures Parse("texture_storage_depth_2d").Error?
  {
    var u := "texture_storage_depth_2d";
    var v := "_depth_2d";
    OutOfOrderText();
    OutOfOrderStages(u[7..], v);
    ParseStagesError(u, u[7..], u[7..], u[7..], v, v);
  }

  lemma OutOfOrderText()
    ensures "texture" <= "texture_storage_depth_2d"
    ensures "texture_storage_depth_2d"[7..] == "_storage" + "_depth_2d"
  {
  }

  /** `_storage_depth_2d`: only `_storage` is read, then `_depth_2d` is no
      dimensionality. */
  lemma OutOfOrderStages(s0: seq<char>, v: seq<char>)
    requires v == "_depth_2d" && s0 == "_storage" + v
    ensures OptAttrib("_external", s0).1 == s0
    ensures OptAttrib("_depth", s0).1 == s0
    ensures OptAttrib("_storage", s0).1 == v
    ensures OptAttrib("_multisampled", v).1 == v
    ensures Dims(v).Error?
  {
    assert |s0| >= 2 && s0[1] == 's';
    NoTag("_external", s0);
    NoTag("_depth", s0);
    Tagged("_storage", v);
    assert |v| >= 2 && v[1] == 'd';
    NoTag("_multisampled", v);
    DimsRejectsLetter(v);
  }

  /** A dimensionality never starts with `d`. */
  lemma DimsRejectsLetter(v: seq<char>)
    requires |v| >= 2 && v[1] == 'd'
    ensures Dims(v).Error?
  {
    var t := v[1..];
    assert t[0] == 'd';
    assert !("1d" <= t) && !("2d" <= t) && !("3d" <= t) && !("cube" <= t);
  }

  /** Every segment starts with `_`, so a name needs `texture_` at least. */
  lemma ParseNeedsSegment(s: seq<char>)
    requires !("texture_" <= s)
    ensures Parse(s).Error?
  {
    if "texture" <= s {
      var s0 := s[7..];
      assert s0 == [] || s0[0] != '_';
      assert OptAttrib("_external", s0).1 == s0;
      assert OptAttrib("_depth", s0).1 == s0;
      assert OptAttrib("_storage", s0).1 == s0;
      assert OptAttrib("_multisampled", s0).1 == s0;
      ParseStagesError(s, s0, s0, s0, s0, s0);
    }
  }
}
