/** Type expressions (src/wgsl/ty.rs): a kind (`void`, `vecN`, `matCxR`, a
    texture name or an identifier) followed by optional `<…>` parameters. */
module Types {
  import opened Prelude
  import Idents
  import Tex = Texture

  datatype TyKind =
    | Void
    | Vector(c: char)
    | Matrix(cols: char, rows: char)
    | Texture(name: Tex.TextureName)
    | Named(ident: Idents.Ident)

  datatype Ty = Ty(kind: TyKind, params: seq<Ty>)

  /** `Display for TyKind`. */
  function RenderKind(k: TyKind): seq<char>
  {
    match k
    case Void => "void"
    case Vector(x) => "vec" + [x]
    case Matrix(x, y) => "mat" + [x] + "x" + [y]
    case Texture(t) => Tex.Render(t)
    case Named(x) => x
  }

  /** `TyKind::parse`: the first of `void`; `vec` and any character;
      `mat`, a character, `x`, a character; a texture name; an identifier.
      After `vec` or `mat` the parse is committed. */
  function ParseKind(s: seq<char>): (r: Res<TyKind>)
    ensures Advances(r, s)
    ensures r.Error? <==> s == [] || !IsIdentStart(s[0])
    ensures r.Failure? <==> ("vec" <= s && |s| == 3) || ("mat" <= s && !(|s| >= 6 && s[4] == 'x'))
    ensures r.Ok? && !r.value.Texture? ==> RenderKind(r.value) + r.rest == s
    ensures r.Ok? && r.value.Texture? ==> Tex.Spelling(r.value.name) + r.rest == s
  {
    if "void" <= s then
      assert s == "void" + s[4..];
      SuffixOfConcat("void", s[4..]);
      Ok(s[4..], Void)
    else if "vec" <= s then
      if |s| > 3 then
        assert s == "vec" + [s[3]] + s[4..];
        SuffixOfConcat(s[..4], s[4..]);
        Ok(s[4..], Vector(s[3]))
      else Failure
    else if "mat" <= s then
      if |s| >= 6 && s[4] == 'x' then
        assert s == "mat" + [s[3]] + "x" + [s[5]] + s[6..];
        SuffixOfConcat(s[..6], s[6..]);
        Ok(s[6..], Matrix(s[3], s[5]))
      else Failure
    else
      match Tex.Parse(s)
      case Ok(rest, t) =>
        SuffixOfConcat(Tex.Spelling(t), rest);
        assert s[0] == 't';
        Ok(rest, Texture(t))
      case _ =>
        match Idents.Parse(s)
        case Ok(rest, x) =>
          SuffixOfConcat(x, rest);
          Ok(rest, Named(x))
        case _ => Error
  }

  /** `Ty::parse`: a kind, then `opt(delimited(<, list, >))` with whitespace
      allowed before each token; missing brackets mean no parameters. */
  function ParseTy(s: seq<char>): (r: Res<Ty>)
    decreases |s|, 1
    ensures Advances(r, s)
    ensures r.Error? <==> s == [] || !IsIdentStart(s[0])
  {
    match ParseKind(s)
    case Error => Error
    case Failure => Failure
    case Ok(r1, k) =>
      match ParseBrackets(r1)
      case Ok(r2, ps) =>
        SuffixTrans(r2, r1, s);
        Ok(r2, Ty(k, ps))
      case Error => Error
      case Failure => Failure
  }

  /** The optional `<…>` after a kind. Without an opening `<`, or without a
      closing `>` after the list, the option is empty and nothing is
      consumed; a committed failure inside the list propagates. */
  function ParseBrackets(s: seq<char>): (r: Res<seq<Ty>>)
    decreases |s|, 3
    ensures !r.Error?
    ensures Consumes(r, s)
  {
    var u := SkipWs(s);
    if !("<" <= u) then Ok(s, [])
    else
      SuffixTrans(u[1..], u, s);
      var v := SkipWs(u[1..]);
      SuffixTrans(v, u[1..], s);
      match ParseList(v)
      case Failure => Failure
      case Error => Ok(s, [])
      case Ok(r, ps) =>
        var w := SkipWs(r);
        if ">" <= w then
          SuffixTrans(w, r, v);
          SuffixTrans(w[1..], w, v);
          SuffixTrans(w[1..], v, s);
          Ok(w[1..], ps)
        else Ok(s, [])
  }

  /** `separated_list0(ws0_then(tag(",")), ws0_then(Ty::parse))`: an element
      that fails with `Error` ends the list, before its separator. */
  function ParseList(s: seq<char>): (r: Res<seq<Ty>>)
    decreases |s|, 2
    ensures !r.Error?
    ensures Consumes(r, s)
  {
    var v := SkipWs(s);
    match ParseTy(v)
    case Error => Ok(s, [])
    case Failure => Failure
    case Ok(r1, t) =>
      SuffixTrans(r1, v, s);
      match ParseMore(r1)
      case Ok(r2, ts) =>
        SuffixTrans(r2, r1, s);
        Ok(r2, [t] + ts)
      case Error => Error
      case Failure => Failure
  }

  /** The separator-then-element repetitions of the list. */
  function ParseMore(s: seq<char>): (r: Res<seq<Ty>>)
    decreases |s|, 2
    ensures !r.Error?
    ensures Consumes(r, s)
  {
    var u := SkipWs(s);
    if !("," <= u) then Ok(s, [])
    else
      SuffixTrans(u[1..], u, s);
      var v := SkipWs(u[1..]);
      SuffixTrans(v, u[1..], s);
      match ParseTy(v)
      case Error => Ok(s, [])
      case Failure => Failure
      case Ok(r1, t) =>
        SuffixTrans(r1, v, s);
        match ParseMore(r1)
        case Ok(r2, ts) =>
          SuffixTrans(r2, r1, s);
          Ok(r2, [t] + ts)
        case Error => Error
        case Failure => Failure
  }

  /** `Display for Ty`: the kind, then `<p1, p2, …>` only when there are
      parameters. */
  function Render(t: Ty): seq<char>
    decreases t, 1
  {
    RenderKind(t.kind) + Brackets(t)
  }

  function Brackets(t: Ty): seq<char>
    decreases t, 0
  {
    if t.params == [] then [] else "<" + (RenderList(t, 0) + ">")
  }

  /** The parameters of `t` from index `i` on, separated by `, `. */
  function RenderList(t: Ty, i: nat): seq<char>
    requires i < |t.params|
    decreases t, 0, |t.params| - i
  {
    Render(t.params[i]) + (if i + 1 == |t.params| then [] else ", " + RenderList(t, i + 1))
  }

  /** What is left to write of the parameter list once `i` parameters and
      their separators are written. */
  function ListFrom(t: Ty, i: nat): seq<char>
    requires i <= |t.params|
  {
    if i == |t.params| then [] else RenderList(t, i)
  }

  /** `Display for Ty`, writing into `out`: the kind, then, when there are
      parameters, `<`, each parameter followed by `, ` unless it is the last
      one (the `enumerate` loop), and `>`. */
  method Write(t: Ty) returns (out: seq<char>)
    ensures out == Render(t)
    decreases t
  {
    out := RenderKind(t.kind);
    if |t.params| != 0 {
      out := out + "<";
      var i := 0;
      while i < |t.params|
        invariant 0 <= i <= |t.params|
        invariant out + (ListFrom(t, i) + ">") == Render(t)
      {
        var ty := Write(t.params[i]);
        var comma := if i + 1 != |t.params| then ", " else "";
        assert ListFrom(t, i) == ty + (comma + ListFrom(t, i + 1));
        out := out + ty + comma;
        i := i + 1;
      }
      out := out + ">";
    }
  }

  /** `Ty::new`: the kind is parsed from `name`, which must be consumed
      entirely. The source panics otherwise (`expect` and `assert!`);
      here that is `None`. */
  function New(name: seq<char>, params: seq<Ty>): (r: Option<Ty>)
    ensures r.Some? ==> r.value.params == params
    ensures r.Some? && !r.value.kind.Texture? ==> RenderKind(r.value.kind) == name
    ensures r.Some? && r.value.kind.Texture? ==> Tex.Spelling(r.value.kind.name) == name
    ensures r.None? <==> !(ParseKind(name).Ok? && ParseKind(name).rest == [])
  {
    match ParseKind(name)
    case Ok(rest, k) =>
      if rest == [] then
        assert RenderKind(k) + [] == RenderKind(k);
        assert k.Texture? ==> Tex.Spelling(k.name) + [] == Tex.Spelling(k.name);
        Some(Ty(k, params))
      else None
    case _ => None
  }

  /** `Ty::flatten`: no type means `void`, built as `make_ty!(void)` builds it. */
  function Flatten(o: Option<Ty>): (r: Ty)
    ensures o.Some? ==> r == o.value
    ensures o.None? ==> New("void", []) == Some(r)
  {
    match o
    case Some(t) => t
    case None =>
      assert ParseKind("void") == Ok([], Void);
      Ty(Void, [])
  }

  /** `t` is `x` or a parameter, transitively, of `x`. */
  predicate Occurs(t: Ty, x: Ty)
    decreases x
  {
    x == t || exists i :: 0 <= i < |x.params| && Occurs(t, x.params[i])
  }

  /** `Ty::find`: `x` itself when it equals `t`, otherwise the first match
      among the parameters, each searched in turn (`find_map`). */
  function Find(x: Ty, t: Ty): (r: Option<Ty>)
    decreases x, 1
    ensures r.Some? <==> Occurs(t, x)
    ensures r.Some? ==> r.value == t
  {
    if x == t then Some(x) else FindIn(x, t, 0)
  }

  function FindIn(x: Ty, t: Ty, i: nat): (r: Option<Ty>)
    requires i <= |x.params|
    decreases x, 0, |x.params| - i
    ensures r.Some? <==> exists j :: i <= j < |x.params| && Occurs(t, x.params[j])
    ensures r.Some? ==> r.value == t
  {
    if i == |x.params| then None
    else
      match Find(x.params[i], t)
      case Some(y) => Some(y)
      case None => FindIn(x, t, i + 1)
  }

  /** A node's address: the parameter index taken at each level. */
  type Path = seq<nat>

  predicate ValidPath(x: Ty, p: Path)
    decreases p
  {
    p == [] || (p[0] < |x.params| && ValidPath(x.params[p[0]], p[1..]))
  }

  function At(x: Ty, p: Path): Ty
    requires ValidPath(x, p)
    decreases p
  {
    if p == [] then x else At(x.params[p[0]], p[1..])
  }

  /** `q` comes strictly before `p` in a left-to-right pre-order walk: it is
      an ancestor of `p`, or lies in an earlier sibling subtree. */
  predicate Before(q: Path, p: Path)
    decreases p
  {
    p != [] && (q == [] || q[0] < p[0] || (q[0] == p[0] && Before(q[1..], p[1..])))
  }

  /** `Ty::find_mut`, which hands out a mutable reference, as the address of
      the node it designates: the same search as `find`. */
  function FindMut(x: Ty, t: Ty): (r: Option<Path>)
    decreases x, 1
    ensures r.Some? <==> Occurs(t, x)
    ensures r.Some? ==> ValidPath(x, r.value) && At(x, r.value) == t
    ensures r.Some? && x == t ==> r.value == []
  {
    if x == t then Some([]) else FindMutIn(x, t, 0)
  }

  function FindMutIn(x: Ty, t: Ty, i: nat): (r: Option<Path>)
    requires i <= |x.params|
    decreases x, 0, |x.params| - i
    ensures r.Some? <==> exists j :: i <= j < |x.params| && Occurs(t, x.params[j])
    ensures r.Some? ==> r.value != [] && i <= r.value[0] < |x.params|
    ensures r.Some? ==> FindMut(x.params[r.value[0]], t) == Some(r.value[1..])
    ensures r.Some? ==> forall j :: i <= j < r.value[0] ==> !Occurs(t, x.params[j])
    ensures r.Some? ==> ValidPath(x, r.value) && At(x, r.value) == t
  {
    if i == |x.params| then None
    else
      match FindMut(x.params[i], t)
      case Some(p) =>
        assert ([i] + p)[1..] == p;
        Some([i] + p)
      case None => FindMutIn(x, t, i + 1)
  }

  /** `x` with the node at `p` overwritten by `v` (`*ty = v` through the
      reference `find_mut` returned). */
  function ReplaceAt(x: Ty, p: Path, v: Ty): (r: Ty)
    requires ValidPath(x, p)
    decreases p
    ensures ValidPath(r, p) && At(r, p) == v
    ensures p != [] ==> r.kind == x.kind && |r.params| == |x.params|
  {
    if p == [] then v
    else
      var i := p[0];
      Ty(x.kind, x.params[i := ReplaceAt(x.params[i], p[1..], v)])
  }

  /** `x.find_mut(t).map(|ty| *ty = v)`: the first match of `t` in `x`
      becomes `v`; `x` is unchanged when `t` does not occur. */
  function Replace(x: Ty, t: Ty, v: Ty): Ty
  {
    match FindMut(x, t)
    case Some(p) => ReplaceAt(x, p, v)
    case None => x
  }

  /** A node reached by a path occurs in the tree. */
  lemma {:induction false} OccursAt(x: Ty, q: Path)
    requires ValidPath(x, q)
    ensures Occurs(At(x, q), x)
    decreases q
  {
    if q != [] {
      OccursAt(x.params[q[0]], q[1..]);
      OccursTrans(At(x, q), x.params[q[0]], x, q[0]);
    }
  }

  lemma OccursTrans(t: Ty, y: Ty, x: Ty, i: nat)
    requires i < |x.params| && x.params[i] == y && Occurs(t, y)
    ensures Occurs(t, x)
  {
  }

  /** `find_mut` designates the first match in pre-order: no node equal to
      `t` comes before it. */
  lemma {:induction false} FindMutFirst(x: Ty, t: Ty, q: Path)
    requires ValidPath(x, q) && At(x, q) == t
    ensures FindMut(x, t).Some? && !Before(q, FindMut(x, t).value)
    decreases x
  {
    OccursAt(x, q);
    if x != t {
      var p := FindMut(x, t).value;
      assert p == FindMutIn(x, t, 0).value;
      assert q != [];
      if q[0] < p[0] {
        OccursAt(x.params[q[0]], q[1..]);
        assert false;
      } else if q[0] == p[0] {
        FindMutFirst(x.params[q[0]], t, q[1..]);
      }
    }
  }

  lemma PrefixTails(p: Path, q: Path)
    requires p != [] && q != [] && p[0] == q[0]
    ensures p[1..] <= q[1..] ==> p <= q
  {
    if p[1..] <= q[1..] {
      assert p == [p[0]] + p[1..];
      assert q[..|p|] == [q[0]] + q[1..][..|p| - 1];
    }
  }

  /** Overwriting one node leaves every node outside its subtree, and off
      the path to it, as it was. */
  lemma {:induction false} ReplaceAtElsewhere(x: Ty, p: Path, v: Ty, q: Path)
    requires ValidPath(x, p) && ValidPath(x, q)
    requires !(p <= q) && !(q <= p)
    ensures ValidPath(ReplaceAt(x, p, v), q) && At(ReplaceAt(x, p, v), q) == At(x, q)
    decreases p
  {
    var r := ReplaceAt(x, p, v);
    assert p != [] && q != [];
    if q[0] == p[0] {
      PrefixTails(p, q);
      PrefixTails(q, p);
      ReplaceAtElsewhere(x.params[p[0]], p[1..], v, q[1..]);
    }
  }

  /** Walking `p + r` is walking `p`, then `r` from the node reached. */
  lemma {:induction false} AtConcat(x: Ty, p: Path, r: Path)
    requires ValidPath(x, p + r)
    ensures ValidPath(x, p) && ValidPath(At(x, p), r) && At(x, p + r) == At(At(x, p), r)
    decreases p
  {
    if p == [] {
      assert p + r == r;
    } else {
      assert (p + r)[1..] == p[1..] + r;
      AtConcat(x.params[p[0]], p[1..], r);
    }
  }

  /** A leaf reached by a path has nothing below it: a longer valid path
      through it is the same path. */
  lemma LeafBelow(x: Ty, p: Path, q: Path)
    requires ValidPath(x, p) && ValidPath(x, q) && p <= q && At(x, p).params == []
    ensures q == p
  {
    var r := q[|p|..];
    assert q == p + r;
    AtConcat(x, p, r);
  }

  /** Overwriting the first match of a parameterless `t` keeps every other
      parameterless type that occurs: it is neither above nor below the
      overwritten node. */
  lemma ReplaceKeepsLeaf(x: Ty, t: Ty, v: Ty, s: Ty)
    requires t.params == [] && s.params == [] && s != t && Occurs(s, x)
    ensures Occurs(s, Replace(x, t, v))
  {
    if Occurs(t, x) {
      var p := FindMut(x, t).value;
      var q := FindMut(x, s).value;
      if p <= q {
        LeafBelow(x, p, q);
      } else if q <= p {
        LeafBelow(x, q, p);
      } else {
        ReplaceAtElsewhere(x, p, v, q);
        OccursAt(ReplaceAt(x, p, v), q);
      }
    }
  }

  /** An identifier that `ParseKind` reads back as `Named`: none of the
      earlier alternatives can claim it. */
  predicate NamedRoundTrips(x: seq<char>)
  {
    IsIdent(x) && !("void" <= x) && !("vec" <= x) && !("mat" <= x) && !("texture_" <= x)
  }

  predicate KindRoundTrips(k: TyKind)
  {
    match k
    case Texture(t) => Tex.RoundTrips(t)
    case Named(x) => NamedRoundTrips(x)
    case _ => true
  }

  /** Every kind in the tree renders to text that parses back to it. */
  predicate WellFormed(t: Ty)
    decreases t
  {
    KindRoundTrips(t.kind) && forall i :: 0 <= i < |t.params| ==> WellFormed(t.params[i])
  }

  /** What may follow a rendered type: nothing that extends the last
      identifier, and no `<` that would be read as a parameter list. */
  predicate Boundary(rest: seq<char>)
  {
    (rest == [] || !IsIdentChar(rest[0])) && !("<" <= SkipWs(rest))
  }

  lemma BoundaryOf(y: seq<char>)
    requires |y| > 0 && (y[0] == ',' || y[0] == '>')
    ensures Boundary(y) && SkipWs(y) == y
  {
    assert !IsWhitespace(y[0]);
    SkipWsNone(y);
    assert y[0] != '<';
    assert !IsIdentChar(y[0]);
  }

  /** A prefix made of identifier characters that `x` lacks cannot be
      completed by text that does not continue the identifier. */
  lemma NoPrefixAcross(p: seq<char>, x: seq<char>, y: seq<char>)
    requires forall i :: 0 <= i < |p| ==> IsIdentChar(p[i])
    requires !(p <= x)
    requires y == [] || !IsIdentChar(y[0])
    ensures !(p <= x + y)
  {
    if |p| <= |x| {
      assert (x + y)[..|p|] == x[..|p|];
    } else if |p| <= |x + y| {
      assert (x + y)[|x|] == y[0];
    }
  }

  lemma {:induction false} KindOf(k: TyKind, y: seq<char>)
    requires KindRoundTrips(k)
    requires y == [] || !IsIdentChar(y[0])
    ensures ParseKind(RenderKind(k) + y) == Ok(y, k)
  {
    var s := RenderKind(k) + y;
    match k
    case Void => KindOfVoid(s, y);
    case Vector(c) => KindOfVector(s, c, y);
    case Matrix(c, r) => KindOfMatrix(s, c, r, y);
    case Texture(t) => KindOfTexture(s, t, y);
    case Named(x) => KindOfNamed(s, x, y);
  }

  lemma KindOfTexture(s: seq<char>, t: Tex.TextureName, y: seq<char>)
    requires Tex.RoundTrips(t) && (y == [] || !IsIdentChar(y[0]))
    requires s == Tex.Render(t) + y
    ensures ParseKind(s) == Ok(y, Texture(t))
  {
    assert Tex.Render(t)[0] == 't';
    assert s[0] == 't';
    assert !("_array" <= y);
    Tex.RenderRoundTrip(t, y);
  }

  lemma KindOfVoid(s: seq<char>, y: seq<char>)
    requires s == "void" + y
    ensures ParseKind(s) == Ok(y, Void)
  {
    assert "void" <= s && s[4..] == y;
  }

  lemma KindOfVector(s: seq<char>, c: char, y: seq<char>)
    requires s == "vec" + [c] + y
    ensures ParseKind(s) == Ok(y, Vector(c))
  {
    assert s[2] == 'c' && "vec" <= s && s[3] == c && s[4..] == y;
  }

  lemma KindOfMatrix(s: seq<char>, c: char, r: char, y: seq<char>)
    requires s == "mat" + [c] + "x" + [r] + y
    ensures ParseKind(s) == Ok(y, Matrix(c, r))
  {
    assert s[2] == 't' && "mat" <= s && s[3] == c && s[4] == 'x' && s[5] == r && s[6..] == y;
  }

  lemma KindOfNamed(s: seq<char>, x: seq<char>, y: seq<char>)
    requires NamedRoundTrips(x) && (y == [] || !IsIdentChar(y[0]))
    requires s == x + y
    ensures ParseKind(s) == Ok(y, Named(x))
  {
    NoPrefixAcross("void", x, y);
    NoPrefixAcross("vec", x, y);
    NoPrefixAcross("mat", x, y);
    NoPrefixAcross("texture_", x, y);
    Tex.ParseNeedsSegment(s);
    IdentifierOf(x, y);
  }

  /** A well-formed type renders starting with an identifier character. */
  lemma RenderStart(t: Ty)
    requires WellFormed(t)
    ensures |Render(t)| > 0 && IsIdentStart(Render(t)[0])
  {
    match t.kind
    case Texture(n) => assert Tex.Render(n)[0] == 't';
    case _ =>
  }

  /** What follows parameter `i` in the rendering: `, ` and the later
      parameters, or nothing after the last one. */
  function SepFrom(t: Ty, i: nat): seq<char>
    requires i <= |t.params|
  {
    if i == |t.params| then [] else ", " + RenderList(t, i)
  }

  /** Round trip: rendering a well-formed type and parsing it back gives the
      type, and stops exactly where the rendering ends. */
  lemma {:induction false} ParseRender(t: Ty, rest: seq<char>)
    requires WellFormed(t) && Boundary(rest)
    ensures ParseTy(Render(t) + rest) == Ok(rest, t)
    decreases t, 2
  {
    var y := Brackets(t) + rest;
    assert Render(t) + rest == RenderKind(t.kind) + y;
    assert y == [] || !IsIdentChar(y[0]);
    KindOf(t.kind, y);
    BracketsOf(t, rest);
  }

  lemma {:induction false} BracketsOf(t: Ty, rest: seq<char>)
    requires WellFormed(t) && Boundary(rest)
    ensures ParseBrackets(Brackets(t) + rest) == Ok(rest, t.params)
    decreases t, 1
  {
    if t.params != [] {
      var z := ">" + rest;
      var l := RenderList(t, 0) + z;
      var s := Brackets(t) + rest;
      BracketsShape(t, rest, z, l, s);
      CloseShape(z, rest);
      ListOf(t, z);
      BracketsStep(s, l, z, rest, t.params);
    } else {
      assert Brackets(t) + rest == rest;
    }
  }

  /** The bracketed list and its opening bracket, with no blank in front
      of either. */
  lemma BracketsShape(t: Ty, rest: seq<char>, z: seq<char>, l: seq<char>, s: seq<char>)
    requires WellFormed(t) && t.params != []
    requires l == RenderList(t, 0) + z && s == Brackets(t) + rest
    requires z == ">" + rest
    ensures SkipWs(s) == s && "<" <= s && s[1..] == l && SkipWs(l) == l
  {
    assert s == "<" + l;
    SkipWsNone(s);
    RenderStart(t.params[0]);
    RenderListSplit(t, 0, z);
    SkipWsNone(l);
  }

  /** The closing bracket, and what follows it. */
  lemma CloseShape(z: seq<char>, rest: seq<char>)
    requires z == ">" + rest
    ensures |z| > 0 && z[0] == '>' && SkipWs(z) == z && ">" <= z && z[1..] == rest
  {
    BoundaryOf(z);
  }

  lemma BracketsStep(s: seq<char>, l: seq<char>, z: seq<char>, rest: seq<char>, ps: seq<Ty>)
    requires SkipWs(s) == s && "<" <= s && s[1..] == l && SkipWs(l) == l
    requires ParseList(l) == Ok(z, ps) && SkipWs(z) == z && ">" <= z && z[1..] == rest
    ensures ParseBrackets(s) == Ok(rest, ps)
  {
  }

  lemma {:induction false} ListOf(t: Ty, z: seq<char>)
    requires WellFormed(t) && t.params != []
    requires |z| > 0 && z[0] == '>'
    ensures ParseList(RenderList(t, 0) + z) == Ok(z, t.params)
    decreases t, 0, 5
  {
    ListStart(t, 0, z);
    ListHead(t, 0, z);
    MoreOf(t, z);
    ListStep(RenderList(t, 0) + z, SepFrom(t, 1) + z, t.params[0], z, t.params[1..]);
    Uncons(t.params);
  }

  /** Parameter `i` is read back from the rendering and the separator
      after it is left. */
  lemma {:induction false} ListHead(t: Ty, i: nat, z: seq<char>)
    requires WellFormed(t) && i < |t.params|
    requires |z| > 0 && z[0] == '>'
    ensures ParseTy(RenderList(t, i) + z) == Ok(SepFrom(t, i + 1) + z, t.params[i])
    decreases t, 0, 0
  {
    var y := SepFrom(t, i + 1) + z;
    RenderListSplit(t, i, z);
    BoundaryOf(y);
    ParseRender(t.params[i], y);
  }

  lemma ListStart(t: Ty, i: nat, z: seq<char>)
    requires WellFormed(t) && i < |t.params|
    ensures SkipWs(RenderList(t, i) + z) == RenderList(t, i) + z
  {
    RenderListSplit(t, i, z);
    RenderStart(t.params[i]);
    SkipWsNone(Render(t.params[i]) + (SepFrom(t, i + 1) + z));
  }

  lemma RenderListSplit(t: Ty, i: nat, z: seq<char>)
    requires i < |t.params|
    ensures RenderList(t, i) + z == Render(t.params[i]) + (SepFrom(t, i + 1) + z)
  {
  }

  /** A separator and the whitespace after it are skipped up to the next
      parameter. */
  lemma SepPrefix(t: Ty, i: nat, z: seq<char>)
    requires WellFormed(t) && i < |t.params|
    ensures var s := SepFrom(t, i) + z;
      SkipWs(s) == s && |s| > 0 && s[0] == ',' && SkipWs(s[1..]) == RenderList(t, i) + z
  {
    var l := RenderList(t, i) + z;
    var s := SepFrom(t, i) + z;
    assert s == ", " + l;
    SkipWsNone(s);
    assert s[1..] == " " + l;
    RenderListSplit(t, i, z);
    RenderStart(t.params[i]);
    SkipWsAppend(" ", l);
    SkipWsNone(l);
  }

  /** `ParseList` as its two stages, each given by its result. */
  lemma ListStep(l: seq<char>, y: seq<char>, p: Ty, z: seq<char>, more: seq<Ty>)
    requires SkipWs(l) == l && ParseTy(l) == Ok(y, p) && ParseMore(y) == Ok(z, more)
    ensures ParseList(l) == Ok(z, [p] + more)
  {
  }

  lemma UnconsFrom(ps: seq<Ty>, i: nat)
    requires i < |ps|
    ensures [ps[i]] + ps[i + 1..] == ps[i..]
  {
  }

  lemma Uncons(ps: seq<Ty>)
    requires ps != []
    ensures [ps[0]] + ps[1..] == ps
  {
  }

  /** `ParseMore` after a separator, as its stages. */
  lemma MoreStep(s: seq<char>, l: seq<char>, y: seq<char>, p: Ty, z: seq<char>, more: seq<Ty>)
    requires SkipWs(s) == s && |s| > 0 && s[0] == ',' && SkipWs(s[1..]) == l
    requires ParseTy(l) == Ok(y, p) && ParseMore(y) == Ok(z, more)
    ensures ParseMore(s) == Ok(z, [p] + more)
  {
    assert "," <= s;
  }

  /** After the last parameter no separator follows, and the list ends. */
  lemma MoreEnd(z: seq<char>)
    requires |z| > 0 && z[0] == '>'
    ensures ParseMore(z) == Ok(z, [])
  {
    BoundaryOf(z);
    assert !("," <= z);
  }

  /** The parameters after the first, each behind its separator, are read
      back up to the closing `>`. */
  lemma MoreOf(t: Ty, z: seq<char>)
    requires WellFormed(t) && 1 <= |t.params|
    requires |z| > 0 && z[0] == '>'
    ensures ParseMore(SepFrom(t, 1) + z) == Ok(z, t.params[1..])
    decreases t, 0, 4
  {
    LinksAt(t, z);
    TextsAt(t, z, |t.params|);
    TextsAt(t, z, 1);
    ChainEnd(Texts(t, z), t.params, z);
  }

  /** A chain of steps ending in the closing `>` reads as the parameters
      after the first. */
  lemma ChainEnd(ss: seq<seq<char>>, ps: seq<Ty>, z: seq<char>)
    requires |ss| == |ps| + 1 && 1 <= |ps| && ss[|ps|] == z
    requires |z| > 0 && z[0] == '>'
    requires forall j :: 1 <= j < |ps| ==> StepAt(ss, ps, z, j)
    ensures ParseMore(ss[1]) == Ok(z, ps[1..])
  {
    MoreEnd(z);
    Chain(ss, ps, z, 1);
  }

  /** Text `ss[j]` reads as the parameters from `j` on once text
      `ss[j + 1]` reads as those from `j + 1` on. */
  predicate StepAt(ss: seq<seq<char>>, ps: seq<Ty>, z: seq<char>, j: nat)
  {
    j < |ps| && |ss| == |ps| + 1 &&
    (ParseMore(ss[j + 1]) == Ok(z, ps[j + 1..]) ==> ParseMore(ss[j]) == Ok(z, ps[j..]))
  }

  /** Texts `ss[j]` each a step in front of `ss[j + 1]`, the last of which
      ends the list, are read as the parameters. */
  lemma {:induction false} Chain(ss: seq<seq<char>>, ps: seq<Ty>, z: seq<char>, k: nat)
    requires |ss| == |ps| + 1 && k <= |ps|
    requires ParseMore(ss[|ps|]) == Ok(z, [])
    requires forall j :: k <= j < |ps| ==> StepAt(ss, ps, z, j)
    ensures ParseMore(ss[k]) == Ok(z, ps[k..])
    decreases |ps| - k
  {
    if k < |ps| {
      assert StepAt(ss, ps, z, k);
      Chain(ss, ps, z, k + 1);
    } else {
      assert ps[k..] == [];
    }
  }

  /** Every separator after the first parameter makes a step. */
  lemma LinksAt(t: Ty, z: seq<char>)
    requires WellFormed(t)
    requires |z| > 0 && z[0] == '>'
    ensures forall j :: 1 <= j < |t.params| ==> StepAt(Texts(t, z), t.params, z, j)
    decreases t, 0, 3
  {
    forall j | 1 <= j < |t.params|
      ensures StepAt(Texts(t, z), t.params, z, j)
    {
      StepTexts(t, j, z);
    }
  }

  lemma StepTexts(t: Ty, j: nat, z: seq<char>)
    requires WellFormed(t) && j < |t.params|
    requires |z| > 0 && z[0] == '>'
    ensures StepAt(Texts(t, z), t.params, z, j)
    decreases t, 0, 2
  {
    TextsAt(t, z, j);
    TextsAt(t, z, j + 1);
    StepOf(t, j, z);
  }

  /** The separator and parameter `j` in front of the rest of the list. */
  lemma StepOf(t: Ty, j: nat, z: seq<char>)
    requires WellFormed(t) && j < |t.params|
    requires |z| > 0 && z[0] == '>'
    ensures ParseMore(SepFrom(t, j + 1) + z) == Ok(z, t.params[j + 1..]) ==>
      ParseMore(SepFrom(t, j) + z) == Ok(z, t.params[j..])
    decreases t, 0, 1
  {
    if ParseMore(SepFrom(t, j + 1) + z) == Ok(z, t.params[j + 1..]) {
      ListHead(t, j, z);
      MoreCons(t, j, z);
    }
  }

  /** One more separator and parameter in front of a parsed tail. */
  lemma MoreCons(t: Ty, i: nat, z: seq<char>)
    requires WellFormed(t) && i < |t.params|
    requires ParseTy(RenderList(t, i) + z) == Ok(SepFrom(t, i + 1) + z, t.params[i])
    requires ParseMore(SepFrom(t, i + 1) + z) == Ok(z, t.params[i + 1..])
    ensures ParseMore(SepFrom(t, i) + z) == Ok(z, t.params[i..])
  {
    SepPrefix(t, i, z);
    MoreStep(SepFrom(t, i) + z, RenderList(t, i) + z, SepFrom(t, i + 1) + z, t.params[i], z, t.params[i + 1..]);
    UnconsFrom(t.params, i);
  }

  /** The separators from `j` on, each followed by `z`. */
  function Texts(t: Ty, z: seq<char>): seq<seq<char>>
  {
    seq(|t.params| + 1, k requires 0 <= k <= |t.params| => SepFrom(t, k) + z)
  }

  lemma TextsAt(t: Ty, z: seq<char>, k: nat)
    requires k <= |t.params|
    ensures |Texts(t, z)| == |t.params| + 1 && Texts(t, z)[k] == SepFrom(t, k) + z
  {
  }

  /** `Ty::new` builds the kind that the rendering of a kind names. */
  lemma NewOfKind(k: TyKind, params: seq<Ty>)
    requires KindRoundTrips(k)
    ensures New(RenderKind(k), params) == Some(Ty(k, params))
  {
    KindOf(k, []);
    assert RenderKind(k) + [] == RenderKind(k);
  }

  /** Names `Ty::new` panics on: a kind with text left over, and a `vec`
      with no character after it. */
  lemma NewRejects()
    ensures New("voidx", []).None?
    ensures New("vec", []).None?
    ensures New("f32 ", []).None?
  {
    NewRejectsTail();
    NewRejectsVec();
    NewRejectsBlank();
  }

  lemma NewRejectsTail()
    ensures New("voidx", []).None?
  {
    KindOfVoid("voidx", "x");
  }

  lemma NewRejectsVec()
    ensures New("vec", []).None?
  {
    assert ParseKind("vec").Failure?;
  }

  lemma NewRejectsBlank()
    ensures New("f32 ", []).None?
  {
    assert "f32" + " " == "f32 ";
    KindOfNamed("f32 ", "f32", " ");
  }

  /** A type whose kind is a plain name. */
  function Leaf(x: seq<char>): Ty
  {
    Ty(Named(x), [])
  }

  lemma {:induction false} LeafParse(x: seq<char>, rest: seq<char>)
    requires NamedRoundTrips(x) && Boundary(rest)
    ensures ParseTy(x + rest) == Ok(rest, Leaf(x))
  {
    assert Render(Leaf(x)) == x;
    ParseRender(Leaf(x), rest);
  }

  /** A type with parameters ends at its closing `>`: it reads back
      whatever follows, even a `<` (as in `vec4<f32></xmp>`). */
  lemma ParseRenderBracketed(t: Ty, rest: seq<char>)
    requires WellFormed(t) && t.params != []
    ensures ParseTy(Render(t) + rest) == Ok(rest, t)
  {
    var s := Brackets(t) + rest;
    BracketedParams(t, rest);
    BracketedKind(t, rest);
    TyStep(Render(t) + rest, s, t.kind, rest, t.params);
  }

  lemma BracketedParams(t: Ty, rest: seq<char>)
    requires WellFormed(t) && t.params != []
    ensures ParseBrackets(Brackets(t) + rest) == Ok(rest, t.params)
    ensures var s := Brackets(t) + rest; |s| > 0 && s[0] == '<'
  {
    var z := ">" + rest;
    var l := RenderList(t, 0) + z;
    var s := Brackets(t) + rest;
    BracketsShape(t, rest, z, l, s);
    CloseShape(z, rest);
    ListOf(t, z);
    BracketsStep(s, l, z, rest, t.params);
  }

  lemma BracketedKind(t: Ty, rest: seq<char>)
    requires WellFormed(t) && |Brackets(t) + rest| > 0 && (Brackets(t) + rest)[0] == '<'
    ensures Render(t) + rest == RenderKind(t.kind) + (Brackets(t) + rest)
    ensures ParseKind(RenderKind(t.kind) + (Brackets(t) + rest)) == Ok(Brackets(t) + rest, t.kind)
  {
    KindOf(t.kind, Brackets(t) + rest);
  }


  /** `Ty::parse` as its two stages. */
  lemma TyStep(s: seq<char>, r1: seq<char>, k: TyKind, r2: seq<char>, ps: seq<Ty>)
    requires ParseKind(s) == Ok(r1, k) && ParseBrackets(r1) == Ok(r2, ps)
    ensures ParseTy(s) == Ok(r2, Ty(k, ps))
  {
  }


  /** The test types: each rendering is the unit test's string and parses
      back completely. */
  lemma ParseTestVec4()
    ensures ParseTy("vec4<f32>") == Ok("", Ty(Vector('4'), [Leaf("f32")]))
  {
    var t := Ty(Vector('4'), [Leaf("f32")]);
    assert Render(Leaf("f32")) == "f32" + [];
    SingleList(t, "f32");
    LeafWellFormed("f32");
    assert WellFormed(t);
    assert "vec4<f32>" == "vec4" + ("<" + ("f32" + ">"));
    ParseWithList(t, "vec4", "f32", "vec4<f32>");
  }

  lemma ParseTestMat()
    ensures ParseTy("matCxR<A, B, C, D>")
      == Ok("", Ty(Matrix('C', 'R'), [Leaf("A"), Leaf("B"), Leaf("C"), Leaf("D")]))
  {
    var t := Ty(Matrix('C', 'R'), [Leaf("A"), Leaf("B"), Leaf("C"), Leaf("D")]);
    ListABCD(t);
    LeavesABCD(t);
    assert RenderKind(t.kind) == "matCxR";
    MatText();
    ParseWithList(t, "matCxR", "A, B, C, D", "matCxR<A, B, C, D>");
  }

  lemma MatText()
    ensures "matCxR<A, B, C, D>" == "matCxR" + ("<" + ("A, B, C, D" + ">"))
  {
  }

  /** A type with parameters, written out, reads back as itself. */
  lemma ParseWithList(t: Ty, k: seq<char>, l: seq<char>, s: seq<char>)
    requires WellFormed(t) && t.params != []
    requires RenderKind(t.kind) == k && RenderList(t, 0) == l && s == k + ("<" + (l + ">"))
    ensures ParseTy(s) == Ok("", t)
  {
    assert Render(t) + "" == s;
    assert Boundary("");
    ParseRender(t, "");
  }

  /** Four leaves `A` to `D` are well formed. */
  lemma LeavesABCD(t: Ty)
    requires t.params == [Leaf("A"), Leaf("B"), Leaf("C"), Leaf("D")] && KindRoundTrips(t.kind)
    ensures WellFormed(t)
  {
    LeafWellFormed("A");
    LeafWellFormed("B");
    LeafWellFormed("C");
    LeafWellFormed("D");
  }

  lemma LeafWellFormed(x: seq<char>)
    requires x == "A" || x == "B" || x == "C" || x == "D" || x == "f32"
    ensures WellFormed(Leaf(x))
  {
  }

  /** Four leaves `A` to `D` are written `A, B, C, D`. */
  lemma ListABCD(t: Ty)
    requires t.params == [Leaf("A"), Leaf("B"), Leaf("C"), Leaf("D")]
    ensures RenderList(t, 0) == "A, B, C, D"
  {
    assert RenderList(t, 3) == "D";
    ListCons(t, 2, "C", "D");
    ListCons(t, 1, "B", "C, D");
    ListCons(t, 0, "A", "B, C, D");
  }

  lemma ListCons(t: Ty, i: nat, x: seq<char>, y: seq<char>)
    requires i + 1 < |t.params| && Render(t.params[i]) == x && RenderList(t, i + 1) == y
    ensures RenderList(t, i) == x + (", " + y)
  {
  }

  lemma ParseTestNested()
    ensures ParseTy("vec4<vec3<f32>>") == Ok("", Ty(Vector('4'), [Ty(Vector('3'), [Leaf("f32")])]))
  {
    var u := Ty(Vector('3'), [Leaf("f32")]);
    var t := Ty(Vector('4'), [u]);
    NestedText(u, t);
    LeafWellFormed("f32");
    assert WellFormed(u);
    assert WellFormed(t);
    ParseWithList(t, "vec4", "vec3<f32>", "vec4<vec3<f32>>");
  }

  lemma NestedText(u: Ty, t: Ty)
    requires u == Ty(Vector('3'), [Leaf("f32")]) && t == Ty(Vector('4'), [u])
    ensures RenderKind(t.kind) == "vec4" && RenderList(t, 0) == "vec3<f32>"
    ensures "vec4<vec3<f32>>" == "vec4" + ("<" + ("vec3<f32>" + ">"))
  {
    assert Render(Leaf("f32")) == "f32" + [];
    SingleList(u, "f32");
    RenderWithList(u, "vec3", "f32");
    assert "vec3" + ("<" + ("f32" + ">")) == "vec3<f32>";
    SingleList(t, "vec3<f32>");
  }

  /** The list of a single parameter is that parameter written out. */
  lemma SingleList(t: Ty, x: seq<char>)
    requires |t.params| == 1 && Render(t.params[0]) == x
    ensures RenderList(t, 0) == x
  {
    assert RenderList(t, 0) == x + [];
  }

  lemma RenderWithList(t: Ty, k: seq<char>, l: seq<char>)
    requires t.params != [] && RenderKind(t.kind) == k && RenderList(t, 0) == l
    ensures Render(t) == k + ("<" + (l + ">"))
  {
  }

  /** Blanks in front of the closing `>`: no parameter follows, and they are
      not an opening bracket either. */
  lemma SpacedEnd(w: seq<char>, y: seq<char>)
    requires forall i :: 0 <= i < |w| ==> w[i] == ' '
    requires |y| > 0 && y[0] == '>'
    ensures Boundary(w + y) && SkipWs(w + y) == y
    ensures ParseMore(w + y) == Ok(w + y, [])
  {
    SkipWsAppend(w, y);
    BoundaryOf(y);
    if w != [] {
      assert (w + y)[0] == ' ';
    } else {
      assert w + y == y;
    }
  }

  /** A name starts with neither whitespace nor nothing. */
  lemma IdentFirst(x: seq<char>, y: seq<char>)
    requires IsIdent(x)
    ensures x + y != [] && !IsWhitespace((x + y)[0]) && SkipWs(x + y) == x + y
  {
    assert (x + y)[0] == x[0];
    SkipWsNone(x + y);
  }

  /** A separator and blanks in front of `l` are skipped up to `l`. */
  lemma SepBlanks(w: seq<char>, l: seq<char>)
    requires forall i :: 0 <= i < |w| ==> w[i] == ' '
    requires l == [] || !IsWhitespace(l[0])
    ensures var s := [','] + (w + l);
      SkipWs(s) == s && |s| > 0 && s[0] == ',' && SkipWs(s[1..]) == l
  {
    var s := [','] + (w + l);
    SkipWsNone(s);
    assert s[1..] == w + l;
    SkipWsAppend(w, l);
    SkipWsNone(l);
  }

  /** A separator, blanks, and a name in front of a parsed tail: the
      parameter list grows by that name. */
  lemma SpacedMore(w: seq<char>, x: seq<char>, y: seq<char>, z: seq<char>, more: seq<Ty>)
    requires forall i :: 0 <= i < |w| ==> w[i] == ' '
    requires NamedRoundTrips(x) && Boundary(y)
    requires ParseMore(y) == Ok(z, more)
    ensures ParseMore([','] + (w + (x + y))) == Ok(z, [Leaf(x)] + more)
  {
    IdentFirst(x, y);
    SepBlanks(w, x + y);
    LeafParse(x, y);
    MoreStep([','] + (w + (x + y)), x + y, y, Leaf(x), z, more);
  }

  /** The first name of a list, then the rest of it. */
  lemma SpacedList(x: seq<char>, y: seq<char>, z: seq<char>, more: seq<Ty>)
    requires NamedRoundTrips(x) && Boundary(y)
    requires ParseMore(y) == Ok(z, more)
    ensures ParseList(x + y) == Ok(z, [Leaf(x)] + more)
  {
    IdentFirst(x, y);
    LeafParse(x, y);
    ListStep(x + y, y, Leaf(x), z, more);
  }

  /** Blanks around `<` and before `>` are skipped. */
  lemma SpacedBrackets(w1: seq<char>, w2: seq<char>, l: seq<char>, w3: seq<char>, rest: seq<char>, ps: seq<Ty>)
    requires forall i :: 0 <= i < |w1| ==> w1[i] == ' '
    requires forall i :: 0 <= i < |w2| ==> w2[i] == ' '
    requires forall i :: 0 <= i < |w3| ==> w3[i] == ' '
    requires l == [] || !IsWhitespace(l[0])
    requires ParseList(l) == Ok(w3 + (['>'] + rest), ps)
    ensures ParseBrackets(w1 + (['<'] + (w2 + l))) == Ok(rest, ps)
  {
    OpenBlanks(w1, w2, l);
    CloseBlanks(w3, rest);
    SpacedBracketsStep(w1 + (['<'] + (w2 + l)), ['<'] + (w2 + l), l, w3 + (['>'] + rest), ['>'] + rest, rest, ps);
  }

  lemma OpenBlanks(w1: seq<char>, w2: seq<char>, l: seq<char>)
    requires forall i :: 0 <= i < |w1| ==> w1[i] == ' '
    requires forall i :: 0 <= i < |w2| ==> w2[i] == ' '
    requires l == [] || !IsWhitespace(l[0])
    ensures var u := ['<'] + (w2 + l);
      SkipWs(w1 + u) == u && |u| > 0 && u[0] == '<' && SkipWs(u[1..]) == l
  {
    var u := ['<'] + (w2 + l);
    SkipWsAppend(w1, u);
    SkipWsNone(u);
    assert u[1..] == w2 + l;
    SkipWsAppend(w2, l);
    SkipWsNone(l);
  }

  lemma CloseBlanks(w3: seq<char>, rest: seq<char>)
    requires forall i :: 0 <= i < |w3| ==> w3[i] == ' '
    ensures var e := ['>'] + rest;
      SkipWs(w3 + e) == e && |e| > 0 && e[0] == '>' && e[1..] == rest
  {
    var e := ['>'] + rest;
    SkipWsAppend(w3, e);
    SkipWsNone(e);
  }

  lemma SpacedBracketsStep(s: seq<char>, u: seq<char>, l: seq<char>, z: seq<char>, e: seq<char>, rest: seq<char>, ps: seq<Ty>)
    requires SkipWs(s) == u && |u| > 0 && u[0] == '<' && SkipWs(u[1..]) == l
    requires ParseList(l) == Ok(z, ps) && SkipWs(z) == e && |e| > 0 && e[0] == '>' && e[1..] == rest
    ensures ParseBrackets(s) == Ok(rest, ps)
  {
    PrefixOne('<', u);
    PrefixOne('>', e);
  }

  lemma PrefixOne(c: char, u: seq<char>)
    requires |u| > 0 && u[0] == c
    ensures [c] <= u
  {
    assert u[..1] == [c];
  }

  /** Whitespace before `<`, after `<`, around the commas and before `>`
      is skipped: the spaced test string gives the same type as the tight
      rendering. */
  lemma ParseTestSpaced()
    ensures ParseTy("vec4<A, B, C, D>") == Ok("", Ty(Vector('4'), [Leaf("A"), Leaf("B"), Leaf("C"), Leaf("D")]))
    ensures ParseTy("vec4  < A,B, C, D  >") == Ok("", Ty(Vector('4'), [Leaf("A"), Leaf("B"), Leaf("C"), Leaf("D")]))
  {
    TightVec4();
    SpacedVec4();
  }

  lemma TightVec4()
    ensures ParseTy("vec4<A, B, C, D>") == Ok("", Ty(Vector('4'), [Leaf("A"), Leaf("B"), Leaf("C"), Leaf("D")]))
  {
    var t := Ty(Vector('4'), [Leaf("A"), Leaf("B"), Leaf("C"), Leaf("D")]);
    ListABCD(t);
    LeavesABCD(t);
    assert RenderKind(t.kind) == "vec4";
    Vec4Text();
    ParseWithList(t, "vec4", "A, B, C, D", "vec4<A, B, C, D>");
  }

  lemma Vec4Text()
    ensures "vec4<A, B, C, D>" == "vec4" + ("<" + ("A, B, C, D" + ">"))
  {
  }

  lemma SpacedVec4()
    ensures ParseTy("vec4  < A,B, C, D  >") == Ok("", Ty(Vector('4'), [Leaf("A"), Leaf("B"), Leaf("C"), Leaf("D")]))
  {
    SpacedParams();
    SpacedKind();
  }

  lemma SpacedKind()
    ensures ParseKind("vec4  < A,B, C, D  >") == Ok("  < A,B, C, D  >", Vector('4'))
  {
    assert "vec4  < A,B, C, D  >" == RenderKind(Vector('4')) + "  < A,B, C, D  >";
    KindOf(Vector('4'), "  < A,B, C, D  >");
  }

  lemma SpacedParams()
    ensures ParseBrackets("  < A,B, C, D  >") == Ok("", [Leaf("A"), Leaf("B"), Leaf("C"), Leaf("D")])
  {
    SpacedNames();
    SpacedTextBrackets();
    SpacedBlanks();
    SpacedBrackets("  ", " ", "A,B, C, D  >", "  ", "", [Leaf("A"), Leaf("B"), Leaf("C"), Leaf("D")]);
  }

  lemma SpacedNames()
    ensures ParseList("A,B, C, D  >") == Ok("  >", [Leaf("A"), Leaf("B"), Leaf("C"), Leaf("D")])
  {
    SpacedB();
    SpacedLists();
    SpacedTextA();
    SpacedLetters();
    SpacedList("A", ",B, C, D  >", "  >", [Leaf("B"), Leaf("C"), Leaf("D")]);
  }

  lemma SpacedB()
    ensures Boundary(",B, C, D  >")
    ensures ParseMore(",B, C, D  >") == Ok("  >", [Leaf("B"), Leaf("C"), Leaf("D")])
  {
    SpacedC();
    SpacedLists();
    SpacedTextB();
    SpacedLetters();
    BoundaryOf(",B, C, D  >");
    SpacedMore("", "B", ", C, D  >", "  >", [Leaf("C"), Leaf("D")]);
  }

  lemma SpacedC()
    ensures Boundary(", C, D  >")
    ensures ParseMore(", C, D  >") == Ok("  >", [Leaf("C"), Leaf("D")])
  {
    SpacedD();
    SpacedLists();
    SpacedTextC();
    SpacedLetters();
    SpacedBlanks();
    BoundaryOf(", C, D  >");
    SpacedMore(" ", "C", ", D  >", "  >", [Leaf("D")]);
  }

  lemma SpacedD()
    ensures Boundary(", D  >")
    ensures ParseMore(", D  >") == Ok("  >", [Leaf("D")])
  {
    SpacedLists();
    SpacedTextD();
    SpacedLetters();
    SpacedBlanks();
    SpacedEnd("  ", ">");
    BoundaryOf(", D  >");
    SpacedMore(" ", "D", "  >", "  >", []);
  }

  lemma SpacedLists()
    ensures [Leaf("D")] + [] == [Leaf("D")]
    ensures [Leaf("C")] + [Leaf("D")] == [Leaf("C"), Leaf("D")]
    ensures [Leaf("B")] + [Leaf("C"), Leaf("D")] == [Leaf("B"), Leaf("C"), Leaf("D")]
    ensures [Leaf("A")] + [Leaf("B"), Leaf("C"), Leaf("D")] == [Leaf("A"), Leaf("B"), Leaf("C"), Leaf("D")]
  {
  }

  lemma SpacedLetters()
    ensures NamedRoundTrips("A") && NamedRoundTrips("B") && NamedRoundTrips("C") && NamedRoundTrips("D")
  {
  }

  lemma SpacedBlanks()
    ensures forall i :: 0 <= i < |" "| ==> " "[i] == ' '
    ensures forall i :: 0 <= i < |"  "| ==> "  "[i] == ' '
    ensures !IsWhitespace("A,B, C, D  >"[0])
  {
  }

  lemma SpacedTextD()
    ensures "  " + ">" == "  >"
    ensures [','] + (" " + ("D" + "  >")) == ", D  >"
  {
  }

  lemma SpacedTextC()
    ensures [','] + (" " + ("C" + ", D  >")) == ", C, D  >"
  {
  }

  lemma SpacedTextB()
    ensures [','] + ("" + ("B" + ", C, D  >")) == ",B, C, D  >"
  {
  }

  lemma SpacedTextA()
    ensures "A" + ",B, C, D  >" == "A,B, C, D  >"
  {
  }

  lemma SpacedTextBrackets()
    ensures "  " + (['>'] + "") == "  >"
    ensures "  " + (['<'] + (" " + "A,B, C, D  >")) == "  < A,B, C, D  >"
  {
  }

}
