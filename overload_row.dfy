/** Constraint and overload-row grammar (src/wgsl/overload_row.rs): the
    `<tr algorithm="…">` rows of the WGSL specification's builtin tables,
    each holding the bounds on the generic parameters and a signature. */
module Overloads {
  import opened Prelude
  import Misc
  import Idents
  import opened Types
  import FnDecls

  // ---------------------------------------------------------------------
  // Generic arguments and trait names
  // ---------------------------------------------------------------------

  /** The `ident()` closure: `|X|`, committed once the opening bar is read,
      or else a bare identifier after blanks. A `|X` without the closing
      bar falls back to the bare form, which cannot start with a bar. */
  function ParseBarred(s: seq<char>): (r: Res<Idents.Ident>)
    ensures Advances(r, s)
    ensures r.Ok? ==> IsIdent(r.value)
    ensures "|" <= s && !Idents.Parse(SkipWs(s[1..])).Ok? ==> r.Failure?
    ensures !("|" <= s) ==> r == Idents.Parse(SkipWs(s))
  {
    if "|" <= s then
      match Idents.Parse(SkipWs(s[1..]))
      case Ok(r1, x) =>
        SuffixOfConcat(x, r1);
        SuffixTrans(r1, SkipWs(s[1..]), s[1..]);
        SuffixTrans(r1, s[1..], s);
        if "|" <= r1 then
          SuffixTrans(r1[1..], r1, s);
          Ok(r1[1..], x)
        else Bare(s)
      case _ => Failure
    else Bare(s)
  }

  /** `ws0_then(Ident::parse)`. */
  function Bare(s: seq<char>): (r: Res<Idents.Ident>)
    ensures Advances(r, s) && !r.Failure?
    ensures r.Ok? ==> IsIdent(r.value)
    ensures r == Idents.Parse(SkipWs(s))
  {
    var r := Idents.Parse(SkipWs(s));
    if r.Ok? then
      SuffixOfConcat(r.value, r.rest);
      SuffixTrans(r.rest, SkipWs(s), s);
      r
    else r
  }

  /** `parse_generic_arg`: `<var ignore>`, then (committed) the `ident()`
      form, then `</var>`; or else the `ident()` form on its own. Only the
      identifier is kept. */
  function ParseGenericArg(s: seq<char>): (r: Res<Idents.Ident>)
    ensures Advances(r, s)
    ensures r.Ok? ==> IsIdent(r.value)
  {
    var u := SkipWs(s);
    if "<var ignore>" <= u then VarForm(s, u)
    else GenericFallback(s, u)
  }

  /** The first alternative, committed once `<var ignore>` is read:
      `ident()` (barred or not), blanks, then `</var>`; without the
      closing tag the second alternative is tried on the original input. */
  function VarForm(s: seq<char>, u: seq<char>): (r: Res<Idents.Ident>)
    requires u == SkipWs(s) && "<var ignore>" <= u
    ensures Advances(r, s)
    ensures r.Ok? ==> IsIdent(r.value)
  {
    var v := SkipWs(u[12..]);
    assert IsSuffix(u[12..], u);
    SuffixTrans(u[12..], u, s);
    SuffixTrans(v, u[12..], s);
    match ParseBarred(v)
    case Ok(r1, x) =>
      var w := SkipWs(r1);
      SuffixTrans(r1, v, s);
      SuffixTrans(w, r1, s);
      if "</var>" <= w then
        assert IsSuffix(w[6..], w);
        SuffixTrans(w[6..], w, s);
        Ok(w[6..], x)
      else GenericFallback(s, u)
    case _ => Failure
  }

  /** The second alternative, `ws0_then(ident())`, on the original input. */
  function GenericFallback(s: seq<char>, u: seq<char>): (r: Res<Idents.Ident>)
    requires u == SkipWs(s)
    ensures Advances(r, s)
    ensures r.Ok? ==> IsIdent(r.value)
    ensures r == ParseBarred(u)
  {
    var r := ParseBarred(u);
    if r.Ok? then SuffixTrans(r.rest, u, s); r else r
  }

  /** What `take_while1` accepts inside `[=…=]`: whitespace or an
      alphanumeric character (ASCII letters and digits here). */
  predicate IsTraitChar(c: char)
  {
    IsWhitespace(c) || IsAsciiAlpha(c) || IsAsciiDigit(c)
  }

  /** `parse_trait_name`: `[=`, then (committed) a non-empty run of trait
      characters, then `=]`. The run is returned verbatim. */
  function ParseTraitName(s: seq<char>): (r: Res<seq<char>>)
    ensures Advances(r, s)
    ensures r.Failure? <==> "[=" <= s && (|s| == 2 || !IsTraitChar(s[2]))
    ensures r.Ok? ==> |r.value| > 0 && (forall i :: 0 <= i < |r.value| ==> IsTraitChar(r.value[i]))
    ensures r.Ok? ==> s == "[=" + r.value + "=]" + r.rest
  {
    if !("[=" <= s) then Error
    else
      var t := s[2..];
      var n := Span(IsTraitChar, t);
      if n == 0 then Failure
      else
        var r := t[n..];
        if "=]" <= r then
          assert s == "[=" + t[..n] + "=]" + r[2..];
          SuffixOfConcat("[=" + t[..n] + "=]", r[2..]);
          Ok(r[2..], t[..n])
        else Error
  }

  /** A trait name is read back verbatim: `[=`, the name, `=]`. */
  lemma TraitNameOf(n: seq<char>, rest: seq<char>)
    requires |n| > 0 && forall i :: 0 <= i < |n| ==> IsTraitChar(n[i])
    ensures ParseTraitName("[=" + n + "=]" + rest) == Ok(rest, n)
  {
    var s := "[=" + n + "=]" + rest;
    var t := s[2..];
    assert t == n + ("=]" + rest);
    assert !IsTraitChar('=');
    SpanAppend(IsTraitChar, n, "=]" + rest);
    assert Span(IsTraitChar, "=]" + rest) == 0;
    assert t[|n|..] == "=]" + rest;
  }

  // ---------------------------------------------------------------------
  // Union bounds
  // ---------------------------------------------------------------------

  datatype UnionBound = UnionBound(isOneOf: seq<Ty>)

  /** The separator between union variants: `, or ` (the comma, blanks,
      `or` and at least one blank), else `,`, else `or` and at least one
      blank; blanks may come first in each case. It never commits. */
  function UnionSep(s: seq<char>): (r: Res<()>)
    ensures Advances(r, s) && !r.Failure?
  {
    var u := SkipWs(s);
    if "," <= u && "or" <= SkipWs(u[1..]) && |SkipWs(u[1..])| > 2 && IsWhitespace(SkipWs(u[1..])[2]) then
      var v := SkipWs(u[1..]);
      SuffixTrans(u[1..], u, s);
      SuffixTrans(v, u[1..], s);
      SuffixTrans(v[2..], v, s);
      SuffixTrans(SkipWs(v[2..]), v[2..], s);
      Ok(SkipWs(v[2..]), ())
    else if "," <= u then
      SuffixTrans(u[1..], u, s);
      Ok(u[1..], ())
    else if "or" <= u && |u| > 2 && IsWhitespace(u[2]) then
      SuffixTrans(u[2..], u, s);
      SuffixTrans(SkipWs(u[2..]), u[2..], s);
      Ok(SkipWs(u[2..]), ())
    else Error
  }

  /** One variant after blanks: `ws0_then` of the variant forms. */
  function UnionItem(s: seq<char>): (r: Res<Ty>)
    ensures Advances(r, s)
    ensures r == ItemForms(SkipWs(s))
  {
    var r := ItemForms(SkipWs(s));
    if r.Ok? then SuffixTrans(r.rest, SkipWs(s), s); r else r
  }

  /** `[=` and (committed) a type and `=]`, or a type between backquotes.
      A `[=T` without its `=]` falls back to the backquoted form, which
      cannot start with `[`. */
  function ItemForms(u: seq<char>): (r: Res<Ty>)
    ensures Advances(r, u)
  {
    if "[=" <= u then
      match ParseTy(u[2..])
      case Ok(r1, t) =>
        SuffixTrans(r1, u[2..], u);
        if "=]" <= r1 then
          SuffixTrans(r1[2..], r1, u);
          Ok(r1[2..], t)
        else Backquoted(u)
      case _ => Failure
    else Backquoted(u)
  }

  function Backquoted(u: seq<char>): (r: Res<Ty>)
    ensures Advances(r, u)
    ensures !("`" <= u) ==> r.Error?
  {
    if "`" <= u then
      match ParseTy(u[1..])
      case Ok(r1, t) =>
        SuffixTrans(r1, u[1..], u);
        if "`" <= r1 then
          SuffixTrans(r1[1..], r1, u);
          Ok(r1[1..], t)
        else Error
      case Error => Error
      case Failure => Failure
    else Error
  }

  /** `UnionBound::parse`: `separated_list1` of variants. A separator that
      fails, or a variant after a separator that fails with `Error`, ends
      the list before that separator; a committed failure propagates. */
  function ParseUnion(s: seq<char>): (r: Res<UnionBound>)
    ensures Advances(r, s)
    ensures r.Ok? ==> |r.value.isOneOf| > 0
  {
    match UnionItem(s)
    case Error => Error
    case Failure => Failure
    case Ok(r1, t) =>
      match UnionMore(r1)
      case Ok(r2, ts) =>
        SuffixTrans(r2, r1, s);
        Ok(r2, UnionBound([t] + ts))
      case Error => Error
      case Failure => Failure
  }

  /** The separator-then-variant repetitions of the list. */
  function UnionMore(s: seq<char>): (r: Res<seq<Ty>>)
    decreases |s|
    ensures !r.Error? && Consumes(r, s)
  {
    match UnionSep(s)
    case Error => Ok(s, [])
    case Failure => Failure
    case Ok(r1, _) =>
      match UnionItem(r1)
      case Error => Ok(s, [])
      case Failure => Failure
      case Ok(r2, t) =>
        SuffixTrans(r2, r1, s);
        match UnionMore(r2)
        case Ok(r3, ts) =>
          SuffixTrans(r3, r2, s);
          Ok(r3, [t] + ts)
        case Error => Error
        case Failure => Failure
  }

  /** `Display for UnionBound`: `is `, then the variants separated by ` | `. */
  function UnionText(u: UnionBound): seq<char>
  {
    "is " + Alternatives(u.isOneOf)
  }

  function Alternatives(ts: seq<Ty>): seq<char>
  {
    if ts == [] then []
    else Render(ts[0]) + (if |ts| == 1 then [] else " | " + Alternatives(ts[1..]))
  }

  // ---------------------------------------------------------------------
  // Bounds
  // ---------------------------------------------------------------------

  datatype TraitBound = TraitBound(isA: seq<char>)

  datatype BoundKind =
    | Union(union: UnionBound)
    | Trait(traitBound: TraitBound)
    /** A bound described in plain text. */
    | Prose(text: seq<char>)

  datatype Bound = Bound(typeParam: Idents.Ident, kind: BoundKind)

  /** `TraitBound::parse`: at least one blank, then a trait name. */
  function ParseTraitBound(s: seq<char>): (r: Res<TraitBound>)
    ensures Advances(r, s)
    ensures (s == [] || !IsWhitespace(s[0])) ==> r.Error?
    ensures s != [] && IsWhitespace(s[0]) ==>
      match ParseTraitName(SkipWs(s))
      case Ok(rest, n) => r == Ok(rest, TraitBound(n))
      case Error => r.Error?
      case Failure => r.Failure?
  {
    if s == [] || !IsWhitespace(s[0]) then Error
    else
      match ParseTraitName(SkipWs(s))
      case Ok(rest, n) =>
        SuffixTrans(rest, SkipWs(s), s);
        Ok(rest, TraitBound(n))
      case Error => Error
      case Failure => Failure
  }

  /** The word `is` between blanks: `delimited(ws0, tag("is"), ws1)`. */
  function IsWord(s: seq<char>): (r: Res<()>)
    ensures Advances(r, s) && !r.Failure?
  {
    var u := SkipWs(s);
    if "is" <= u && |u| > 2 && IsWhitespace(u[2]) then
      SuffixTrans(u[2..], u, s);
      SuffixTrans(SkipWs(u[2..]), u[2..], s);
      Ok(SkipWs(u[2..]), ())
    else Error
  }

  /** The article before a trait: `an`, else `a`, after blanks. */
  function Article(s: seq<char>): (r: Res<()>)
    ensures Advances(r, s) && !r.Failure?
  {
    var u := SkipWs(s);
    if "an" <= u then
      SuffixTrans(u[2..], u, s);
      Ok(u[2..], ())
    else if "a" <= u then
      SuffixTrans(u[1..], u, s);
      Ok(u[1..], ())
    else Error
  }

  /** First alternative: `is`, an article, then (committed) a trait bound. */
  function TraitAlt(v: seq<char>): (r: Res<BoundKind>)
    ensures Consumes(r, v)
    ensures r.Ok? ==> r.value.Trait?
  {
    match IsWord(v)
    case Error => Error
    case Failure => Error
    case Ok(r1, _) =>
      match Article(r1)
      case Error => Error
      case Failure => Error
      case Ok(r2, _) =>
        match ParseTraitBound(r2)
        case Error => Failure
        case Failure => Failure
        case Ok(r3, t) =>
          SuffixTrans(r3, r2, r1);
          SuffixTrans(r3, r1, v);
          Ok(r3, Trait(t))
  }

  /** Second alternative: `is`, then a union. */
  function UnionAlt(v: seq<char>): (r: Res<BoundKind>)
    ensures Consumes(r, v)
    ensures r.Ok? ==> r.value.Union?
  {
    match IsWord(v)
    case Error => Error
    case Failure => Error
    case Ok(r1, _) =>
      match ParseUnion(r1)
      case Error => Error
      case Failure => Failure
      case Ok(r2, u) =>
        SuffixTrans(r2, r1, v);
        Ok(r2, Union(u))
  }

  /** `alt((tag("<br>"), tag("<td>")))`: where a prose bound ends. */
  function BrOrTd(s: seq<char>): (r: Res<seq<char>>)
    ensures !r.Failure?
    ensures r.Ok? <==> "<br>" <= s || "<td>" <= s
  {
    match Tag("<br>", s)
    case Ok(rest, t) => Ok(rest, t)
    case _ => Tag("<td>", s)
  }

  /** Last alternative: the text up to the next `<br>` or `<td>`, trimmed
      and with its whitespace runs collapsed. */
  function ProseAlt(v: seq<char>): (r: Res<BoundKind>)
    ensures Consumes(r, v)
    ensures !r.Failure?
  {
    match Misc.TakeUntilMatches(BrOrTd, v)
    case Ok(rest, p) =>
      SuffixOfConcat(p, rest);
      Ok(rest, Prose(Misc.NormalizeWhitespace(Misc.Trim(p))))
    case _ => Error
  }

  /** What follows the generic argument: a trait bound, else a union, else
      prose. Only `Error` moves on to the next alternative. */
  function ParseBoundKind(s: seq<char>): (r: Res<BoundKind>)
    ensures Consumes(r, s)
  {
    var v := SkipWs(s);
    match TraitAlt(v)
    case Ok(r1, k) =>
      SuffixTrans(r1, v, s);
      Ok(r1, k)
    case Failure => Failure
    case Error =>
      match UnionAlt(v)
      case Ok(r1, k) =>
        SuffixTrans(r1, v, s);
        Ok(r1, k)
      case Failure => Failure
      case Error =>
        var r := ProseAlt(v);
        if r.Ok? then SuffixTrans(r.rest, v, s); r else r
  }

  /** `Bound::parse`: a generic argument, then its bound kind. */
  function ParseBound(s: seq<char>): (r: Res<Bound>)
    ensures Advances(r, s)
    ensures r.Ok? ==> IsIdent(r.value.typeParam)
  {
    var u := SkipWs(s);
    match ParseGenericArg(u)
    case Error => Error
    case Failure => Failure
    case Ok(r1, x) =>
      match ParseBoundKind(r1)
      case Error => Error
      case Failure => Failure
      case Ok(r2, k) =>
        SuffixTrans(r2, r1, u);
        SuffixTrans(r2, u, s);
        Ok(r2, Bound(x, k))
  }

  /** `Display for BoundKind`. */
  function KindText(k: BoundKind): seq<char>
  {
    match k
    case Union(u) => UnionText(u)
    case Trait(t) => "is a `" + t.isA + "`"
    case Prose(p) => "\"" + p + "\""
  }

  /** `Display for Bound`: `T: <kind>`. */
  function BoundText(b: Bound): seq<char>
  {
    b.typeParam + ": " + KindText(b.kind)
  }

  // ---------------------------------------------------------------------
  // Parametrizations and rows
  // ---------------------------------------------------------------------

  /** `many0(ws0_then(tag("<br>")))`: any number of `<br>`, each after
      blanks; the blanks after the last one are not consumed. */
  function SkipBreaks(s: seq<char>): (r: seq<char>)
    ensures IsSuffix(r, s)
    ensures !("<br>" <= SkipWs(r))
    decreases |s|
  {
    var u := SkipWs(s);
    if "<br>" <= u then
      SuffixTrans(u[4..], u, s);
      var r := SkipBreaks(u[4..]);
      SuffixTrans(r, u[4..], s);
      r
    else s
  }

  /** `Parametrization::parse`: `many1` of bounds, each followed by any
      breaks. nom's guard against an element that consumes nothing cannot
      fire: every bound consumes its generic argument. */
  function ParseParametrization(s: seq<char>): (r: Res<seq<Bound>>)
    ensures Advances(r, s)
    ensures r.Ok? ==> |r.value| > 0
  {
    match ParseBound(s)
    case Error => Error
    case Failure => Failure
    case Ok(r1, b) =>
      var r2 := SkipBreaks(r1);
      SuffixTrans(r2, r1, s);
      match BoundsMore(r2)
      case Error => Error
      case Failure => Failure
      case Ok(r3, bs) =>
        SuffixTrans(r3, r2, s);
        Ok(r3, [b] + bs)
  }

  /** The later repetitions of `many1`: a bound that fails with `Error`
      ends the list. */
  function BoundsMore(s: seq<char>): (r: Res<seq<Bound>>)
    decreases |s|
    ensures !r.Error? && Consumes(r, s)
  {
    match ParseBound(s)
    case Error => Ok(s, [])
    case Failure => Failure
    case Ok(r1, b) =>
      var r2 := SkipBreaks(r1);
      SuffixTrans(r2, r1, s);
      match BoundsMore(r2)
      case Error => Error
      case Failure => Failure
      case Ok(r3, bs) =>
        SuffixTrans(r3, r2, s);
        Ok(r3, [b] + bs)
  }

  /** `Display for Parametrization`: one indented line per bound, with a
      comma after all but the last. */
  function ParamText(bs: seq<Bound>): seq<char>
  {
    if bs == [] then []
    else "    " + BoundText(bs[0]) + (if |bs| == 1 then "" else ",") + "\n" + ParamText(bs[1..])
  }

  /** Each bound on its own indented line ending in a comma. */
  function CommaLines(bs: seq<Bound>): seq<char>
  {
    if bs == [] then [] else "    " + BoundText(bs[0]) + "," + "\n" + CommaLines(bs[1..])
  }

  /** The display puts a comma after every bound except the last one. */
  lemma {:induction false} ParamTextSnoc(bs: seq<Bound>, b: Bound)
    ensures ParamText(bs + [b]) == CommaLines(bs) + ("    " + BoundText(b) + "\n")
    decreases |bs|
  {
    if bs == [] {
      ParamTextOne(b);
    } else {
      var c := bs + [b];
      assert c[0] == bs[0] && c[1..] == bs[1..] + [b];
      ParamTextSnoc(bs[1..], b);
      ParamTextCons(c);
      Regroup("    " + BoundText(bs[0]) + "," + "\n", CommaLines(bs[1..]), "    " + BoundText(b) + "\n");
    }
  }

  lemma ParamTextOne(b: Bound)
    ensures ParamText([b]) == [] + ("    " + BoundText(b) + "\n")
  {
    assert [b][1..] == [];
  }

  lemma ParamTextCons(c: seq<Bound>)
    requires |c| > 1
    ensures ParamText(c) == "    " + BoundText(c[0]) + "," + "\n" + ParamText(c[1..])
  {
  }

  lemma Regroup(x: seq<char>, y: seq<char>, z: seq<char>)
    ensures x + (y + z) == (x + y) + z
  {
  }

  datatype OverloadRow = OverloadRow(algorithmAttr: seq<char>, parametrization: seq<Bound>, fnDecl: FnDecls.FnDecl)

  predicate NotQuote(c: char)
  {
    c != '"'
  }

  /** `<tr algorithm="`, the label up to the next `"`, and `">`. */
  function ParseLabel(s: seq<char>): (r: Res<seq<char>>)
    ensures Advances(r, s) && !r.Failure?
    ensures r.Ok? ==> forall i :: 0 <= i < |r.value| ==> r.value[i] != '"'
    ensures r.Ok? ==> s == "<tr algorithm=\"" + r.value + "\">" + r.rest
  {
    if !("<tr algorithm=\"" <= s) then Error
    else
      var t := s[15..];
      var n := Span(NotQuote, t);
      var r0 := t[n..];
      if "\">" <= r0 then
        assert s == "<tr algorithm=\"" + t[..n] + "\">" + r0[2..];
        SuffixOfConcat("<tr algorithm=\"" + t[..n] + "\">", r0[2..]);
        Ok(r0[2..], t[..n])
      else Error
  }

  /** Blanks, the tag `t`, blanks: where the next part starts, if `t` is
      there. */
  function Opening(t: seq<char>, s: seq<char>): (r: Res<()>)
    ensures Advances(r, s) || t == []
    ensures Consumes(r, s) && !r.Failure?
    ensures r.Ok? <==> t <= SkipWs(s)
  {
    var u := SkipWs(s);
    if t <= u then
      SuffixTrans(u[|t|..], u, s);
      SuffixTrans(SkipWs(u[|t|..]), u[|t|..], s);
      Ok(SkipWs(u[|t|..]), ())
    else Error
  }

  /** `ws0_then(preceded(tag("<td>"), ws0_then(Parametrization::parse)))`. */
  function ParamsCell(s: seq<char>): (r: Res<seq<Bound>>)
    ensures Consumes(r, s)
  {
    match Opening("<td>", s)
    case Error => Error
    case Failure => Error
    case Ok(r1, _) =>
      match ParseParametrization(r1)
      case Error => Error
      case Failure => Failure
      case Ok(r2, ps) =>
        SuffixTrans(r2, r1, s);
        Ok(r2, ps)
  }

  /** `ws0_then(preceded(tag("<td>"), ws0_then(<xmp highlight=rust>, a
      signature after blanks, blanks and </xmp>)))`. */
  function DeclCell(s: seq<char>): (r: Res<FnDecls.FnDecl>)
    ensures Consumes(r, s)
  {
    match Opening("<td>", s)
    case Error => Error
    case Failure => Error
    case Ok(r1, _) =>
      match Opening("<xmp highlight=rust>", r1)
      case Error => Error
      case Failure => Error
      case Ok(r2, _) =>
        match FnDecls.Parse(r2)
        case Error => Error
        case Failure => Failure
        case Ok(r3, d) =>
          var x := SkipWs(r3);
          if "</xmp>" <= x then
            SuffixTrans(r2, r1, s);
            SuffixTrans(r3, r2, s);
            SuffixTrans(x, r3, s);
            SuffixTrans(x[6..], x, s);
            Ok(x[6..], d)
          else Error
  }

  /** `OverloadRow::parse`: the label, then the cell of bounds, then the
      cell holding the signature. Nothing here commits, but a committed
      failure inside a part propagates. */
  function ParseRow(s: seq<char>): (r: Res<OverloadRow>)
    ensures Advances(r, s)
  {
    match ParseLabel(s)
    case Error => Error
    case Failure => Error
    case Ok(r1, attr) =>
      match ParamsCell(r1)
      case Error => Error
      case Failure => Failure
      case Ok(r2, ps) =>
        match DeclCell(r2)
        case Error => Error
        case Failure => Failure
        case Ok(r3, d) =>
          SuffixTrans(r3, r2, r1);
          SuffixTrans(r3, r1, s);
          Ok(r3, OverloadRow(attr, ps, d))
  }

  /** `Display for OverloadRow`: the label as an attribute, the signature,
      ` where`, the bounds and `;`. */
  function RowText(o: OverloadRow): seq<char>
  {
    "#[" + o.algorithmAttr + "]\n" + FnDecls.Text(o.fnDecl) + " where\n" + ParamText(o.parametrization) + ";\n"
  }

  /** The label is the text between `#[` and the first `]`, so rows that
      display alike carry the same label when labels contain no `]`. */
  lemma RowTextLabel(o1: OverloadRow, o2: OverloadRow)
    requires forall i :: 0 <= i < |o1.algorithmAttr| ==> o1.algorithmAttr[i] != ']'
    requires forall i :: 0 <= i < |o2.algorithmAttr| ==> o2.algorithmAttr[i] != ']'
    requires RowText(o1) == RowText(o2)
    ensures o1.algorithmAttr == o2.algorithmAttr
  {
    var y1 := RowTextSplit(o1);
    var y2 := RowTextSplit(o2);
    var t := RowText(o1);
    assert t[2..] == o1.algorithmAttr + y1;
    assert t[2..] == o2.algorithmAttr + y2;
    FirstClose(o1.algorithmAttr, y1, o2.algorithmAttr, y2);
  }

  /** The row's text is `#[`, the label, then text that starts with `]`. */
  lemma RowTextSplit(o: OverloadRow) returns (y: seq<char>)
    ensures RowText(o) == "#[" + (o.algorithmAttr + y) && |y| > 0 && y[0] == ']'
  {
    var f := FnDecls.Text(o.fnDecl);
    var q := ParamText(o.parametrization);
    y := "]\n" + f + " where\n" + q + ";\n";
    Reassoc("#[", o.algorithmAttr, "]\n", f, " where\n", q, ";\n");
  }

  /** The display of a row lays its parts out one after the other: the
      label line, the declaration's text as `FnDecls.Text` writes it, the
      ` where` line, the parametrization's text as `ParamText` writes it,
      and the closing `;`. */
  lemma RowTextLayout(o: OverloadRow)
    ensures var t, a, f, q := RowText(o), o.algorithmAttr, FnDecls.Text(o.fnDecl), ParamText(o.parametrization);
      var h := |a| + 4;
      && |t| == h + |f| + 7 + |q| + 2
      && t[..2] == "#[" && t[2..|a| + 2] == a && t[|a| + 2..h] == "]\n"
      && t[h..h + |f|] == f
      && t[h + |f|..h + |f| + 7] == " where\n"
      && t[h + |f| + 7..h + |f| + 7 + |q|] == q
      && t[h + |f| + 7 + |q|..] == ";\n"
  {
    var a, f, q := o.algorithmAttr, FnDecls.Text(o.fnDecl), ParamText(o.parametrization);
    var p1 := "#[" + a;
    var p2 := p1 + "]\n";
    var p3 := p2 + f;
    var p4 := p3 + " where\n";
    var p5 := p4 + q;
    Piece([], "#[", a + "]\n" + f + " where\n" + q + ";\n");
    Piece("#[", a, "]\n" + f + " where\n" + q + ";\n");
    Piece(p1, "]\n", f + " where\n" + q + ";\n");
    Piece(p2, f, " where\n" + q + ";\n");
    Piece(p3, " where\n", q + ";\n");
    Piece(p4, q, ";\n");
    Piece(p5, ";\n", []);
    Reassoc6("#[", a, "]\n", f, " where\n", q, ";\n");
  }

  /** A piece between a prefix and a suffix is the slice at its place. */
  lemma Piece(p: seq<char>, x: seq<char>, z: seq<char>)
    ensures (p + x + z)[|p|..|p| + |x|] == x && p + x + z == p + (x + z)
  {
    assert forall i :: 0 <= i < |x| ==> (p + x + z)[|p| + i] == x[i];
  }

  lemma Reassoc6(h: seq<char>, a: seq<char>, b: seq<char>, c: seq<char>, d: seq<char>, e: seq<char>, f: seq<char>)
    ensures h + a + b + c + d + e + f == h + a + (b + c + d + e + f)
    ensures h + a + b + c + d + e + f == h + a + b + (c + d + e + f)
    ensures h + a + b + c + d + e + f == h + a + b + c + (d + e + f)
    ensures h + a + b + c + d + e + f == h + a + b + c + d + (e + f)
    ensures h + a + b + c + d + e + f == h + a + b + c + d + e + (f + [])
    ensures h + a + b + c + d + e + f == [] + h + (a + b + c + d + e + f)
  {
  }

  lemma Reassoc(h: seq<char>, a: seq<char>, b: seq<char>, c: seq<char>, d: seq<char>, e: seq<char>, f: seq<char>)
    ensures h + a + b + c + d + e + f == h + (a + (b + c + d + e + f))
  {
  }

  lemma FirstClose(a1: seq<char>, y1: seq<char>, a2: seq<char>, y2: seq<char>)
    requires forall i :: 0 <= i < |a1| ==> a1[i] != ']'
    requires forall i :: 0 <= i < |a2| ==> a2[i] != ']'
    requires |y1| > 0 && y1[0] == ']' && |y2| > 0 && y2[0] == ']'
    requires a1 + y1 == a2 + y2
    ensures a1 == a2
  {
    var t := a1 + y1;
    assert forall k :: 0 <= k < |a1| ==> t[k] == a1[k];
    assert forall k :: 0 <= k < |a2| ==> t[k] == a2[k];
    assert t[|a1|] == ']' && t[|a2|] == ']';
    assert |a1| == |a2|;
    assert a1 == t[..|a1|] == a2;
  }

  // ---------------------------------------------------------------------
  // The forms of a generic argument
  // ---------------------------------------------------------------------

  /** A run of whitespace characters, possibly empty. */
  predicate Blank(w: seq<char>)
  {
    forall i :: 0 <= i < |w| ==> IsWhitespace(w[i])
  }

  /** An identifier followed by a character that cannot extend it. */
  lemma IdentThen(x: seq<char>, y: seq<char>)
    requires IsIdent(x) && (y == [] || !IsIdentChar(y[0]))
    ensures SkipWs(x + y) == x + y && Idents.Parse(x + y) == Ok(y, x)
    ensures !("|" <= x + y) && !("<" <= x + y)
  {
    assert (x + y)[0] == x[0];
    SkipWsNone(x + y);
    IdentifierOf(x, y);
  }

  /** Blanks in front of text that does not start with a blank. */
  lemma Skipped(w: seq<char>, y: seq<char>)
    requires Blank(w) && (y == [] || !IsWhitespace(y[0]))
    ensures SkipWs(w + y) == y
  {
    SkipWsAppend(w, y);
    SkipWsNone(y);
  }

  /** `X`, then text that cannot extend it. */
  lemma BareOf(x: seq<char>, y: seq<char>)
    requires IsIdent(x) && (y == [] || !IsIdentChar(y[0]))
    ensures ParseBarred(x + y) == Ok(y, x)
  {
    IdentThen(x, y);
  }

  /** `|X|`, with blanks allowed after the opening bar. */
  lemma BarredOf(w: seq<char>, x: seq<char>, y: seq<char>)
    requires Blank(w) && IsIdent(x)
    ensures ParseBarred("|" + (w + (x + ("|" + y)))) == Ok(y, x)
  {
    var s := "|" + (w + (x + ("|" + y)));
    assert s[1..] == w + (x + ("|" + y));
    IdentThen(x, "|" + y);
    Skipped(w, x + ("|" + y));
  }

  /** `<var ignore>`, an `ident()` form read from `m`, blanks and `</var>`. */
  lemma VarWrapped(w: seq<char>, w2: seq<char>, m: seq<char>, w3: seq<char>, rest: seq<char>, x: seq<char>)
    requires Blank(w) && Blank(w2) && Blank(w3)
    requires m == [] || !IsWhitespace(m[0])
    requires ParseBarred(m) == Ok(w3 + ("</var>" + rest), x)
    ensures ParseGenericArg(w + ("<var ignore>" + (w2 + m))) == Ok(rest, x)
  {
    var e := "<var ignore>" + (w2 + m);
    VarText(w2 + m);
    Skipped(w, e);
    Skipped(w2, m);
    CloseVar(w3, rest);
    VarStep(w + e, e, m, w3 + ("</var>" + rest), x);
  }

  lemma VarText(y: seq<char>)
    ensures var e := "<var ignore>" + y;
      "<var ignore>" <= e && e[12..] == y && e[0] == '<' && !IsWhitespace(e[0])
  {
  }

  lemma CloseVar(w3: seq<char>, rest: seq<char>)
    requires Blank(w3)
    ensures SkipWs(w3 + ("</var>" + rest)) == "</var>" + rest
    ensures "</var>" <= "</var>" + rest && ("</var>" + rest)[6..] == rest
  {
    Skipped(w3, "</var>" + rest);
  }

  /** The first alternative of `parse_generic_arg`, as its stages. */
  lemma VarStep(s: seq<char>, u: seq<char>, v: seq<char>, r1: seq<char>, x: seq<char>)
    requires SkipWs(s) == u && "<var ignore>" <= u && SkipWs(u[12..]) == v
    requires ParseBarred(v) == Ok(r1, x) && "</var>" <= SkipWs(r1)
    ensures ParseGenericArg(s) == Ok(SkipWs(r1)[6..], x)
  {
  }

  /** The first alternative, committed: `ident()` fails after `<var ignore>`. */
  lemma VarFails(s: seq<char>, u: seq<char>, v: seq<char>)
    requires SkipWs(s) == u && "<var ignore>" <= u && SkipWs(u[12..]) == v
    requires !ParseBarred(v).Ok?
    ensures ParseGenericArg(s).Failure?
  {
  }

  /** The second alternative, when `<var ignore>` is not there. */
  lemma FallbackStep(s: seq<char>, u: seq<char>)
    requires SkipWs(s) == u && !("<var ignore>" <= u)
    ensures ParseGenericArg(s) == ParseBarred(u)
  {
  }

  /** `parse_generic_arg` accepts `<var ignore>X</var>`, `<var ignore>|X|</var>`,
      `|X|` and a bare `X`, each after blanks and with blanks where the
      grammar allows them, and keeps only `X`. */
  lemma GenericArgForms(w: seq<char>, w2: seq<char>, w3: seq<char>, x: seq<char>, rest: seq<char>)
    requires Blank(w) && Blank(w2) && Blank(w3) && IsIdent(x)
    ensures ParseGenericArg(w + ("<var ignore>" + (w2 + (x + (w3 + ("</var>" + rest)))))) == Ok(rest, x)
    ensures ParseGenericArg(w + ("<var ignore>" + (w2 + ("|" + (w2 + (x + ("|" + (w3 + ("</var>" + rest))))))))) == Ok(rest, x)
    ensures ParseGenericArg(w + ("|" + (w2 + (x + ("|" + rest))))) == Ok(rest, x)
    ensures rest == [] || !IsIdentChar(rest[0]) ==> ParseGenericArg(w + (x + rest)) == Ok(rest, x)
  {
    var t := w3 + ("</var>" + rest);
    VarAfterIdent(w3, rest);
    BareOf(x, t);
    IdentThen(x, t);
    VarWrapped(w, w2, x + t, w3, rest, x);
    BarredOf(w2, x, t);
    BarText(w2 + (x + ("|" + t)));
    VarWrapped(w, w2, "|" + (w2 + (x + ("|" + t))), w3, rest, x);
    var b := "|" + (w2 + (x + ("|" + rest)));
    BarredOf(w2, x, rest);
    BarText(w2 + (x + ("|" + rest)));
    Skipped(w, b);
    FallbackStep(w + b, b);
    if rest == [] || !IsIdentChar(rest[0]) {
      BareOf(x, rest);
      IdentThen(x, rest);
      Skipped(w, x + rest);
      FallbackStep(w + (x + rest), x + rest);
    }
  }

  lemma VarAfterIdent(w3: seq<char>, rest: seq<char>)
    requires Blank(w3)
    ensures var t := w3 + ("</var>" + rest); t != [] && !IsIdentChar(t[0])
  {
    var t := w3 + ("</var>" + rest);
    if w3 == [] { assert t[0] == '<'; } else { assert t[0] == w3[0]; }
  }

  lemma BarText(y: seq<char>)
    ensures var b := "|" + y;
      "|" <= b && b[1..] == y && !IsWhitespace(b[0]) && !("<var ignore>" <= b)
  {
  }

  /** Once `<var ignore>` or an opening bar is read, a missing identifier
      is a committed failure. */
  lemma GenericArgCommits(w: seq<char>, w2: seq<char>, y: seq<char>)
    requires Blank(w) && Blank(w2)
    requires y == [] || (!IsWhitespace(y[0]) && !IsIdentStart(y[0]) && y[0] != '|')
    ensures ParseGenericArg(w + ("<var ignore>" + (w2 + y))).Failure?
    ensures ParseGenericArg(w + ("|" + (w2 + y))).Failure?
    ensures ParseGenericArg(w + ("<var ignore>" + (w2 + ("|" + (w2 + y))))).Failure?
  {
    Skipped(w2, y);
    assert !Idents.Parse(y).Ok?;
    assert !ParseBarred(y).Ok?;
    var e := "<var ignore>" + (w2 + y);
    VarText(w2 + y);
    Skipped(w, e);
    VarFails(w + e, e, y);
    var b := "|" + (w2 + y);
    BarText(w2 + y);
    Skipped(w, b);
    FallbackStep(w + b, b);
    var f := "<var ignore>" + (w2 + b);
    VarText(w2 + b);
    Skipped(w, f);
    Skipped(w2, b);
    VarFails(w + f, f, b);
  }

  // ---------------------------------------------------------------------
  // Union lists as the specification writes them
  // ---------------------------------------------------------------------

  /** How a variant is written: `[=T=]` or `` `T` ``. */
  datatype Wrapping = InBrackets | InBackquotes

  /** How two variants are separated: `, or `, `, ` or ` or `. */
  datatype Separator = CommaOr | Comma | Or

  function ItemSpelling(w: Wrapping, t: Ty): seq<char>
  {
    match w
    case InBrackets => "[=" + (Render(t) + ("=]"))
    case InBackquotes => "`" + (Render(t) + "`")
  }

  function SepSpelling(sep: Separator): seq<char>
  {
    match sep
    case CommaOr => ", or "
    case Comma => ", "
    case Or => " or "
  }

  /** The variants after the first, each preceded by its separator. */
  function SpelledMore(ts: seq<Ty>, ws: seq<Wrapping>, seps: seq<Separator>): seq<char>
    requires |ts| == |ws| == |seps|
  {
    if ts == [] then []
    else SepSpelling(seps[0]) + (ItemSpelling(ws[0], ts[0]) + SpelledMore(ts[1..], ws[1..], seps[1..]))
  }

  /** A union list: the first variant, then the others with separators. */
  function Spelled(ts: seq<Ty>, ws: seq<Wrapping>, seps: seq<Separator>): seq<char>
    requires |ts| == |ws| == |seps| + 1
  {
    ItemSpelling(ws[0], ts[0]) + SpelledMore(ts[1..], ws[1..], seps)
  }

  predicate AllWellFormed(ts: seq<Ty>)
  {
    forall i :: 0 <= i < |ts| ==> WellFormed(ts[i])
  }

  /** A written variant is read back, whatever follows it. */
  lemma ItemOf(w: Wrapping, t: Ty, y: seq<char>)
    requires WellFormed(t)
    ensures UnionItem(ItemSpelling(w, t) + y) == Ok(y, t)
  {
    match w
    case InBrackets =>
      var e := "=]" + y;
      BracketText(Render(t), y);
      CloseBoundary(e);
      ParseRender(t, e);
      ItemBracketStep(ItemSpelling(w, t) + y, Render(t) + e, e, t);
    case InBackquotes =>
      var e := "`" + y;
      BackquoteText(Render(t), y);
      CloseBoundary(e);
      ParseRender(t, e);
      ItemBackquoteStep(ItemSpelling(w, t) + y, Render(t) + e, e, t);
  }

  lemma BracketText(x: seq<char>, y: seq<char>)
    ensures var s := "[=" + (x + ("=]")) + y;
      s == "[=" + (x + ("=]" + y)) && SkipWs(s) == s && "[=" <= s && s[2..] == x + ("=]" + y)
      && "=]" <= "=]" + y && ("=]" + y)[2..] == y
  {
    var s := "[=" + (x + ("=]")) + y;
    SkipWsNone(s);
  }

  lemma BackquoteText(x: seq<char>, y: seq<char>)
    ensures var s := "`" + (x + "`") + y;
      s == "`" + (x + ("`" + y)) && SkipWs(s) == s && !("[=" <= s) && "`" <= s && s[1..] == x + ("`" + y)
      && "`" <= "`" + y && ("`" + y)[1..] == y
  {
    var s := "`" + (x + "`") + y;
    SkipWsNone(s);
  }

  /** `=` and a backquote end a type. */
  lemma CloseBoundary(e: seq<char>)
    requires |e| > 0 && (e[0] == '=' || e[0] == '`')
    ensures Boundary(e)
  {
    SkipWsNone(e);
  }

  lemma ItemBracketStep(s: seq<char>, m: seq<char>, e: seq<char>, t: Ty)
    requires SkipWs(s) == s && "[=" <= s && s[2..] == m && ParseTy(m) == Ok(e, t)
    requires "=]" <= e
    ensures UnionItem(s) == Ok(e[2..], t)
  {
  }

  lemma ItemBackquoteStep(s: seq<char>, m: seq<char>, e: seq<char>, t: Ty)
    requires SkipWs(s) == s && !("[=" <= s) && "`" <= s && s[1..] == m && ParseTy(m) == Ok(e, t)
    requires "`" <= e
    ensures UnionItem(s) == Ok(e[1..], t)
  {
  }

  /** What a separator leaves for the next variant: the blank after a lone
      comma (it is skipped by the variant). */
  function SepLeftover(sep: Separator): seq<char>
  {
    if sep == Comma then " " else ""
  }

  /** A separator in front of a written variant is consumed. */
  lemma SepOf(sep: Separator, x: seq<char>)
    requires |x| > 0 && (x[0] == '[' || x[0] == '`')
    ensures UnionSep(SepSpelling(sep) + x) == Ok(SepLeftover(sep) + x, ())
  {
    match sep
    case CommaOr => SepCommaOr(x);
    case Comma => SepComma(x);
    case Or => SepOr(x);
  }

  lemma SepCommaOr(x: seq<char>)
    requires |x| > 0 && (x[0] == '[' || x[0] == '`')
    ensures UnionSep(", or " + x) == Ok("" + x, ())
  {
    SepCommaOrStep(", or " + x, x);
    assert "" + x == x;
  }

  lemma SepCommaOrStep(s: seq<char>, x: seq<char>)
    requires s == ", or " + x && |x| > 0 && (x[0] == '[' || x[0] == '`')
    ensures UnionSep(s) == Ok(x, ())
  {
    SkipWsNone(x);
    CommaOrText(x);
    SkipWsNone(s);
    CommaOrStep(s, "or " + x, x);
  }

  lemma SepComma(x: seq<char>)
    requires |x| > 0 && (x[0] == '[' || x[0] == '`')
    ensures UnionSep(", " + x) == Ok(" " + x, ())
  {
    var s := ", " + x;
    SkipWsNone(x);
    CommaText(x);
    SkipWsNone(s);
    CommaStep(s, " " + x);
  }

  lemma SepOr(x: seq<char>)
    requires |x| > 0 && (x[0] == '[' || x[0] == '`')
    ensures UnionSep(" or " + x) == Ok("" + x, ())
  {
    var s := " or " + x;
    SkipWsNone(x);
    OrText(x);
    OrStep(s, "or " + x, x);
    assert "" + x == x;
  }

  lemma CommaOrText(x: seq<char>)
    requires x == [] || !IsWhitespace(x[0])
    ensures var s := ", or " + x;
      "," <= s && s[1..] == " " + ("or " + x) && SkipWs(" " + ("or " + x)) == "or " + x
      && ("or " + x)[2..] == " " + x && SkipWs(" " + x) == x && IsWhitespace(("or " + x)[2])
      && !IsWhitespace(s[0])
  {
    var o := "or " + x;
    assert ", or " + x == "," + (" " + o);
    CommaBlank(o);
    OrBlank(x);
  }

  lemma CommaBlank(o: seq<char>)
    requires o == [] || !IsWhitespace(o[0])
    ensures var s := "," + (" " + o);
      "," <= s && s[1..] == " " + o && SkipWs(" " + o) == o && !IsWhitespace(s[0])
  {
    Skipped(" ", o);
  }

  lemma OrBlank(x: seq<char>)
    requires x == [] || !IsWhitespace(x[0])
    ensures var o := "or " + x;
      o[2..] == " " + x && SkipWs(" " + x) == x && IsWhitespace(o[2]) && !IsWhitespace(o[0])
  {
    Skipped(" ", x);
  }

  lemma CommaText(x: seq<char>)
    requires x == [] || !IsWhitespace(x[0])
    ensures var s := ", " + x;
      "," <= s && s[1..] == " " + x && SkipWs(" " + x) == x && !IsWhitespace(s[0])
  {
    Skipped(" ", x);
  }

  lemma OrText(x: seq<char>)
    requires x == [] || !IsWhitespace(x[0])
    ensures var s := " or " + x;
      SkipWs(s) == "or " + x && !("," <= "or " + x) && "or" <= "or " + x
      && ("or " + x)[2..] == " " + x && SkipWs(" " + x) == x && IsWhitespace(("or " + x)[2])
  {
    OrFront(x);
    OrBack(x);
  }

  lemma OrFront(x: seq<char>)
    ensures SkipWs(" or " + x) == "or " + x && !("," <= "or " + x) && "or" <= "or " + x
  {
    var u := "or " + x;
    assert " or " + x == " " + u;
    Skipped(" ", u);
  }

  lemma OrBack(x: seq<char>)
    requires x == [] || !IsWhitespace(x[0])
    ensures ("or " + x)[2..] == " " + x && SkipWs(" " + x) == x && IsWhitespace(("or " + x)[2])
  {
    Skipped(" ", x);
  }

  lemma CommaOrStep(s: seq<char>, v: seq<char>, x: seq<char>)
    requires SkipWs(s) == s && "," <= s && SkipWs(s[1..]) == v && "or" <= v && |v| > 2 && IsWhitespace(v[2])
    requires SkipWs(v[2..]) == x
    ensures UnionSep(s) == Ok(x, ())
  {
  }

  lemma CommaStep(s: seq<char>, y: seq<char>)
    requires SkipWs(s) == s && "," <= s && s[1..] == y && !("or" <= SkipWs(y))
    ensures UnionSep(s) == Ok(y, ())
  {
  }

  lemma OrStep(s: seq<char>, u: seq<char>, x: seq<char>)
    requires SkipWs(s) == u && !("," <= u) && "or" <= u && |u| > 2 && IsWhitespace(u[2]) && SkipWs(u[2..]) == x
    ensures UnionSep(s) == Ok(x, ())
  {
  }

  /** `UnionItem` looks only at the text after the blanks. */
  lemma ItemSkips(s1: seq<char>, s2: seq<char>)
    requires SkipWs(s1) == SkipWs(s2)
    ensures UnionItem(s1) == UnionItem(s2)
  {
  }

  lemma ItemStart(w: Wrapping, t: Ty, y: seq<char>)
    ensures var x := ItemSpelling(w, t) + y; |x| > 0 && (x[0] == '[' || x[0] == '`') && !IsWhitespace(x[0])
  {
  }

  /** The leftover of a separator in front of a variant is skipped. */
  lemma LeftoverSkipped(sep: Separator, x: seq<char>)
    requires |x| > 0 && !IsWhitespace(x[0])
    ensures UnionItem(SepLeftover(sep) + x) == UnionItem(x)
  {
    Skipped(SepLeftover(sep), x);
    SkipWsNone(x);
    ItemSkips(SepLeftover(sep) + x, x);
  }

  /** `UnionMore` as its stages: a separator, a variant, the rest. */
  lemma UnionMoreStep(s: seq<char>, x: seq<char>, y: seq<char>, t: Ty, z: seq<char>, more: seq<Ty>)
    requires UnionSep(s) == Ok(x, ()) && UnionItem(x) == Ok(y, t) && UnionMore(y) == Ok(z, more)
    ensures UnionMore(s) == Ok(z, [t] + more)
  {
  }

  /** No separator: the list ends where it is. */
  lemma UnionMoreStop(s: seq<char>)
    requires UnionSep(s).Error?
    ensures UnionMore(s) == Ok(s, [])
  {
  }

  lemma Regroup4(a: seq<char>, b: seq<char>, c: seq<char>, d: seq<char>)
    ensures (a + (b + c)) + d == a + (b + (c + d))
  {
  }

  lemma WellFormedTail(ts: seq<Ty>)
    requires ts != [] && AllWellFormed(ts)
    ensures WellFormed(ts[0]) && AllWellFormed(ts[1..])
  {
    assert forall i :: 0 <= i < |ts| - 1 ==> ts[1..][i] == ts[i + 1];
  }

  /** The later variants of a written union list are read back in order,
      duplicates included, and the list stops where no separator follows. */
  lemma {:induction false} UnionMoreOf(ts: seq<Ty>, ws: seq<Wrapping>, seps: seq<Separator>, rest: seq<char>)
    requires |ts| == |ws| == |seps| && AllWellFormed(ts) && UnionSep(rest).Error?
    ensures UnionMore(SpelledMore(ts, ws, seps) + rest) == Ok(rest, ts)
    decreases |ts|
  {
    if ts == [] {
      assert SpelledMore(ts, ws, seps) + rest == rest;
      UnionMoreStop(rest);
    } else {
      WellFormedTail(ts);
      UnionMoreOf(ts[1..], ws[1..], seps[1..], rest);
      var tail := SpelledMore(ts[1..], ws[1..], seps[1..]) + rest;
      var item := ItemSpelling(ws[0], ts[0]);
      Regroup4(SepSpelling(seps[0]), item, SpelledMore(ts[1..], ws[1..], seps[1..]), rest);
      ItemStart(ws[0], ts[0], tail);
      SepOf(seps[0], item + tail);
      ItemOf(ws[0], ts[0], tail);
      LeftoverSkipped(seps[0], item + tail);
      UnionMoreStep(SepSpelling(seps[0]) + (item + tail), SepLeftover(seps[0]) + (item + tail), tail, ts[0], rest, ts[1..]);
      Uncons(ts);
    }
  }

  /** `UnionBound::parse` reads a written union list back: one variant per
      written one, in the written order, duplicates kept. */
  lemma UnionOf(ts: seq<Ty>, ws: seq<Wrapping>, seps: seq<Separator>, rest: seq<char>)
    requires |ts| == |ws| == |seps| + 1 && AllWellFormed(ts) && UnionSep(rest).Error?
    ensures ParseUnion(Spelled(ts, ws, seps) + rest) == Ok(rest, UnionBound(ts))
  {
    WellFormedTail(ts);
    var tail := SpelledMore(ts[1..], ws[1..], seps) + rest;
    UnionMoreOf(ts[1..], ws[1..], seps, rest);
    ItemOf(ws[0], ts[0], tail);
    FnDecls.Regroup(ItemSpelling(ws[0], ts[0]), SpelledMore(ts[1..], ws[1..], seps), rest);
    Uncons(ts);
  }

  /** A `[=` that is not directly followed by a type commits the union:
      blanks inside the brackets are not allowed. */
  lemma UnionCommits(w: seq<char>, y: seq<char>)
    requires Blank(w) && (y == [] || !IsIdentStart(y[0]))
    ensures ParseUnion(w + ("[=" + y)).Failure?
  {
    var e := "[=" + y;
    Skipped(w, e);
    assert e[2..] == y;
    assert ParseTy(y).Error?;
  }

  // ---------------------------------------------------------------------
  // Which kind of bound is read
  // ---------------------------------------------------------------------

  /** `is` and blanks in front of text that does not start with a blank. */
  lemma IsWordOf(w1: seq<char>, y: seq<char>)
    requires Blank(w1) && |w1| > 0 && (y == [] || !IsWhitespace(y[0]))
    ensures IsWord("is" + (w1 + y)) == Ok(y, ())
  {
    var u := "is" + (w1 + y);
    SkipWsNone(u);
    assert u[2..] == w1 + y && u[2] == w1[0];
    Skipped(w1, y);
  }

  /** `a` or `an` before a blank. */
  lemma ArticleOf(art: seq<char>, y: seq<char>)
    requires art == "a" || art == "an"
    requires |y| > 0 && IsWhitespace(y[0])
    ensures Article(art + y) == Ok(y, ())
  {
    var u := art + y;
    SkipWsNone(u);
    if art == "a" {
      assert u[1] == y[0];
      assert u[1..] == y;
    } else {
      assert u[2..] == y;
    }
  }

  /** Blanks and a trait name. */
  lemma TraitBoundOf(w2: seq<char>, n: seq<char>, rest: seq<char>)
    requires Blank(w2) && |w2| > 0
    requires |n| > 0 && forall i :: 0 <= i < |n| ==> IsTraitChar(n[i])
    ensures ParseTraitBound(w2 + ("[=" + n + "=]" + rest)) == Ok(rest, TraitBound(n))
  {
    var t := "[=" + n + "=]" + rest;
    assert t[0] == '[';
    Skipped(w2, t);
    TraitNameOf(n, rest);
  }

  lemma TraitAltStep(v: seq<char>, r1: seq<char>, r2: seq<char>, r3: seq<char>, t: TraitBound)
    requires IsWord(v) == Ok(r1, ()) && Article(r1) == Ok(r2, ()) && ParseTraitBound(r2) == Ok(r3, t)
    ensures TraitAlt(v) == Ok(r3, Trait(t))
  {
  }

  lemma TraitAltCommits(v: seq<char>, r1: seq<char>, r2: seq<char>)
    requires IsWord(v) == Ok(r1, ()) && Article(r1) == Ok(r2, ()) && !ParseTraitBound(r2).Ok?
    ensures TraitAlt(v).Failure?
  {
  }

  lemma TraitAltNoArticle(v: seq<char>, r1: seq<char>)
    requires IsWord(v) == Ok(r1, ()) && Article(r1).Error?
    ensures TraitAlt(v).Error?
  {
  }

  lemma UnionAltStep(v: seq<char>, r1: seq<char>, r2: seq<char>, u: UnionBound)
    requires IsWord(v) == Ok(r1, ()) && ParseUnion(r1) == Ok(r2, u)
    ensures UnionAlt(v) == Ok(r2, Union(u))
  {
  }

  lemma KindFirst(s: seq<char>, v: seq<char>, r: Res<BoundKind>)
    requires SkipWs(s) == v && TraitAlt(v) == r && !r.Error?
    ensures ParseBoundKind(s) == r
  {
  }

  lemma KindSecond(s: seq<char>, v: seq<char>, r: Res<BoundKind>)
    requires SkipWs(s) == v && TraitAlt(v).Error? && UnionAlt(v) == r && !r.Error?
    ensures ParseBoundKind(s) == r
  {
  }

  lemma KindThird(s: seq<char>, v: seq<char>)
    requires SkipWs(s) == v && TraitAlt(v).Error? && UnionAlt(v).Error?
    ensures ParseBoundKind(s) == ProseAlt(v)
  {
  }

  /** `is a [=name=]` and `is an [=name=]` give a trait bound. */
  lemma KindTraitOf(w: seq<char>, w1: seq<char>, art: seq<char>, w2: seq<char>, n: seq<char>, rest: seq<char>)
    requires Blank(w) && Blank(w1) && |w1| > 0 && Blank(w2) && |w2| > 0
    requires art == "a" || art == "an"
    requires |n| > 0 && forall i :: 0 <= i < |n| ==> IsTraitChar(n[i])
    ensures ParseBoundKind(w + ("is" + (w1 + (art + (w2 + ("[=" + n + "=]" + rest)))))) == Ok(rest, Trait(TraitBound(n)))
  {
    var t := "[=" + n + "=]" + rest;
    var a := art + (w2 + t);
    var v := "is" + (w1 + a);
    assert a[0] == art[0];
    IsWordOf(w1, a);
    ArticleOf(art, w2 + t);
    TraitBoundOf(w2, n, rest);
    TraitAltStep(v, a, w2 + t, rest, TraitBound(n));
    assert v[0] == 'i';
    Skipped(w, v);
    KindFirst(w + v, v, Ok(rest, Trait(TraitBound(n))));
  }

  /** After `is a` or `is an`, anything but blanks and a well-formed trait
      name is a committed failure: the union and prose readings are not
      tried. */
  lemma KindTraitCommits(w: seq<char>, w1: seq<char>, art: seq<char>, y: seq<char>)
    requires Blank(w) && Blank(w1) && |w1| > 0
    requires art == "a" || art == "an"
    requires !ParseTraitBound(y).Ok?
    requires art == "a" ==> (y == [] || y[0] != 'n')
    ensures ParseBoundKind(w + ("is" + (w1 + (art + y)))).Failure?
  {
    var a := art + y;
    var v := "is" + (w1 + a);
    assert a[0] == art[0];
    IsWordOf(w1, a);
    ArticleAny(art, y);
    TraitAltCommits(v, a, y);
    assert v[0] == 'i';
    Skipped(w, v);
    KindFirst(w + v, v, TraitAlt(v));
  }

  /** `a` or `an` is consumed whatever follows, except that `a` followed by
      `n` is read as `an`. */
  lemma ArticleAny(art: seq<char>, y: seq<char>)
    requires art == "a" || art == "an"
    requires art == "a" ==> (y == [] || y[0] != 'n')
    ensures Article(art + y) == Ok(y, ())
  {
    var u := art + y;
    SkipWsNone(u);
    if art == "a" {
      assert |u| == 1 || u[1] == y[0];
      assert !("an" <= u);
      assert u[1..] == y;
    } else {
      assert u[2..] == y;
    }
  }

  /** `is` and a written union list give a union bound. */
  lemma KindUnionOf(w: seq<char>, w1: seq<char>, ts: seq<Ty>, ws: seq<Wrapping>, seps: seq<Separator>, rest: seq<char>)
    requires Blank(w) && Blank(w1) && |w1| > 0
    requires |ts| == |ws| == |seps| + 1 && AllWellFormed(ts) && UnionSep(rest).Error?
    ensures ParseBoundKind(w + ("is" + (w1 + (Spelled(ts, ws, seps) + rest)))) == Ok(rest, Union(UnionBound(ts)))
  {
    SpelledStart(ts, ws, seps, rest);
    UnionOf(ts, ws, seps, rest);
    KindUnionStep(w, w1, Spelled(ts, ws, seps) + rest, rest, UnionBound(ts));
  }

  lemma KindUnionStep(w: seq<char>, w1: seq<char>, a: seq<char>, rest: seq<char>, u: UnionBound)
    requires Blank(w) && Blank(w1) && |w1| > 0
    requires |a| > 0 && (a[0] == '[' || a[0] == '`') && ParseUnion(a) == Ok(rest, u)
    ensures ParseBoundKind(w + ("is" + (w1 + a))) == Ok(rest, Union(u))
  {
    IsWordOf(w1, a);
    IsStart(w1 + a);
    KindUnionAt(w, "is" + (w1 + a), a, rest, u);
  }

  /** The union alternative of the kind, once `is` and its blanks are read. */
  lemma KindUnionAt(w: seq<char>, v: seq<char>, a: seq<char>, rest: seq<char>, u: UnionBound)
    requires Blank(w) && v != [] && !IsWhitespace(v[0]) && IsWord(v) == Ok(a, ())
    requires |a| > 0 && (a[0] == '[' || a[0] == '`') && ParseUnion(a) == Ok(rest, u)
    ensures ParseBoundKind(w + v) == Ok(rest, Union(u))
  {
    var s := w + v;
    Skipped(w, v);
    NoArticle(a);
    UnionReading(v, a, rest, u);
    KindSecond(s, v, Ok(rest, Union(u)));
  }

  lemma UnionReading(v: seq<char>, a: seq<char>, rest: seq<char>, u: UnionBound)
    requires IsWord(v) == Ok(a, ()) && Article(a).Error? && ParseUnion(a) == Ok(rest, u)
    ensures TraitAlt(v).Error? && UnionAlt(v) == Ok(rest, Union(u))
  {
    TraitAltNoArticle(v, a);
    UnionAltStep(v, a, rest, u);
  }

  lemma IsStart(y: seq<char>)
    ensures var v := "is" + y; v != [] && !IsWhitespace(v[0])
  {
  }

  lemma NoArticle(a: seq<char>)
    requires |a| > 0 && !IsWhitespace(a[0]) && a[0] != 'a'
    ensures Article(a).Error?
  {
    SkipWsNone(a);
    assert !("an" <= a) && !("a" <= a);
  }

  lemma SpelledStart(ts: seq<Ty>, ws: seq<Wrapping>, seps: seq<Separator>, rest: seq<char>)
    requires |ts| == |ws| == |seps| + 1
    ensures var a := Spelled(ts, ws, seps) + rest; |a| > 0 && (a[0] == '[' || a[0] == '`')
  {
    ItemStart(ws[0], ts[0], SpelledMore(ts[1..], ws[1..], seps) + rest);
    FnDecls.Regroup(ItemSpelling(ws[0], ts[0]), SpelledMore(ts[1..], ws[1..], seps), rest);
  }

  /** No `<` in the text. */
  predicate NoOpenAngle(p: seq<char>)
  {
    forall i :: 0 <= i < |p| ==> p[i] != '<'
  }

  /** Text without `<` in front of `<br>` or `<td>`: the scan stops exactly
      at the tag. */
  lemma NoAngleAt(p: seq<char>, e: seq<char>, k: nat)
    requires NoOpenAngle(p) && k < |p|
    ensures (p + e)[k..][0] != '<'
  {
    assert (p + e)[k..][0] == p[k];
  }

  lemma ProseScan(p: seq<char>, e: seq<char>)
    requires NoOpenAngle(p) && ("<br>" <= e || "<td>" <= e)
    ensures Misc.TakeUntilMatches(BrOrTd, p + e) == Ok(e, p)
  {
    var s := p + e;
    assert s[|p|..] == e;
    var r := Misc.TakeUntilMatches(BrOrTd, s);
    assert r.Ok?;
    var k := |r.value|;
    assert r.rest == s[k..];
    if k < |p| {
      NoAngleAt(p, e, k);
      assert false;
    }
    if k > |p| {
      assert false;
    }
    assert r.value == s[..k] == p;
  }

  /** Text that is neither a trait nor a union bound, up to the next
      `<br>` or `<td>`, is kept as prose: trimmed and with its whitespace
      runs collapsed. */
  lemma KindProseOf(w: seq<char>, p: seq<char>, e: seq<char>)
    requires Blank(w) && NoOpenAngle(p) && (p == [] || !IsWhitespace(p[0]))
    requires !("is" <= p)
    requires "<br>" <= e || "<td>" <= e
    ensures ParseBoundKind(w + (p + e)) == Ok(e, Prose(Misc.NormalizeWhitespace(Misc.Trim(p))))
  {
    var v := p + e;
    ProseStart(p, e);
    Skipped(w, v);
    assert IsWord(v).Error?;
    assert TraitAlt(v).Error?;
    assert UnionAlt(v).Error?;
    KindThird(w + v, v);
    ProseScan(p, e);
  }

  lemma ProseStart(p: seq<char>, e: seq<char>)
    requires NoOpenAngle(p) && (p == [] || !IsWhitespace(p[0])) && !("is" <= p)
    requires "<br>" <= e || "<td>" <= e
    ensures var v := p + e; v != [] && !IsWhitespace(v[0]) && !("is" <= v)
  {
    var v := p + e;
    if p == [] {
      assert v == e;
    } else {
      assert v[0] == p[0];
      if |p| == 1 { assert v[1] == e[0]; } else { assert v[..2] == p[..2]; }
    }
  }

  /** `Bound::parse` as its stages. */
  lemma BoundStep(s: seq<char>, u: seq<char>, r1: seq<char>, x: Idents.Ident, r2: seq<char>, k: BoundKind)
    requires SkipWs(s) == u && ParseGenericArg(u) == Ok(r1, x) && ParseBoundKind(r1) == Ok(r2, k)
    ensures ParseBound(s) == Ok(r2, Bound(x, k))
  {
  }

  // ---------------------------------------------------------------------
  // Parametrizations keep the written order
  // ---------------------------------------------------------------------

  /** A `<br>` after blanks is skipped, with the breaks after it. */
  lemma BreakOf(w: seq<char>, rest: seq<char>)
    requires Blank(w)
    ensures SkipBreaks(w + ("<br>" + rest)) == SkipBreaks(rest)
  {
    var e := "<br>" + rest;
    assert e[0] == '<';
    Skipped(w, e);
    assert e[4..] == rest;
  }

  /** Without a `<br>` after the blanks nothing is skipped. */
  lemma NoBreak(s: seq<char>)
    requires !("<br>" <= SkipWs(s))
    ensures SkipBreaks(s) == s
  {
  }

  /** `s` starts a bound `b`; with the breaks after it, its text ends where
      `y` starts. */
  predicate BoundLink(s: seq<char>, b: Bound, y: seq<char>)
  {
    var r := ParseBound(s);
    r.Ok? && r.value == b && SkipBreaks(r.rest) == y
  }

  /** Consecutive texts `ss[i]`, `ss[i + 1]` are related by `link` through
      the bound `bs[i]`. */
  predicate Chained(link: (seq<char>, Bound, seq<char>) -> bool, ss: seq<seq<char>>, bs: seq<Bound>)
    decreases |bs|
  {
    && |ss| == |bs| + 1
    && (bs == [] || (link(ss[0], bs[0], ss[1]) && Chained(link, ss[1..], bs[1..])))
  }

  /** `ss[0]`, `ss[1]`, … are the places where the bounds `bs` start, one
      after the other, and `ss[|bs|]` is where the last one ends. */
  predicate Linked(ss: seq<seq<char>>, bs: seq<Bound>)
  {
    Chained(BoundLink, ss, bs)
  }

  lemma BoundsMoreStep(s: seq<char>, b: Bound, y: seq<char>, z: seq<char>, more: seq<Bound>)
    requires BoundLink(s, b, y) && BoundsMore(y) == Ok(z, more)
    ensures BoundsMore(s) == Ok(z, [b] + more)
  {
  }

  lemma BoundsUncons(bs: seq<Bound>)
    requires bs != []
    ensures [bs[0]] + bs[1..] == bs
  {
  }

  /** The repetitions read the linked bounds in order, and stop where no
      bound starts. */
  lemma {:induction false} BoundsChain(ss: seq<seq<char>>, bs: seq<Bound>)
    requires Linked(ss, bs) && ParseBound(ss[|bs|]).Error?
    ensures BoundsMore(ss[0]) == Ok(ss[|bs|], bs)
    decreases |bs|
  {
    if bs != [] {
      assert ss[1..][|bs| - 1] == ss[|bs|];
      BoundsChain(ss[1..], bs[1..]);
      BoundsMoreStep(ss[0], bs[0], ss[1], ss[|bs|], bs[1..]);
      BoundsUncons(bs);
    }
  }

  /** `Parametrization::parse` gives the bounds in the order they are
      written, and ends where the last one (with its breaks) ends. */
  lemma ParametrizationOf(ss: seq<seq<char>>, bs: seq<Bound>)
    requires Linked(ss, bs) && |bs| > 0 && ParseBound(ss[|bs|]).Error?
    ensures ParseParametrization(ss[0]) == Ok(ss[|bs|], bs)
  {
    BoundsChain(ss, bs);
    FirstOfMore(ss[0], ss[|bs|], bs);
  }

  /** `many1` and the later repetitions agree once at least one bound is
      read. */
  lemma FirstOfMore(s: seq<char>, z: seq<char>, bs: seq<Bound>)
    requires BoundsMore(s) == Ok(z, bs) && bs != []
    ensures ParseParametrization(s) == Ok(z, bs)
  {
    if ParseBound(s).Ok? {
      var r1, b := ParseBound(s).rest, ParseBound(s).value;
      var r2 := SkipBreaks(r1);
      assert BoundsMore(s) == Ok(BoundsMore(r2).rest, [b] + BoundsMore(r2).value);
    }
  }

  // ---------------------------------------------------------------------
  // Rows
  // ---------------------------------------------------------------------

  predicate NoQuote(a: seq<char>)
  {
    forall i :: 0 <= i < |a| ==> a[i] != '"'
  }

  /** The label is read verbatim, up to the quote that closes it. */
  lemma LabelOf(a: seq<char>, rest: seq<char>)
    requires NoQuote(a)
    ensures ParseLabel("<tr algorithm=\"" + (a + ("\">" + rest))) == Ok(rest, a)
  {
    var s := "<tr algorithm=\"" + (a + ("\">" + rest));
    var t := s[15..];
    assert t == a + ("\">" + rest);
    SpanAppend(NotQuote, a, "\">" + rest);
    assert Span(NotQuote, "\">" + rest) == 0;
    assert t[|a|..] == "\">" + rest;
  }

  /** Blanks, a tag and blanks before text that does not start with a
      blank. */
  lemma OpeningOf(t: seq<char>, w: seq<char>, w2: seq<char>, y: seq<char>)
    requires |t| > 0 && !IsWhitespace(t[0]) && Blank(w) && Blank(w2) && (y == [] || !IsWhitespace(y[0]))
    ensures Opening(t, w + (t + (w2 + y))) == Ok(y, ())
  {
    var e := t + (w2 + y);
    assert e[0] == t[0];
    Skipped(w, e);
    assert e[|t|..] == w2 + y;
    Skipped(w2, y);
  }

  lemma ParamsCellStep(s: seq<char>, r1: seq<char>, r2: seq<char>, ps: seq<Bound>)
    requires Opening("<td>", s) == Ok(r1, ()) && ParseParametrization(r1) == Ok(r2, ps)
    ensures ParamsCell(s) == Ok(r2, ps)
  {
  }

  lemma DeclCellStep(s: seq<char>, r1: seq<char>, r2: seq<char>, r3: seq<char>, d: FnDecls.FnDecl, rest: seq<char>)
    requires Opening("<td>", s) == Ok(r1, ()) && Opening("<xmp highlight=rust>", r1) == Ok(r2, ())
    requires FnDecls.Parse(r2) == Ok(r3, d) && SkipWs(r3) == "</xmp>" + rest
    ensures DeclCell(s) == Ok(rest, d)
  {
    assert ("</xmp>" + rest)[6..] == rest;
  }

  lemma RowStep(s: seq<char>, r1: seq<char>, a: seq<char>, r2: seq<char>, ps: seq<Bound>, rest: seq<char>, d: FnDecls.FnDecl)
    requires ParseLabel(s) == Ok(r1, a) && ParamsCell(r1) == Ok(r2, ps) && DeclCell(r2) == Ok(rest, d)
    ensures ParseRow(s) == Ok(rest, OverloadRow(a, ps, d))
  {
  }

  /** A tag that starts the text, then blanks. */
  lemma OpeningTight(t: seq<char>, w2: seq<char>, y: seq<char>)
    requires |t| > 0 && !IsWhitespace(t[0]) && Blank(w2) && (y == [] || !IsWhitespace(y[0]))
    ensures Opening(t, t + (w2 + y)) == Ok(y, ())
  {
    OpeningOf(t, [], w2, y);
    assert [] + (t + (w2 + y)) == t + (w2 + y);
  }

  lemma DeclEnd(dtext: seq<char>, w4: seq<char>, rest: seq<char>)
    requires Blank(w4)
    ensures SkipWs(w4 + ("</xmp>" + rest)) == "</xmp>" + rest
  {
    Skipped(w4, "</xmp>" + rest);
  }

  lemma XmpOf(w3: seq<char>, dtext: seq<char>, tail: seq<char>)
    requires Blank(w3) && |dtext| > 0 && !IsWhitespace(dtext[0])
    ensures Opening("<xmp highlight=rust>", "<xmp highlight=rust>" + (w3 + (dtext + tail))) == Ok(dtext + tail, ())
  {
    var e := dtext + tail;
    assert e[0] == dtext[0];
    OpeningTight("<xmp highlight=rust>", w3, e);
  }

  lemma TdOf(w: seq<char>, w2: seq<char>, x: seq<char>)
    requires Blank(w) && Blank(w2) && "<xmp" <= x
    ensures Opening("<td>", w + ("<td>" + (w2 + x))) == Ok(x, ())
  {
    assert x[0] == '<';
    OpeningOf("<td>", w, w2, x);
  }

  /** The signature cell: `<td>`, `<xmp highlight=rust>`, a signature that
      parses up to blanks and `</xmp>`. */
  lemma DeclCellOf(w: seq<char>, w2: seq<char>, w3: seq<char>, dtext: seq<char>, w4: seq<char>, rest: seq<char>, d: FnDecls.FnDecl)
    requires Blank(w) && Blank(w2) && Blank(w3) && Blank(w4) && |dtext| > 0 && !IsWhitespace(dtext[0])
    requires FnDecls.Parse(dtext + (w4 + ("</xmp>" + rest))) == Ok(w4 + ("</xmp>" + rest), d)
    ensures DeclCell(w + ("<td>" + (w2 + ("<xmp highlight=rust>" + (w3 + (dtext + (w4 + ("</xmp>" + rest)))))))) == Ok(rest, d)
  {
    var tail := w4 + ("</xmp>" + rest);
    var x := "<xmp highlight=rust>" + (w3 + (dtext + tail));
    TdOf(w, w2, x);
    XmpOf(w3, dtext, tail);
    DeclEnd(dtext, w4, rest);
    DeclCellStep(w + ("<td>" + (w2 + x)), x, dtext + tail, tail, d, rest);
  }

  /** `OverloadRow::parse` on a row written as the specification writes
      it: the label verbatim, then `<td>` and the bounds, which end where the
      signature cell `c` starts. */
  lemma RowOf(a: seq<char>, w: seq<char>, w2: seq<char>, q: seq<char>, c: seq<char>, rest: seq<char>,
              ps: seq<Bound>, d: FnDecls.FnDecl)
    requires NoQuote(a) && Blank(w) && Blank(w2) && |q| > 0 && !IsWhitespace(q[0])
    requires ParseParametrization(q) == Ok(c, ps) && DeclCell(c) == Ok(rest, d)
    ensures ParseRow("<tr algorithm=\"" + (a + ("\">" + (w + ("<td>" + (w2 + q)))))) == Ok(rest, OverloadRow(a, ps, d))
  {
    var y := w + ("<td>" + (w2 + q));
    LabelOf(a, y);
    OpeningOf("<td>", w, w2, q);
    ParamsCellStep(y, q, c, ps);
    RowStep("<tr algorithm=\"" + (a + ("\">" + y)), y, a, c, ps, rest, d);
  }

  // ---------------------------------------------------------------------
  // The display loses nothing
  // ---------------------------------------------------------------------

  /** What follows the first alternative: nothing, or ` | ` and the others. */
  function AltTail(ts: seq<Ty>): seq<char>
    requires ts != []
  {
    if |ts| == 1 then [] else " | " + Alternatives(ts[1..])
  }

  lemma BarBoundary(x: seq<char>)
    ensures Boundary(" | " + x)
  {
    var y := " | " + x;
    assert IsWhitespace(y[0]) && !IsIdentChar(y[0]);
    assert y[1..] == "| " + x;
    SkipWsNone(y[1..]);
  }

  /** The first alternative reads back, and stops where the others start. */
  lemma AltSplit(ts: seq<Ty>)
    requires AllWellFormed(ts) && ts != []
    ensures ParseTy(Alternatives(ts)) == Ok(AltTail(ts), ts[0])
  {
    if |ts| > 1 {
      BarBoundary(Alternatives(ts[1..]));
    }
    ParseRender(ts[0], AltTail(ts));
  }

  lemma AlternativesStart(ts: seq<Ty>)
    requires AllWellFormed(ts) && ts != []
    ensures |Alternatives(ts)| > 0 && IsIdentStart(Alternatives(ts)[0])
  {
    RenderStart(ts[0]);
  }

  /** Equal displays of two non-empty unions agree on the first
      alternative and on what follows it. */
  lemma AltHead(ts1: seq<Ty>, ts2: seq<Ty>)
    requires AllWellFormed(ts1) && AllWellFormed(ts2) && ts1 != [] && ts2 != []
    requires Alternatives(ts1) == Alternatives(ts2)
    ensures ts1[0] == ts2[0] && AltTail(ts1) == AltTail(ts2)
  {
    AltSplit(ts1);
    AltSplit(ts2);
  }

  /** Equal tails: both unions end, or both go on with equal displays. */
  lemma AltMore(ts1: seq<Ty>, ts2: seq<Ty>)
    requires ts1 != [] && ts2 != [] && AltTail(ts1) == AltTail(ts2)
    ensures |ts1| == 1 <==> |ts2| == 1
    ensures |ts1| > 1 ==> Alternatives(ts1[1..]) == Alternatives(ts2[1..])
  {
    var t := AltTail(ts1);
    if |ts1| > 1 && |ts2| > 1 {
      assert t[3..] == Alternatives(ts1[1..]);
      assert AltTail(ts2)[3..] == Alternatives(ts2[1..]);
    }
  }

  lemma TysUncons(ts: seq<Ty>)
    requires ts != []
    ensures [ts[0]] + ts[1..] == ts
  {
  }

  /** `Display for UnionBound` is one-to-one on well-formed types: the text
      ` | `-joins renderings that each read back. */
  lemma {:induction false} AlternativesInjective(ts1: seq<Ty>, ts2: seq<Ty>)
    requires AllWellFormed(ts1) && AllWellFormed(ts2)
    requires Alternatives(ts1) == Alternatives(ts2)
    ensures ts1 == ts2
    decreases |ts1|
  {
    if ts1 == [] {
      if ts2 != [] {
        AlternativesStart(ts2);
        assert false;
      }
    } else if ts2 == [] {
      AlternativesStart(ts1);
      assert false;
    } else {
      AltHead(ts1, ts2);
      AltMore(ts1, ts2);
      if |ts1| > 1 {
        AlternativesInjective(ts1[1..], ts2[1..]);
        TysUncons(ts1);
        TysUncons(ts2);
      }
    }
  }

  /** A bound the display can show without ambiguity: its type parameter is
      an identifier and its alternatives are well-formed types. */
  predicate Displayable(b: Bound)
  {
    IsIdent(b.typeParam) && (b.kind.Union? ==> AllWellFormed(b.kind.union.isOneOf))
  }

  /** `a `n``, read as a type: the type `a`, then `` `n` ``. */
  lemma TraitShape(n: seq<char>)
    ensures ParseTy("a `" + n + "`") == Ok(" `" + n + "`", Leaf("a"))
  {
    var y := " `" + n + "`";
    assert "a `" + n + "`" == "a" + y;
    assert y[0] == ' ' && !IsIdentChar(y[0]);
    assert y[1..] == "`" + n + "`";
    SkipWsNone(y[1..]);
    LeafParse("a", y);
  }

  lemma TailNotTick(ts: seq<Ty>, n: seq<char>)
    requires ts != []
    ensures AltTail(ts) != " `" + n + "`"
  {
    if |ts| > 1 {
      assert AltTail(ts)[1] == '|';
    }
  }

  /** A union never displays as a trait bound. */
  lemma UnionNotTrait(ts: seq<Ty>, n: seq<char>)
    requires AllWellFormed(ts)
    ensures Alternatives(ts) != "a `" + n + "`"
  {
    if ts == [] {
      assert |"a `" + n + "`"| > 0;
    } else {
      TraitShape(n);
      AltSplit(ts);
      TailNotTick(ts, n);
    }
  }

  lemma QuotedInjective(a: seq<char>, x1: seq<char>, x2: seq<char>, z: seq<char>)
    requires a + x1 + z == a + x2 + z
    ensures x1 == x2
  {
    var t := a + x1 + z;
    assert x1 == t[|a|..|t| - |z|];
    assert x2 == t[|a|..|t| - |z|];
  }

  /** Only prose is displayed in quotes; the others start with `is`. */
  lemma KindTextStart(k: BoundKind)
    ensures |KindText(k)| > 0 && (KindText(k)[0] == '"' <==> k.Prose?)
  {
  }

  /** A union and a trait bound never display alike. */
  lemma UnionTextNotTrait(u: UnionBound, b: TraitBound)
    requires AllWellFormed(u.isOneOf)
    ensures UnionText(u) != "is a `" + b.isA + "`"
  {
    UnionNotTrait(u.isOneOf, b.isA);
    var t := "is a `" + b.isA + "`";
    assert t[3..] == "a `" + b.isA + "`";
    assert UnionText(u)[3..] == Alternatives(u.isOneOf);
  }

  lemma UnionTextInjective(u1: UnionBound, u2: UnionBound)
    requires AllWellFormed(u1.isOneOf) && AllWellFormed(u2.isOneOf) && UnionText(u1) == UnionText(u2)
    ensures u1 == u2
  {
    assert UnionText(u1)[3..] == Alternatives(u1.isOneOf);
    assert UnionText(u2)[3..] == Alternatives(u2.isOneOf);
    AlternativesInjective(u1.isOneOf, u2.isOneOf);
  }

  /** `Display for BoundKind` is one-to-one on displayable bounds. */
  lemma KindTextInjective(k1: BoundKind, k2: BoundKind)
    requires Displayable(Bound("T", k1)) && Displayable(Bound("T", k2))
    requires KindText(k1) == KindText(k2)
    ensures k1 == k2
  {
    KindTextStart(k1);
    KindTextStart(k2);
    match k1
    case Prose(p1) =>
      QuotedInjective("\"", p1, k2.text, "\"");
    case Trait(b1) =>
      if k2.Union? {
        UnionTextNotTrait(k2.union, b1);
      } else {
        QuotedInjective("is a `", b1.isA, k2.traitBound.isA, "`");
      }
    case Union(u1) =>
      if k2.Trait? {
        UnionTextNotTrait(u1, k2.traitBound);
      } else {
        UnionTextInjective(u1, k2.union);
      }
  }

  /** In `x: y`, the identifier `x` ends at the first colon. */
  lemma FirstColon(x: seq<char>, y: seq<char>)
    requires IsIdent(x)
    ensures (x + (": " + y))[|x|] == ':'
    ensures forall i :: 0 <= i < |x| ==> (x + (": " + y))[i] != ':'
  {
  }

  /** The type parameter ends at the first colon. */
  lemma NameInjective(x1: seq<char>, x2: seq<char>, y1: seq<char>, y2: seq<char>)
    requires IsIdent(x1) && IsIdent(x2) && x1 + (": " + y1) == x2 + (": " + y2)
    ensures x1 == x2 && y1 == y2
  {
    var t := x1 + (": " + y1);
    FirstColon(x1, y1);
    FirstColon(x2, y2);
    assert |x1| == |x2|;
    assert x1 == t[..|x1|] == x2;
    assert y1 == t[|x1| + 2..] == y2;
  }

  /** `Display for Bound` is one-to-one on displayable bounds. */
  lemma BoundTextInjective(b1: Bound, b2: Bound)
    requires Displayable(b1) && Displayable(b2) && BoundText(b1) == BoundText(b2)
    ensures b1 == b2
  {
    assert BoundText(b1) == b1.typeParam + (": " + KindText(b1.kind));
    assert BoundText(b2) == b2.typeParam + (": " + KindText(b2.kind));
    NameInjective(b1.typeParam, b2.typeParam, KindText(b1.kind), KindText(b2.kind));
    KindTextInjective(b1.kind, b2.kind);
  }
}
