/** The older constraint grammar (src/wgsl/parametrization.rs), written over
    the older type grammar of src/wgsl/primitives.rs. It shares its
    separators, trait names and table cells with the newer grammar of
    src/wgsl/overload_row.rs, and differs in three places: the generic
    argument must be wrapped in `<var ignore>…</var>`, a bound is read
    after a mandatory `is`, and the variants of a union are older types,
    whose angle brackets are mandatory. */
module LegacyBounds {
  import opened Prelude
  import Idents
  import LegacyTypes
  import Overloads
  import FnDecls
  import Types
  import OverloadExamples

  // ---------------------------------------------------------------------
  // Generic arguments
  // ---------------------------------------------------------------------

  /** `delimited(tag("|"), ws0_then(Ident::parse), tag("|"))`. */
  function Barred(v: seq<char>): (r: Res<Idents.Ident>)
    ensures Advances(r, v) && !r.Failure?
    ensures r.Ok? ==> IsIdent(r.value)
    ensures !("|" <= v) ==> r.Error?
  {
    if "|" <= v then
      match Idents.Parse(SkipWs(v[1..]))
      case Ok(r1, x) =>
        SuffixOfConcat(x, r1);
        SuffixTrans(r1, SkipWs(v[1..]), v[1..]);
        SuffixTrans(r1, v[1..], v);
        if "|" <= r1 then
          SuffixTrans(r1[1..], r1, v);
          Ok(r1[1..], x)
        else Error
      case _ => Error
    else Error
  }

  /** The two forms inside the wrapper: `|X|`, else a bare `X`. */
  function Middle(v: seq<char>): (r: Res<Idents.Ident>)
    ensures Advances(r, v) && !r.Failure?
    ensures r.Ok? ==> IsIdent(r.value)
  {
    match Barred(v)
    case Ok(r1, x) => Ok(r1, x)
    case _ => Overloads.Bare(v)
  }

  /** `parse_generic_arg`: `<var ignore>`, then (committed) one of the two
      forms, then `</var>`, each after blanks. Only the identifier is
      kept. There is no unwrapped form. */
  function ParseGenericArg(s: seq<char>): (r: Res<Idents.Ident>)
    ensures Advances(r, s)
    ensures r.Ok? ==> IsIdent(r.value)
    ensures !("<var ignore>" <= SkipWs(s)) ==> r.Error?
  {
    var u := SkipWs(s);
    if !("<var ignore>" <= u) then Error
    else
      var v := SkipWs(u[12..]);
      SuffixTrans(u[12..], u, s);
      SuffixTrans(v, u[12..], s);
      match Middle(v)
      case Ok(r1, x) =>
        var w := SkipWs(r1);
        SuffixTrans(r1, v, s);
        SuffixTrans(w, r1, s);
        if "</var>" <= w then
          SuffixTrans(w[6..], w, s);
          Ok(w[6..], x)
        else Error
      case _ => Failure
  }

  // ---------------------------------------------------------------------
  // Union bounds over the older types
  // ---------------------------------------------------------------------

  datatype UnionBound = UnionBound(isOneOf: seq<LegacyTypes.Ty>)

  /** `[=` and (committed) a type, then `=]`; or a type between backquotes.
      A `[=T` without its `=]` falls back to the backquoted form, which
      cannot start with `[`. */
  function ItemForms(u: seq<char>): (r: Res<LegacyTypes.Ty>)
    ensures Advances(r, u)
  {
    if "[=" <= u then
      match LegacyTypes.ParseTy(u[2..])
      case Ok(r1, t) =>
        SuffixTrans(r1, u[2..], u);
        if "=]" <= r1 then
          SuffixTrans(r1[2..], r1, u);
          Ok(r1[2..], t)
        else Backquoted(u)
      case _ => Failure
    else Backquoted(u)
  }

  function Backquoted(u: seq<char>): (r: Res<LegacyTypes.Ty>)
    ensures Advances(r, u) && !r.Failure?
    ensures !("`" <= u) ==> r.Error?
  {
    if "`" <= u then
      match LegacyTypes.ParseTy(u[1..])
      case Ok(r1, t) =>
        SuffixTrans(r1, u[1..], u);
        if "`" <= r1 then
          SuffixTrans(r1[1..], r1, u);
          Ok(r1[1..], t)
        else Error
      case _ => Error
    else Error
  }

  /** One variant after blanks. */
  function UnionItem(s: seq<char>): (r: Res<LegacyTypes.Ty>)
    ensures Advances(r, s)
    ensures r == ItemForms(SkipWs(s))
  {
    var r := ItemForms(SkipWs(s));
    if r.Ok? then SuffixTrans(r.rest, SkipWs(s), s); r else r
  }

  /** `UnionBound::parse`: `separated_list1` of variants with the same
      separators as the newer grammar. */
  function ParseUnion(s: seq<char>): (r: Res<UnionBound>)
    ensures Advances(r, s)
    ensures r.Ok? ==> |r.value.isOneOf| > 0
  {
    match UnionItem(s)
    case Error => Error
    case Failure => Failure
    case Ok(r1, t) =>
      match UnionMore(r1)
      case Ok(r2, ts) =>
        SuffixTrans(r2, r1, s);
        Ok(r2, UnionBound([t] + ts))
      case Error => Error
      case Failure => Failure
  }

  /** The separator-then-variant repetitions: a separator or a variant that
      fails with `Error` ends the list before that separator. */
  function UnionMore(s: seq<char>): (r: Res<seq<LegacyTypes.Ty>>)
    decreases |s|
    ensures !r.Error? && Consumes(r, s)
  {
    match Overloads.UnionSep(s)
    case Error => Ok(s, [])
    case Failure => Failure
    case Ok(r1, _) =>
      match UnionItem(r1)
      case Error => Ok(s, [])
      case Failure => Failure
      case Ok(r2, t) =>
        SuffixTrans(r2, r1, s);
        match UnionMore(r2)
        case Ok(r3, ts) =>
          SuffixTrans(r3, r2, s);
          Ok(r3, [t] + ts)
        case Error => Error
        case Failure => Failure
  }

  // ---------------------------------------------------------------------
  // Bounds
  // ---------------------------------------------------------------------

  datatype BoundKind =
    | Union(union: UnionBound)
    | Trait(traitBound: Overloads.TraitBound)

  datatype Bound = Bound(typeParam: Idents.Ident, kind: BoundKind)

  /** After `is`: an article and (committed) a trait bound, else a union. */
  function ParseKind(s: seq<char>): (r: Res<BoundKind>)
    ensures Consumes(r, s)
  {
    var v := SkipWs(s);
    match Overloads.Article(v)
    case Ok(r1, _) =>
      (match Overloads.ParseTraitBound(r1)
       case Ok(r2, t) =>
         SuffixTrans(r2, r1, v);
         SuffixTrans(r2, v, s);
         Ok(r2, Trait(t))
       case _ => Failure)
    case _ =>
      match ParseUnion(v)
      case Ok(r2, u) =>
        SuffixTrans(r2, v, s);
        Ok(r2, Union(u))
      case Error => Error
      case Failure => Failure
  }

  /** `Bound::parse`: a generic argument, the word `is` between blanks (at
      least one after it), then the kind of bound. */
  function ParseBound(s: seq<char>): (r: Res<Bound>)
    ensures Advances(r, s)
    ensures r.Ok? ==> IsIdent(r.value.typeParam)
  {
    var u := SkipWs(s);
    match ParseGenericArg(u)
    case Error => Error
    case Failure => Failure
    case Ok(r1, x) =>
      SuffixTrans(r1, u, s);
      match Overloads.IsWord(r1)
      case Ok(r2, _) =>
        (match ParseKind(r2)
         case Ok(r3, k) =>
           SuffixTrans(r3, r2, r1);
           SuffixTrans(r3, r1, s);
           Ok(r3, Bound(x, k))
         case Error => Error
         case Failure => Failure)
      case _ => Error
  }

  // ---------------------------------------------------------------------
  // Parametrizations and rows
  // ---------------------------------------------------------------------

  /** `Parametrization::parse`: `many1` of bounds, each followed by any
      number of `<br>`. Every bound consumes its wrapper, so nom's guard
      against an element that consumes nothing cannot fire. */
  function ParseParametrization(s: seq<char>): (r: Res<seq<Bound>>)
    ensures Advances(r, s)
    ensures r.Ok? ==> |r.value| > 0
  {
    match ParseBound(s)
    case Error => Error
    case Failure => Failure
    case Ok(r1, b) =>
      var r2 := Overloads.SkipBreaks(r1);
      SuffixTrans(r2, r1, s);
      match BoundsMore(r2)
      case Error => Error
      case Failure => Failure
      case Ok(r3, bs) =>
        SuffixTrans(r3, r2, s);
        Ok(r3, [b] + bs)
  }

  /** The later repetitions: a bound that fails with `Error` ends the
      list. */
  function BoundsMore(s: seq<char>): (r: Res<seq<Bound>>)
    decreases |s|
    ensures !r.Error? && Consumes(r, s)
  {
    match ParseBound(s)
    case Error => Ok(s, [])
    case Failure => Failure
    case Ok(r1, b) =>
      var r2 := Overloads.SkipBreaks(r1);
      SuffixTrans(r2, r1, s);
      match BoundsMore(r2)
      case Error => Error
      case Failure => Failure
      case Ok(r3, bs) =>
        SuffixTrans(r3, r2, s);
        Ok(r3, [b] + bs)
  }

  datatype OverloadRow = OverloadRow(algorithmAttr: seq<char>, parametrization: seq<Bound>, fnDecl: FnDecls.FnDecl)

  /** `<td>` and the bounds, each after blanks. */
  function ParamsCell(s: seq<char>): (r: Res<seq<Bound>>)
    ensures Consumes(r, s)
  {
    match Overloads.Opening("<td>", s)
    case Ok(r1, _) =>
      (match ParseParametrization(r1)
       case Ok(r2, ps) =>
         SuffixTrans(r2, r1, s);
         Ok(r2, ps)
       case Error => Error
       case Failure => Failure)
    case _ => Error
  }

  /** `OverloadRow::parse`: the label, the cell of bounds, the cell of the
      signature. */
  function ParseRow(s: seq<char>): (r: Res<OverloadRow>)
    ensures Advances(r, s)
  {
    match Overloads.ParseLabel(s)
    case Ok(r1, attr) =>
      (match ParamsCell(r1)
       case Ok(r2, ps) =>
         (match Overloads.DeclCell(r2)
          case Ok(r3, d) =>
            SuffixTrans(r3, r2, r1);
            SuffixTrans(r3, r1, s);
            Ok(r3, OverloadRow(attr, ps, d))
          case Error => Error
          case Failure => Failure)
       case Error => Error
       case Failure => Failure)
    case _ => Error
  }

  // ---------------------------------------------------------------------
  // The forms of a generic argument
  // ---------------------------------------------------------------------

  /** `|X|`, with blanks allowed after the opening bar. */
  lemma BarredOf(w: seq<char>, x: seq<char>, y: seq<char>)
    requires Overloads.Blank(w) && IsIdent(x)
    ensures Barred("|" + (w + (x + ("|" + y)))) == Ok(y, x)
  {
    var s := "|" + (w + (x + ("|" + y)));
    assert s[1..] == w + (x + ("|" + y));
    Overloads.IdentThen(x, "|" + y);
    Overloads.Skipped(w, x + ("|" + y));
  }

  /** A bare `X`, then text that cannot extend it. */
  lemma MiddleBare(x: seq<char>, y: seq<char>)
    requires IsIdent(x) && (y == [] || !IsIdentChar(y[0]))
    ensures Middle(x + y) == Ok(y, x)
  {
    Overloads.IdentThen(x, y);
  }

  /** The wrapper stages: `<var ignore>`, one of the forms read from `v`,
      and `</var>`. */
  lemma VarStep(s: seq<char>, u: seq<char>, v: seq<char>, r1: seq<char>, x: seq<char>)
    requires SkipWs(s) == u && "<var ignore>" <= u && SkipWs(u[12..]) == v
    requires Middle(v) == Ok(r1, x) && "</var>" <= SkipWs(r1)
    ensures ParseGenericArg(s) == Ok(SkipWs(r1)[6..], x)
  {
  }

  /** `<var ignore>`, a form read from `m`, blanks and `</var>`. */
  lemma VarWrapped(w: seq<char>, w2: seq<char>, m: seq<char>, w3: seq<char>, rest: seq<char>, x: seq<char>)
    requires Overloads.Blank(w) && Overloads.Blank(w2) && Overloads.Blank(w3)
    requires m == [] || !IsWhitespace(m[0])
    requires Middle(m) == Ok(w3 + ("</var>" + rest), x)
    ensures ParseGenericArg(w + ("<var ignore>" + (w2 + m))) == Ok(rest, x)
  {
    var e := "<var ignore>" + (w2 + m);
    Overloads.VarText(w2 + m);
    Overloads.Skipped(w, e);
    Overloads.Skipped(w2, m);
    Overloads.CloseVar(w3, rest);
    VarStep(w + e, e, m, w3 + ("</var>" + rest), x);
  }

  /** `<var ignore>X</var>` and `<var ignore>|X|</var>`, with blanks where
      the grammar allows them, name the parameter `X`. */
  lemma GenericArgForms(w: seq<char>, w2: seq<char>, w3: seq<char>, x: seq<char>, rest: seq<char>)
    requires Overloads.Blank(w) && Overloads.Blank(w2) && Overloads.Blank(w3) && IsIdent(x)
    ensures ParseGenericArg(w + ("<var ignore>" + (w2 + (x + (w3 + ("</var>" + rest)))))) == Ok(rest, x)
    ensures ParseGenericArg(w + ("<var ignore>" + (w2 + ("|" + (w2 + (x + ("|" + (w3 + ("</var>" + rest))))))))) == Ok(rest, x)
  {
    BareVarForm(w, w2, w3, x, rest);
    BarredVarForm(w, w2, w3, x, rest);
  }

  lemma BareVarForm(w: seq<char>, w2: seq<char>, w3: seq<char>, x: seq<char>, rest: seq<char>)
    requires Overloads.Blank(w) && Overloads.Blank(w2) && Overloads.Blank(w3) && IsIdent(x)
    ensures ParseGenericArg(w + ("<var ignore>" + (w2 + (x + (w3 + ("</var>" + rest)))))) == Ok(rest, x)
  {
    var t := w3 + ("</var>" + rest);
    Overloads.VarAfterIdent(w3, rest);
    MiddleBare(x, t);
    assert (x + t)[0] == x[0];
    VarWrapped(w, w2, x + t, w3, rest, x);
  }

  lemma BarredVarForm(w: seq<char>, w2: seq<char>, w3: seq<char>, x: seq<char>, rest: seq<char>)
    requires Overloads.Blank(w) && Overloads.Blank(w2) && Overloads.Blank(w3) && IsIdent(x)
    ensures ParseGenericArg(w + ("<var ignore>" + (w2 + ("|" + (w2 + (x + ("|" + (w3 + ("</var>" + rest))))))))) == Ok(rest, x)
  {
    var t := w3 + ("</var>" + rest);
    Overloads.VarAfterIdent(w3, rest);
    BarredOf(w2, x, t);
    VarWrapped(w, w2, "|" + (w2 + (x + ("|" + t))), w3, rest, x);
  }

  /** The wrapper is required: a bare `X` or `|X|`, which the newer grammar
      accepts, is not a generic argument here. */
  lemma GenericArgNeedsWrapper(w: seq<char>, w2: seq<char>, x: seq<char>, rest: seq<char>)
    requires Overloads.Blank(w) && IsIdent(x)
    ensures ParseGenericArg(w + (x + rest)).Error?
    ensures ParseGenericArg(w + ("|" + (w2 + (x + ("|" + rest))))).Error?
  {
    assert (x + rest)[0] == x[0];
    Overloads.Skipped(w, x + rest);
    var b := "|" + (w2 + (x + ("|" + rest)));
    Overloads.Skipped(w, b);
  }

  /** After `<var ignore>`, text that is neither form is a committed
      failure; so is `|X` without its closing bar. */
  lemma GenericArgCommits(w: seq<char>, w2: seq<char>, x: seq<char>, y: seq<char>)
    requires Overloads.Blank(w) && Overloads.Blank(w2) && IsIdent(x)
    requires y == [] || (!IsWhitespace(y[0]) && !IsIdentChar(y[0]) && y[0] != '|')
    ensures ParseGenericArg(w + ("<var ignore>" + (w2 + y))).Failure?
    ensures ParseGenericArg(w + ("<var ignore>" + (w2 + ("|" + (x + y))))).Failure?
  {
    EmptyVarCommits(w, w2, y);
    BarVarCommits(w, w2, x, y);
  }

  lemma EmptyVarCommits(w: seq<char>, w2: seq<char>, y: seq<char>)
    requires Overloads.Blank(w) && Overloads.Blank(w2)
    requires y == [] || (!IsWhitespace(y[0]) && !IsIdentChar(y[0]) && y[0] != '|')
    ensures ParseGenericArg(w + ("<var ignore>" + (w2 + y))).Failure?
  {
    MiddleFails(y);
    CommitsAt(w, w2, y);
  }

  lemma BarVarCommits(w: seq<char>, w2: seq<char>, x: seq<char>, y: seq<char>)
    requires Overloads.Blank(w) && Overloads.Blank(w2) && IsIdent(x)
    requires y == [] || (!IsWhitespace(y[0]) && !IsIdentChar(y[0]) && y[0] != '|')
    ensures ParseGenericArg(w + ("<var ignore>" + (w2 + ("|" + (x + y))))).Failure?
  {
    UnclosedBar(x, y);
    CommitsAt(w, w2, "|" + (x + y));
  }

  /** `<var ignore>`, then text `m` that is neither form. */
  lemma CommitsAt(w: seq<char>, w2: seq<char>, m: seq<char>)
    requires Overloads.Blank(w) && Overloads.Blank(w2)
    requires (m == [] || !IsWhitespace(m[0])) && !Middle(m).Ok?
    ensures ParseGenericArg(w + ("<var ignore>" + (w2 + m))).Failure?
  {
    var e := "<var ignore>" + (w2 + m);
    Overloads.VarText(w2 + m);
    Overloads.Skipped(w, e);
    Overloads.Skipped(w2, m);
    VarFails(w + e, e, m);
  }

  lemma VarFails(s: seq<char>, u: seq<char>, v: seq<char>)
    requires SkipWs(s) == u && "<var ignore>" <= u && SkipWs(u[12..]) == v && !Middle(v).Ok?
    ensures ParseGenericArg(s).Failure?
  {
  }

  lemma MiddleFails(y: seq<char>)
    requires y == [] || (!IsWhitespace(y[0]) && !IsIdentStart(y[0]) && y[0] != '|')
    ensures !Middle(y).Ok?
  {
    SkipWsNone(y);
  }

  /** `|X` followed by anything but a bar is neither form. */
  lemma UnclosedBar(x: seq<char>, y: seq<char>)
    requires IsIdent(x) && (y == [] || (!IsIdentChar(y[0]) && y[0] != '|'))
    ensures !Middle("|" + (x + y)).Ok?
  {
    var m := "|" + (x + y);
    assert m[1..] == x + y;
    Overloads.IdentThen(x, y);
    SkipWsNone(m);
  }

  /** A missing `</var>` is a plain error: the closing tag is outside the
      committed part. */
  lemma GenericArgUnclosed(w: seq<char>, x: seq<char>, y: seq<char>)
    requires Overloads.Blank(w) && IsIdent(x) && (y == [] || !IsIdentChar(y[0]))
    requires !("</var>" <= SkipWs(y))
    ensures ParseGenericArg(w + ("<var ignore>" + (x + y))).Error?
  {
    var e := "<var ignore>" + (x + y);
    Overloads.VarText(x + y);
    Overloads.Skipped(w, e);
    Overloads.IdentThen(x, y);
    MiddleBare(x, y);
    VarUnclosed(w + e, e, x + y, y, x);
  }

  lemma VarUnclosed(s: seq<char>, u: seq<char>, v: seq<char>, r1: seq<char>, x: seq<char>)
    requires SkipWs(s) == u && "<var ignore>" <= u && SkipWs(u[12..]) == v
    requires Middle(v) == Ok(r1, x) && !("</var>" <= SkipWs(r1))
    ensures ParseGenericArg(s).Error?
  {
  }

  // ---------------------------------------------------------------------
  // Union lists over the older types
  // ---------------------------------------------------------------------

  /** How a variant is written: `[=T=]` or `` `T` ``, with `T` spelled
      without blanks. */
  function ItemSpelling(w: Overloads.Wrapping, t: LegacyTypes.Ty): seq<char>
  {
    match w
    case InBrackets => "[=" + (LegacyTypes.Spell(t, "") + "=]")
    case InBackquotes => "`" + (LegacyTypes.Spell(t, "") + "`")
  }

  /** The variants after the first, each preceded by its separator. */
  function SpelledMore(ts: seq<LegacyTypes.Ty>, ws: seq<Overloads.Wrapping>, seps: seq<Overloads.Separator>): seq<char>
    requires |ts| == |ws| == |seps|
  {
    if ts == [] then []
    else Overloads.SepSpelling(seps[0]) + (ItemSpelling(ws[0], ts[0]) + SpelledMore(ts[1..], ws[1..], seps[1..]))
  }

  /** A union list: the first variant, then the others with separators. */
  function Spelled(ts: seq<LegacyTypes.Ty>, ws: seq<Overloads.Wrapping>, seps: seq<Overloads.Separator>): seq<char>
    requires |ts| == |ws| == |seps| + 1
  {
    ItemSpelling(ws[0], ts[0]) + SpelledMore(ts[1..], ws[1..], seps)
  }

  predicate AllWellFormed(ts: seq<LegacyTypes.Ty>)
  {
    forall i :: 0 <= i < |ts| ==> LegacyTypes.WellFormed(ts[i])
  }

  /** A written variant is read back, whatever follows it. */
  lemma ItemOf(w: Overloads.Wrapping, t: LegacyTypes.Ty, y: seq<char>)
    requires LegacyTypes.WellFormed(t)
    ensures UnionItem(ItemSpelling(w, t) + y) == Ok(y, t)
  {
    var x := LegacyTypes.Spell(t, "");
    match w
    case InBrackets =>
      var e := "=]" + y;
      Overloads.BracketText(x, y);
      LegacyTypes.ParseSpell(t, "", e);
      ItemBracketStep(ItemSpelling(w, t) + y, x + e, e, t);
    case InBackquotes =>
      var e := "`" + y;
      Overloads.BackquoteText(x, y);
      LegacyTypes.ParseSpell(t, "", e);
      ItemBackquoteStep(ItemSpelling(w, t) + y, x + e, e, t);
  }

  lemma ItemBracketStep(s: seq<char>, m: seq<char>, e: seq<char>, t: LegacyTypes.Ty)
    requires SkipWs(s) == s && "[=" <= s && s[2..] == m && LegacyTypes.ParseTy(m) == Ok(e, t)
    requires "=]" <= e
    ensures UnionItem(s) == Ok(e[2..], t)
  {
  }

  lemma ItemBackquoteStep(s: seq<char>, m: seq<char>, e: seq<char>, t: LegacyTypes.Ty)
    requires SkipWs(s) == s && !("[=" <= s) && "`" <= s && s[1..] == m && LegacyTypes.ParseTy(m) == Ok(e, t)
    requires "`" <= e
    ensures UnionItem(s) == Ok(e[1..], t)
  {
  }

  lemma ItemStart(w: Overloads.Wrapping, t: LegacyTypes.Ty, y: seq<char>)
    ensures var x := ItemSpelling(w, t) + y; |x| > 0 && (x[0] == '[' || x[0] == '`') && !IsWhitespace(x[0])
  {
  }

  /** The leftover of a separator in front of a variant is skipped. */
  lemma LeftoverSkipped(sep: Overloads.Separator, x: seq<char>)
    requires |x| > 0 && !IsWhitespace(x[0])
    ensures UnionItem(Overloads.SepLeftover(sep) + x) == UnionItem(x)
  {
    Overloads.Skipped(Overloads.SepLeftover(sep), x);
    SkipWsNone(x);
  }

  lemma UnionMoreStep(s: seq<char>, x: seq<char>, y: seq<char>, t: LegacyTypes.Ty, z: seq<char>, more: seq<LegacyTypes.Ty>)
    requires Overloads.UnionSep(s) == Ok(x, ()) && UnionItem(x) == Ok(y, t) && UnionMore(y) == Ok(z, more)
    ensures UnionMore(s) == Ok(z, [t] + more)
  {
  }

  lemma UnionMoreStop(s: seq<char>)
    requires Overloads.UnionSep(s).Error?
    ensures UnionMore(s) == Ok(s, [])
  {
  }

  lemma WellFormedTail(ts: seq<LegacyTypes.Ty>)
    requires ts != [] && AllWellFormed(ts)
    ensures LegacyTypes.WellFormed(ts[0]) && AllWellFormed(ts[1..])
  {
    assert forall i :: 0 <= i < |ts| - 1 ==> ts[1..][i] == ts[i + 1];
  }

  lemma TysUncons(ts: seq<LegacyTypes.Ty>)
    requires ts != []
    ensures [ts[0]] + ts[1..] == ts
  {
  }

  /** The later variants of a written union list are read back in order,
      and the list stops where no separator follows. */
  lemma {:induction false} UnionMoreOf(ts: seq<LegacyTypes.Ty>, ws: seq<Overloads.Wrapping>, seps: seq<Overloads.Separator>, rest: seq<char>)
    requires |ts| == |ws| == |seps| && AllWellFormed(ts) && Overloads.UnionSep(rest).Error?
    ensures UnionMore(SpelledMore(ts, ws, seps) + rest) == Ok(rest, ts)
    decreases |ts|
  {
    if ts == [] {
      assert SpelledMore(ts, ws, seps) + rest == rest;
      UnionMoreStop(rest);
    } else {
      WellFormedTail(ts);
      UnionMoreOf(ts[1..], ws[1..], seps[1..], rest);
      var tail := SpelledMore(ts[1..], ws[1..], seps[1..]) + rest;
      var item := ItemSpelling(ws[0], ts[0]);
      Overloads.Regroup4(Overloads.SepSpelling(seps[0]), item, SpelledMore(ts[1..], ws[1..], seps[1..]), rest);
      ItemStart(ws[0], ts[0], tail);
      Overloads.SepOf(seps[0], item + tail);
      ItemOf(ws[0], ts[0], tail);
      LeftoverSkipped(seps[0], item + tail);
      UnionMoreStep(Overloads.SepSpelling(seps[0]) + (item + tail), Overloads.SepLeftover(seps[0]) + (item + tail), tail, ts[0], rest, ts[1..]);
      TysUncons(ts);
    }
  }

  /** `UnionBound::parse` reads a written union list of older types back:
      one variant per written one, in the written order. */
  lemma UnionOf(ts: seq<LegacyTypes.Ty>, ws: seq<Overloads.Wrapping>, seps: seq<Overloads.Separator>, rest: seq<char>)
    requires |ts| == |ws| == |seps| + 1 && AllWellFormed(ts) && Overloads.UnionSep(rest).Error?
    ensures ParseUnion(Spelled(ts, ws, seps) + rest) == Ok(rest, UnionBound(ts))
  {
    WellFormedTail(ts);
    var tail := SpelledMore(ts[1..], ws[1..], seps) + rest;
    UnionMoreOf(ts[1..], ws[1..], seps, rest);
    ItemOf(ws[0], ts[0], tail);
    FnDecls.Regroup(ItemSpelling(ws[0], ts[0]), SpelledMore(ts[1..], ws[1..], seps), rest);
    TysUncons(ts);
  }

  /** A plain name in brackets, `[=i32=]`, commits the union and fails: the
      older type needs its angle brackets, so the type under the cut is
      rejected. */
  lemma BracketedNameFails(w: seq<char>, x: seq<char>, rest: seq<char>)
    requires Overloads.Blank(w) && IsIdent(x)
    ensures ParseUnion(w + ("[=" + (x + ("=]" + rest)))).Failure?
  {
    var e := "[=" + (x + ("=]" + rest));
    assert e[0] == '[';
    Overloads.Skipped(w, e);
    assert e[2..] == x + ("=]" + rest);
    SkipWsNone("=]" + rest);
    LegacyTypes.BareNameRejected(x, "=]" + rest);
  }

  // ---------------------------------------------------------------------
  // Bounds
  // ---------------------------------------------------------------------

  lemma BoundStep(s: seq<char>, r1: seq<char>, x: seq<char>, r2: seq<char>, r3: seq<char>, k: BoundKind)
    requires ParseGenericArg(SkipWs(s)) == Ok(r1, x) && Overloads.IsWord(r1) == Ok(r2, ()) && ParseKind(r2) == Ok(r3, k)
    ensures ParseBound(s) == Ok(r3, Bound(x, k))
  {
  }

  lemma BoundKindFails(s: seq<char>, r1: seq<char>, x: seq<char>, r2: seq<char>)
    requires ParseGenericArg(SkipWs(s)) == Ok(r1, x) && Overloads.IsWord(r1) == Ok(r2, ()) && ParseKind(r2).Failure?
    ensures ParseBound(s).Failure?
  {
  }

  /** Texts that agree once their leading blanks are skipped read the same
      word `is`. */
  lemma IsWordSkips(s1: seq<char>, s2: seq<char>)
    requires SkipWs(s1) == SkipWs(s2)
    ensures Overloads.IsWord(s1) == Overloads.IsWord(s2)
  {
    var u := SkipWs(s1);
    if "is" <= u && |u| > 2 && IsWhitespace(u[2]) {
      assert Overloads.IsWord(s1) == Ok(SkipWs(u[2..]), ());
      assert Overloads.IsWord(s2) == Ok(SkipWs(u[2..]), ());
    } else {
      assert Overloads.IsWord(s1).Error? && Overloads.IsWord(s2).Error?;
    }
  }

  /** ` is ` before text that does not start with a blank. */
  lemma IsBetweenBlanks(y: seq<char>)
    requires y == [] || !IsWhitespace(y[0])
    ensures Overloads.IsWord(" is " + y) == Ok(y, ())
  {
    var v := "is" + (" " + y);
    Overloads.IsWordOf(" ", y);
    IsSpelledWith(y);
    SpaceSkipped(v);
    IsWordSkips(" " + v, v);
  }

  lemma IsSpelledWith(y: seq<char>)
    ensures " is " + y == " " + ("is" + (" " + y))
  {
  }

  lemma SpaceSkipped(v: seq<char>)
    requires |v| > 0 && v[0] == 'i'
    ensures SkipWs(" " + v) == SkipWs(v) == v
  {
    Overloads.Skipped(" ", v);
    SkipWsNone(v);
  }

  lemma KindTraitStep(s: seq<char>, r1: seq<char>, r2: seq<char>, t: Overloads.TraitBound)
    requires SkipWs(s) == s && Overloads.Article(s) == Ok(r1, ()) && Overloads.ParseTraitBound(r1) == Ok(r2, t)
    ensures ParseKind(s) == Ok(r2, Trait(t))
  {
  }

  lemma KindUnionStep(s: seq<char>, rest: seq<char>, u: UnionBound)
    requires SkipWs(s) == s && Overloads.Article(s).Error? && ParseUnion(s) == Ok(rest, u)
    ensures ParseKind(s) == Ok(rest, Union(u))
  {
  }

  lemma KindUnionFails(s: seq<char>)
    requires SkipWs(s) == s && Overloads.Article(s).Error? && ParseUnion(s).Failure?
    ensures ParseKind(s).Failure?
  {
  }

  /** `a` or `an`, blanks and a trait name give a trait bound. */
  lemma KindTraitOf(art: seq<char>, w2: seq<char>, n: seq<char>, rest: seq<char>)
    requires art == "a" || art == "an"
    requires Overloads.Blank(w2) && |w2| > 0
    requires |n| > 0 && forall i :: 0 <= i < |n| ==> Overloads.IsTraitChar(n[i])
    ensures ParseKind(art + (w2 + ("[=" + n + "=]" + rest))) == Ok(rest, Trait(Overloads.TraitBound(n)))
  {
    var y := w2 + ("[=" + n + "=]" + rest);
    KindTraitAt(art + y, art, y, w2, n, rest);
  }

  lemma KindTraitAt(s: seq<char>, art: seq<char>, y: seq<char>, w2: seq<char>, n: seq<char>, rest: seq<char>)
    requires art == "a" || art == "an"
    requires Overloads.Blank(w2) && |w2| > 0
    requires |n| > 0 && forall i :: 0 <= i < |n| ==> Overloads.IsTraitChar(n[i])
    requires y == w2 + ("[=" + n + "=]" + rest) && s == art + y
    ensures ParseKind(s) == Ok(rest, Trait(Overloads.TraitBound(n)))
  {
    assert y[0] == w2[0];
    Overloads.ArticleOf(art, y);
    Overloads.TraitBoundOf(w2, n, rest);
    SkipWsNone(s);
    KindTraitStep(s, y, rest, Overloads.TraitBound(n));
  }

  /** The article commits the bound to a trait: `a` followed by anything
      but a blank (or the `n` of `an`) is a failure, not a union. */
  lemma ArticleCommits(y: seq<char>)
    requires y == [] || (!IsWhitespace(y[0]) && y[0] != 'n')
    ensures ParseKind("a" + y).Failure?
  {
    var s := "a" + y;
    SkipWsNone(s);
    assert !("an" <= s) && "a" <= s && s[1..] == y;
  }

  lemma SpelledStart(ts: seq<LegacyTypes.Ty>, ws: seq<Overloads.Wrapping>, seps: seq<Overloads.Separator>, rest: seq<char>)
    requires |ts| == |ws| == |seps| + 1
    ensures var a := Spelled(ts, ws, seps) + rest; |a| > 0 && (a[0] == '[' || a[0] == '`')
  {
    ItemStart(ws[0], ts[0], SpelledMore(ts[1..], ws[1..], seps) + rest);
    FnDecls.Regroup(ItemSpelling(ws[0], ts[0]), SpelledMore(ts[1..], ws[1..], seps), rest);
  }

  /** A written union list of older types gives a union bound. */
  lemma KindUnionOf(ts: seq<LegacyTypes.Ty>, ws: seq<Overloads.Wrapping>, seps: seq<Overloads.Separator>, rest: seq<char>)
    requires |ts| == |ws| == |seps| + 1 && AllWellFormed(ts) && Overloads.UnionSep(rest).Error?
    ensures ParseKind(Spelled(ts, ws, seps) + rest) == Ok(rest, Union(UnionBound(ts)))
  {
    var s := Spelled(ts, ws, seps) + rest;
    SpelledStart(ts, ws, seps, rest);
    Overloads.NoArticle(s);
    SkipWsNone(s);
    UnionOf(ts, ws, seps, rest);
    KindUnionStep(s, rest, UnionBound(ts));
  }

  /** The plain form of a generic argument, `<var ignore>X</var>`. */
  lemma VarArg(x: seq<char>, rest: seq<char>)
    requires IsIdent(x)
    ensures ParseGenericArg("<var ignore>" + (x + ("</var>" + rest))) == Ok(rest, x)
  {
    var u := "<var ignore>" + (x + ("</var>" + rest));
    Overloads.VarText(x + ("</var>" + rest));
    SkipWsNone(u);
    OverloadExamples.IdentSkips(x, "</var>" + rest);
    MiddleBare(x, "</var>" + rest);
    Overloads.CloseVar([], rest);
    assert [] + ("</var>" + rest) == "</var>" + rest;
    VarStep(u, u, x + ("</var>" + rest), "</var>" + rest, x);
  }

  /** The closing tag, then ` is `. */
  lemma CloseThenIs(kt: seq<char>)
    ensures "</var> is " + kt == "</var>" + (" is " + kt)
  {
  }

  /** `Bound::parse` on `<var ignore>X</var> is ` and the text of a kind:
      the parameter is `X`, the kind is what that text reads as. */
  lemma BoundOf(x: seq<char>, kt: seq<char>, rest: seq<char>, k: BoundKind)
    requires IsIdent(x) && (kt == [] || !IsWhitespace(kt[0])) && ParseKind(kt) == Ok(rest, k)
    ensures ParseBound("<var ignore>" + (x + ("</var> is " + kt))) == Ok(rest, Bound(x, k))
  {
    var s := "<var ignore>" + (x + ("</var> is " + kt));
    var tail := " is " + kt;
    CloseThenIs(kt);
    VarArg(x, tail);
    IsBetweenBlanks(kt);
    SkipWsNone(s);
    BoundStep(s, tail, x, kt, rest, k);
  }

  /** A kind that fails makes the whole bound fail. */
  lemma BoundFailsOn(x: seq<char>, kt: seq<char>)
    requires IsIdent(x) && (kt == [] || !IsWhitespace(kt[0])) && ParseKind(kt).Failure?
    ensures ParseBound("<var ignore>" + (x + ("</var> is " + kt))).Failure?
  {
    var s := "<var ignore>" + (x + ("</var> is " + kt));
    var tail := " is " + kt;
    CloseThenIs(kt);
    VarArg(x, tail);
    IsBetweenBlanks(kt);
    SkipWsNone(s);
    BoundKindFails(s, tail, x, kt);
  }

  /** A trait bound, `<var ignore>F</var> is a [=texel format=]`. */
  lemma TraitBoundRead(x: seq<char>, art: seq<char>, n: seq<char>, rest: seq<char>)
    requires IsIdent(x) && (art == "a" || art == "an")
    requires |n| > 0 && forall i :: 0 <= i < |n| ==> Overloads.IsTraitChar(n[i])
    ensures ParseBound("<var ignore>" + (x + ("</var> is " + (art + (" " + ("[=" + n + "=]" + rest)))))) ==
            Ok(rest, Bound(x, Trait(Overloads.TraitBound(n))))
  {
    var kt := art + (" " + ("[=" + n + "=]" + rest));
    KindTraitOf(art, " ", n, rest);
    assert kt[0] == 'a';
    BoundOf(x, kt, rest, Trait(Overloads.TraitBound(n)));
  }

  /** A union bound over written older types. */
  lemma UnionBoundRead(x: seq<char>, ts: seq<LegacyTypes.Ty>, ws: seq<Overloads.Wrapping>, seps: seq<Overloads.Separator>, rest: seq<char>)
    requires IsIdent(x) && |ts| == |ws| == |seps| + 1 && AllWellFormed(ts) && Overloads.UnionSep(rest).Error?
    ensures ParseBound("<var ignore>" + (x + ("</var> is " + (Spelled(ts, ws, seps) + rest)))) ==
            Ok(rest, Bound(x, Union(UnionBound(ts))))
  {
    KindUnionOf(ts, ws, seps, rest);
    SpelledStart(ts, ws, seps, rest);
    BoundOf(x, Spelled(ts, ws, seps) + rest, rest, Union(UnionBound(ts)));
  }

  // ---------------------------------------------------------------------
  // Parametrizations
  // ---------------------------------------------------------------------

  /** `s` starts a bound `b`; with the breaks after it, its text ends where
      `y` starts. */
  predicate BoundLink(s: seq<char>, b: Bound, y: seq<char>)
  {
    var r := ParseBound(s);
    r.Ok? && r.value == b && Overloads.SkipBreaks(r.rest) == y
  }

  /** `ss[0]`, `ss[1]`, … are the places where the bounds `bs` start, one
      after the other, and `ss[|bs|]` is where the last one ends. */
  predicate Linked(ss: seq<seq<char>>, bs: seq<Bound>)
    decreases |bs|
  {
    && |ss| == |bs| + 1
    && (bs == [] || (BoundLink(ss[0], bs[0], ss[1]) && Linked(ss[1..], bs[1..])))
  }

  lemma BoundsMoreStep(s: seq<char>, b: Bound, y: seq<char>, z: seq<char>, more: seq<Bound>)
    requires BoundLink(s, b, y) && BoundsMore(y) == Ok(z, more)
    ensures BoundsMore(s) == Ok(z, [b] + more)
  {
  }

  lemma BoundsUncons(bs: seq<Bound>)
    requires bs != []
    ensures [bs[0]] + bs[1..] == bs
  {
  }

  /** The repetitions read the linked bounds in order, and stop where no
      bound starts. */
  lemma {:induction false} BoundsChain(ss: seq<seq<char>>, bs: seq<Bound>)
    requires Linked(ss, bs) && ParseBound(ss[|bs|]).Error?
    ensures BoundsMore(ss[0]) == Ok(ss[|bs|], bs)
    decreases |bs|
  {
    if bs != [] {
      assert ss[1..][|bs| - 1] == ss[|bs|];
      BoundsChain(ss[1..], bs[1..]);
      BoundsMoreStep(ss[0], bs[0], ss[1], ss[|bs|], bs[1..]);
      BoundsUncons(bs);
    }
  }

  /** `Parametrization::parse` gives the bounds in the order they are
      written, and ends where the last one (with its breaks) ends. */
  lemma ParametrizationOf(ss: seq<seq<char>>, bs: seq<Bound>)
    requires Linked(ss, bs) && |bs| > 0 && ParseBound(ss[|bs|]).Error?
    ensures ParseParametrization(ss[0]) == Ok(ss[|bs|], bs)
  {
    BoundsChain(ss, bs);
    FirstOfMore(ss[0], ss[|bs|], bs);
  }

  /** `many1` and the later repetitions agree once at least one bound is
      read. */
  lemma FirstOfMore(s: seq<char>, z: seq<char>, bs: seq<Bound>)
    requires BoundsMore(s) == Ok(z, bs) && bs != []
    ensures ParseParametrization(s) == Ok(z, bs)
  {
  }

  /** A first bound that fails makes the whole parametrization fail. */
  lemma ParametrizationFails(s: seq<char>)
    requires ParseBound(s).Failure?
    ensures ParseParametrization(s).Failure?
  {
  }

  // ---------------------------------------------------------------------
  // Rows
  // ---------------------------------------------------------------------

  lemma ParamsCellStep(s: seq<char>, r1: seq<char>, r2: seq<char>, ps: seq<Bound>)
    requires Overloads.Opening("<td>", s) == Ok(r1, ()) && ParseParametrization(r1) == Ok(r2, ps)
    ensures ParamsCell(s) == Ok(r2, ps)
  {
  }

  lemma RowStep(s: seq<char>, r1: seq<char>, a: seq<char>, r2: seq<char>, ps: seq<Bound>, rest: seq<char>, d: FnDecls.FnDecl)
    requires Overloads.ParseLabel(s) == Ok(r1, a) && ParamsCell(r1) == Ok(r2, ps) && Overloads.DeclCell(r2) == Ok(rest, d)
    ensures ParseRow(s) == Ok(rest, OverloadRow(a, ps, d))
  {
  }

  lemma CellFails(r1: seq<char>, r2: seq<char>)
    requires Overloads.Opening("<td>", r1) == Ok(r2, ()) && ParseParametrization(r2).Failure?
    ensures ParamsCell(r1).Failure?
  {
  }

  lemma RowFailsStep(s: seq<char>, r1: seq<char>, a: seq<char>)
    requires Overloads.ParseLabel(s) == Ok(r1, a) && ParamsCell(r1).Failure?
    ensures ParseRow(s).Failure?
  {
  }

  /** `OverloadRow::parse` on a row: the label verbatim, then `<td>` and the
      bounds, which end where the signature cell `c` starts. */
  lemma RowOf(a: seq<char>, w: seq<char>, w2: seq<char>, q: seq<char>, c: seq<char>, rest: seq<char>,
              ps: seq<Bound>, d: FnDecls.FnDecl)
    requires Overloads.NoQuote(a) && Overloads.Blank(w) && Overloads.Blank(w2) && |q| > 0 && !IsWhitespace(q[0])
    requires ParseParametrization(q) == Ok(c, ps) && Overloads.DeclCell(c) == Ok(rest, d)
    ensures ParseRow("<tr algorithm=\"" + (a + ("\">" + (w + ("<td>" + (w2 + q)))))) == Ok(rest, OverloadRow(a, ps, d))
  {
    var y := w + ("<td>" + (w2 + q));
    Overloads.LabelOf(a, y);
    Overloads.OpeningOf("<td>", w, w2, q);
    ParamsCellStep(y, q, c, ps);
    RowStep("<tr algorithm=\"" + (a + ("\">" + y)), y, a, c, ps, rest, d);
  }

  /** The row of the unit test, whatever its label and whatever follows
      its first bound `<var ignore>A</var> is [=i32=]`: a plain name in
      brackets is not an older type, the union is committed, so the row is
      rejected with a failure. */
  lemma TestRowFails(a: seq<char>, w: seq<char>, w2: seq<char>, p: seq<char>, x: seq<char>, rest: seq<char>)
    requires Overloads.NoQuote(a) && Overloads.Blank(w) && Overloads.Blank(w2) && IsIdent(p) && IsIdent(x)
    ensures ParseRow("<tr algorithm=\"" + (a + ("\">" + (w + ("<td>" + (w2 + ("<var ignore>" + (p + ("</var> is " + ("[=" + (x + ("=]" + rest)))))))))))).Failure?
  {
    var q := "<var ignore>" + (p + ("</var> is " + ("[=" + (x + ("=]" + rest)))));
    TestBoundFails(p, x, rest);
    var y := w + ("<td>" + (w2 + q));
    Overloads.LabelOf(a, y);
    Overloads.OpeningOf("<td>", w, w2, q);
    CellFails(y, q);
    RowFailsStep("<tr algorithm=\"" + (a + ("\">" + y)), y, a);
  }

  /** The bound of the unit test fails, and with it the parametrization. */
  lemma TestBoundFails(p: seq<char>, x: seq<char>, rest: seq<char>)
    requires IsIdent(p) && IsIdent(x)
    ensures ParseParametrization("<var ignore>" + (p + ("</var> is " + ("[=" + (x + ("=]" + rest)))))).Failure?
  {
    var kt := "[=" + (x + ("=]" + rest));
    BracketedKindFails(x, rest);
    BoundFailsOn(p, kt);
    ParametrizationFails("<var ignore>" + (p + ("</var> is " + kt)));
  }

  /** A plain name in brackets is no older type, and no article precedes
      it: the kind of bound fails. */
  lemma BracketedKindFails(x: seq<char>, rest: seq<char>)
    requires IsIdent(x)
    ensures ParseKind("[=" + (x + ("=]" + rest))).Failure?
  {
    var kt := "[=" + (x + ("=]" + rest));
    BracketedNameFails([], x, rest);
    assert [] + kt == kt;
    KindFailsAt(kt);
  }

  /** Text starting with `[` has no article; a union that fails there makes
      the kind fail. */
  lemma KindFailsAt(kt: seq<char>)
    requires |kt| > 0 && kt[0] == '[' && ParseUnion(kt).Failure?
    ensures ParseKind(kt).Failure?
  {
    SkipWsNone(kt);
    Overloads.NoArticle(kt);
    KindUnionFails(kt);
  }

  // ---------------------------------------------------------------------
  // The same bound in the newer grammar
  // ---------------------------------------------------------------------

  lemma LeafItem(x: seq<char>)
    ensures Overloads.ItemSpelling(Overloads.InBrackets, Types.Leaf(x)) == "[=" + (x + "=]")
  {
    assert Types.Render(Types.Leaf(x)) == x;
  }

  lemma LeafTail(y: seq<char>)
    ensures Overloads.SpelledMore([Types.Leaf(y)], [Overloads.InBrackets], [Overloads.CommaOr]) == ", or " + ("[=" + (y + "=]"))
  {
    LeafItem(y);
    assert [Types.Leaf(y)][1..] == [];
    assert Overloads.SpelledMore([], [], []) == [];
  }

  lemma PairText(x: seq<char>, y: seq<char>, rest: seq<char>)
    ensures ("[=" + (x + "=]")) + (", or " + ("[=" + (y + "=]"))) + rest == "[=" + (x + ("=], or [=" + (y + ("=]" + rest))))
  {
  }

  lemma PairSpelling(x: seq<char>, y: seq<char>, rest: seq<char>)
    ensures var ts := [Types.Leaf(x), Types.Leaf(y)];
            Overloads.Spelled(ts, [Overloads.InBrackets, Overloads.InBrackets], [Overloads.CommaOr]) + rest ==
            "[=" + (x + ("=], or [=" + (y + ("=]" + rest))))
  {
    var ts := [Types.Leaf(x), Types.Leaf(y)];
    var ws := [Overloads.InBrackets, Overloads.InBrackets];
    assert ts[1..] == [Types.Leaf(y)] && ws[1..] == [Overloads.InBrackets];
    LeafItem(x);
    LeafTail(y);
    PairText(x, y, rest);
  }

  /** `Bound::parse` of the newer grammar on `<var ignore>X</var> is ` and
      the text of a kind. */
  lemma NewerBoundOf(p: seq<char>, kt: seq<char>, rest: seq<char>, k: Overloads.BoundKind)
    requires IsIdent(p) && Overloads.ParseBoundKind(" is " + kt) == Ok(rest, k)
    ensures Overloads.ParseBound("<var ignore>" + (p + ("</var> is " + kt))) == Ok(rest, Overloads.Bound(p, k))
  {
    var tail := " is " + kt;
    CloseThenIs(kt);
    OverloadExamples.VarArg(p, tail);
    var s := "<var ignore>" + (p + ("</var>" + tail));
    Overloads.VarText(p + ("</var>" + tail));
    SkipWsNone(s);
    Overloads.BoundStep(s, s, tail, p, rest, k);
  }

  /** The newer grammar, whose plain names need no angle brackets, reads
      the bound the unit test writes: `<var ignore>A</var> is [=X=], or
      [=Y=]` is the union of the names `X` and `Y`. */
  lemma BracketedBoundReadByNewer(p: seq<char>, x: seq<char>, y: seq<char>, rest: seq<char>)
    requires IsIdent(p) && Types.NamedRoundTrips(x) && Types.NamedRoundTrips(y) && Overloads.UnionSep(rest).Error?
    ensures Overloads.ParseBound("<var ignore>" + (p + ("</var> is " + ("[=" + (x + ("=], or [=" + (y + ("=]" + rest)))))))) ==
            Ok(rest, Overloads.Bound(p, Overloads.Union(Overloads.UnionBound([Types.Leaf(x), Types.Leaf(y)]))))
  {
    var ts := [Types.Leaf(x), Types.Leaf(y)];
    var ws := [Overloads.InBrackets, Overloads.InBrackets];
    var seps := [Overloads.CommaOr];
    var kt := Overloads.Spelled(ts, ws, seps) + rest;
    PairSpelling(x, y, rest);
    assert Types.WellFormed(ts[0]) && Types.WellFormed(ts[1]);
    Overloads.KindUnionOf(" ", " ", ts, ws, seps, rest);
    IsBlankSpelling(kt);
    NewerBoundOf(p, kt, rest, Overloads.Union(Overloads.UnionBound(ts)));
  }

  lemma IsBlankSpelling(kt: seq<char>)
    ensures " " + ("is" + (" " + kt)) == " is " + kt
  {
  }
}
