/** The older type grammar (src/wgsl/primitives.rs): an identifier followed
    by a `<…>` parameter list that must be present, even when it is empty.
    A bare name such as `f32` is not a type here; `f32<>` is. */
module LegacyTypes {
  import opened Prelude
  import Idents

  datatype Ty = Ty(name: Idents.Ident, params: seq<Ty>)

  /** `Ty::parse`: a name, then `<`, the parameters separated by commas, and
      `>`, with blanks allowed before each of these tokens. No part of it
      commits, so a missing type is always a backtrackable `Error`. */
  function ParseTy(s: seq<char>): (r: Res<Ty>)
    decreases |s|, 1
    ensures Advances(r, s) && !r.Failure?
    ensures (s == [] || !IsIdentStart(s[0])) ==> r.Error?
    ensures r.Ok? ==> IsIdent(r.value.name)
  {
    match Idents.Parse(s)
    case Error => Error
    case Failure => Failure
    case Ok(r1, x) =>
      SuffixOfConcat(x, r1);
      match ParseBrackets(r1)
      case Ok(r2, ps) =>
        SuffixTrans(r2, r1, s);
        Ok(r2, Ty(x, ps))
      case Error => Error
      case Failure => Failure
  }

  /** `delimited(ws0_then(tag("<")), ws0_then(list), ws0_then(tag(">")))`:
      the brackets are required. */
  function ParseBrackets(s: seq<char>): (r: Res<seq<Ty>>)
    decreases |s|, 3
    ensures Consumes(r, s) && !r.Failure?
    ensures !("<" <= SkipWs(s)) ==> r.Error?
  {
    var u := SkipWs(s);
    if !("<" <= u) then Error
    else
      SuffixTrans(u[1..], u, s);
      var v := SkipWs(u[1..]);
      SuffixTrans(v, u[1..], s);
      match ParseList(v)
      case Ok(r, ps) =>
        var w := SkipWs(r);
        if ">" <= w then
          SuffixTrans(w, r, v);
          SuffixTrans(w[1..], w, v);
          SuffixTrans(w[1..], v, s);
          Ok(w[1..], ps)
        else Error
      case Error => Error
      case Failure => Failure
  }

  /** `separated_list0(ws0_then(tag(",")), ws0_then(Ty::parse))`: it always
      succeeds, with no parameters when the first one is not a type. */
  function ParseList(s: seq<char>): (r: Res<seq<Ty>>)
    decreases |s|, 2
    ensures r.Ok? && Consumes(r, s)
  {
    var v := SkipWs(s);
    match ParseTy(v)
    case Error => Ok(s, [])
    case Failure => Failure
    case Ok(r1, t) =>
      SuffixTrans(r1, v, s);
      match ParseMore(r1)
      case Ok(r2, ts) =>
        SuffixTrans(r2, r1, s);
        Ok(r2, [t] + ts)
      case Error => Error
      case Failure => Failure
  }

  /** The separator-then-parameter repetitions of the list: a comma not
      followed by a type ends the list before that comma. */
  function ParseMore(s: seq<char>): (r: Res<seq<Ty>>)
    decreases |s|, 2
    ensures r.Ok? && Consumes(r, s)
  {
    var u := SkipWs(s);
    if !("," <= u) then Ok(s, [])
    else
      SuffixTrans(u[1..], u, s);
      var v := SkipWs(u[1..]);
      SuffixTrans(v, u[1..], s);
      match ParseTy(v)
      case Error => Ok(s, [])
      case Failure => Failure
      case Ok(r1, t) =>
        SuffixTrans(r1, v, s);
        match ParseMore(r1)
        case Ok(r2, ts) =>
          SuffixTrans(r2, r1, s);
          Ok(r2, [t] + ts)
        case Error => Error
        case Failure => Failure
  }

  // ---------------------------------------------------------------------
  // Spelling a type
  // ---------------------------------------------------------------------

  /** The grammar has no writer of its own. This is the text it reads back
      as `t`, with the blank run `b` everywhere the grammar allows blanks:
      before and after `<`, around each comma and before `>`. With `b`
      empty it is the tight form `vec4<f32<>>`. */
  function Spell(t: Ty, b: seq<char>): seq<char>
    decreases t, 1
  {
    t.name + Brackets(t, b)
  }

  function Brackets(t: Ty, b: seq<char>): seq<char>
    decreases t, 0
  {
    b + ("<" + (b + (ListText(t, b) + (b + ">"))))
  }

  function ListText(t: Ty, b: seq<char>): seq<char>
    decreases t, 0, |t.params| + 1
  {
    if t.params == [] then [] else SpellList(t, 0, b)
  }

  /** The parameters of `t` from index `i` on, each separated by a comma. */
  function SpellList(t: Ty, i: nat, b: seq<char>): seq<char>
    requires i < |t.params|
    decreases t, 0, |t.params| - i
  {
    Spell(t.params[i], b) + (if i + 1 == |t.params| then [] else b + ("," + (b + SpellList(t, i + 1, b))))
  }

  /** What is left to spell of the list after parameter `i - 1`. */
  function SepFrom(t: Ty, i: nat, b: seq<char>): seq<char>
    requires i <= |t.params|
  {
    if i == |t.params| then [] else b + ("," + (b + SpellList(t, i, b)))
  }

  predicate WellFormed(t: Ty)
    decreases t
  {
    IsIdent(t.name) && forall i :: 0 <= i < |t.params| ==> WellFormed(t.params[i])
  }

  /** What may follow a parameter list: no further separator. */
  predicate Closes(z: seq<char>)
  {
    !("," <= SkipWs(z))
  }

  predicate Blank(b: seq<char>)
  {
    forall i :: 0 <= i < |b| ==> IsWhitespace(b[i])
  }

  // ---------------------------------------------------------------------
  // Round trip
  // ---------------------------------------------------------------------

  /** A spelled type is read back whatever follows it: the closing `>`
      ends it, so, unlike the newer grammar, no boundary is needed. */
  lemma {:induction false} ParseSpell(t: Ty, b: seq<char>, rest: seq<char>)
    requires WellFormed(t) && Blank(b)
    ensures ParseTy(Spell(t, b) + rest) == Ok(rest, t)
    decreases t, 2
  {
    var y := Brackets(t, b) + rest;
    assert Spell(t, b) + rest == t.name + y;
    BracketsStart(t, b, rest);
    IdentifierOf(t.name, y);
    BracketsOf(t, b, rest);
    SpellStep(Spell(t, b) + rest, y, t.name, rest, t.params);
  }

  lemma BracketsStart(t: Ty, b: seq<char>, rest: seq<char>)
    requires Blank(b)
    ensures var y := Brackets(t, b) + rest; |y| > 0 && !IsIdentChar(y[0])
  {
    var y := Brackets(t, b) + rest;
    if b == [] {
      assert y[0] == '<';
    } else {
      assert y[0] == b[0];
    }
  }

  lemma SpellStep(s: seq<char>, y: seq<char>, x: seq<char>, rest: seq<char>, ps: seq<Ty>)
    requires Idents.Parse(s) == Ok(y, x) && ParseBrackets(y) == Ok(rest, ps)
    ensures ParseTy(s) == Ok(rest, Ty(x, ps))
  {
  }

  lemma {:induction false} BracketsOf(t: Ty, b: seq<char>, rest: seq<char>)
    requires WellFormed(t) && Blank(b)
    ensures ParseBrackets(Brackets(t, b) + rest) == Ok(rest, t.params)
    decreases t, 1
  {
    var e := ">" + rest;
    var z := b + e;
    var l := ListText(t, b);
    var s := Brackets(t, b) + rest;
    OpenText(t, b, rest);
    CloseText(b, rest);
    if t.params == [] {
      assert l + z == z;
      SkipWsAppend(b, z);
      CloseList(rest);
      BracketsStep(s, e, e, e, rest, []);
    } else {
      ListStart(t, 0, b, z);
      Skipped(b, l + z);
      ListOf(t, b, z);
      BracketsStep(s, l + z, z, e, rest, t.params);
    }
  }

  /** How the bracket text splits: the opening blanks and `<` are skipped,
      then the blanks after `<`. */
  lemma OpenText(t: Ty, b: seq<char>, rest: seq<char>)
    requires Blank(b)
    ensures var l := ListText(t, b); var u := "<" + (b + (l + (b + (">" + rest))));
      Brackets(t, b) + rest == b + u && SkipWs(b + u) == u && "<" <= u && u[1..] == b + (l + (b + (">" + rest)))
  {
    var l := ListText(t, b);
    BracketsRegroup(b, l, rest);
    OpenSkip(b, b + (l + (b + (">" + rest))));
  }

  lemma BracketsRegroup(b: seq<char>, l: seq<char>, rest: seq<char>)
    ensures (b + ("<" + (b + (l + (b + ">"))))) + rest == b + ("<" + (b + (l + (b + (">" + rest)))))
  {
    assert (b + ">") + rest == b + (">" + rest);
    assert (l + (b + ">")) + rest == l + (b + (">" + rest));
    assert (b + (l + (b + ">"))) + rest == b + (l + (b + (">" + rest)));
  }

  lemma OpenSkip(b: seq<char>, y: seq<char>)
    requires Blank(b)
    ensures var u := "<" + y; SkipWs(b + u) == u && "<" <= u && u[1..] == y
  {
    SkipWsAppend(b, "<" + y);
    SkipWsNone("<" + y);
  }

  lemma CloseText(b: seq<char>, rest: seq<char>)
    requires Blank(b)
    ensures var e := ">" + rest; SkipWs(b + e) == e && ">" <= e && e[1..] == rest
  {
    SkipWsAppend(b, ">" + rest);
    SkipWsNone(">" + rest);
  }

  lemma Skipped(b: seq<char>, y: seq<char>)
    requires Blank(b) && (y == [] || !IsWhitespace(y[0]))
    ensures SkipWs(b + y) == y
  {
    SkipWsAppend(b, y);
    SkipWsNone(y);
  }

  lemma CloseList(rest: seq<char>)
    ensures var e := ">" + rest; SkipWs(e) == e && ParseList(e) == Ok(e, [])
  {
    var e := ">" + rest;
    SkipWsNone(e);
    NotAName(e);
    ListEmpty(e);
  }

  lemma NotAName(e: seq<char>)
    requires |e| > 0 && e[0] == '>'
    ensures ParseTy(e).Error?
  {
    assert !IsIdentStart(e[0]);
  }

  /** A list that does not start with a type is empty and consumes nothing. */
  lemma ListEmpty(e: seq<char>)
    requires ParseTy(SkipWs(e)).Error?
    ensures ParseList(e) == Ok(e, [])
  {
  }

  lemma BracketsStep(s: seq<char>, l: seq<char>, z: seq<char>, e: seq<char>, rest: seq<char>, ps: seq<Ty>)
    requires "<" <= SkipWs(s) && SkipWs(SkipWs(s)[1..]) == l
    requires ParseList(l) == Ok(z, ps) && SkipWs(z) == e && ">" <= e && e[1..] == rest
    ensures ParseBrackets(s) == Ok(rest, ps)
  {
  }

  lemma {:induction false} ListOf(t: Ty, b: seq<char>, z: seq<char>)
    requires WellFormed(t) && Blank(b) && t.params != []
    requires Closes(z)
    ensures ParseList(SpellList(t, 0, b) + z) == Ok(z, t.params)
    decreases t, 0, |t.params|
  {
    ListStart(t, 0, b, z);
    ListHead(t, 0, b, z);
    MoreOf(t, 1, b, z);
    ListStep(SpellList(t, 0, b) + z, SepFrom(t, 1, b) + z, t.params[0], z, From(t.params, 1));
    Uncons(t.params);
  }

  /** Parameter `i` is read back, and the separator after it is left. */
  lemma {:induction false} ListHead(t: Ty, i: nat, b: seq<char>, z: seq<char>)
    requires WellFormed(t) && Blank(b) && i < |t.params|
    ensures HeadParses(t, i, b, z)
    decreases t, 0, 0, 0
  {
    ListSplit(t, i, b, z);
    ParseSpell(t.params[i], b, SepFrom(t, i + 1, b) + z);
  }

  lemma ListSplit(t: Ty, i: nat, b: seq<char>, z: seq<char>)
    requires i < |t.params|
    ensures SpellList(t, i, b) + z == Spell(t.params[i], b) + (SepFrom(t, i + 1, b) + z)
  {
  }

  lemma ListStart(t: Ty, i: nat, b: seq<char>, z: seq<char>)
    requires WellFormed(t) && i < |t.params|
    ensures var l := SpellList(t, i, b) + z; |l| > 0 && IsIdentStart(l[0]) && SkipWs(l) == l
  {
    ListSplit(t, i, b, z);
    assert (SpellList(t, i, b) + z)[0] == t.params[i].name[0];
    SkipWsNone(SpellList(t, i, b) + z);
  }

  lemma ListStep(l: seq<char>, y: seq<char>, p: Ty, z: seq<char>, more: seq<Ty>)
    requires SkipWs(l) == l && ParseTy(l) == Ok(y, p) && ParseMore(y) == Ok(z, more)
    ensures ParseList(l) == Ok(z, [p] + more)
  {
  }

  /** The elements of `ps` from index `i` on. */
  function From(ps: seq<Ty>, i: nat): (r: seq<Ty>)
    requires i <= |ps|
    decreases |ps| - i
  {
    if i == |ps| then [] else [ps[i]] + From(ps, i + 1)
  }

  lemma {:induction false} FromIsDrop(ps: seq<Ty>, i: nat)
    requires i <= |ps|
    ensures From(ps, i) == ps[i..]
    decreases |ps| - i
  {
    if i < |ps| {
      FromIsDrop(ps, i + 1);
      assert ps[i..] == [ps[i]] + ps[i + 1..];
    }
  }

  lemma Uncons(ps: seq<Ty>)
    requires ps != []
    ensures [ps[0]] + From(ps, 1) == ps
  {
    FromIsDrop(ps, 1);
  }

  /** The separators and parameters from `i` on, followed by `z`, are
      read as the parameters from `i` on. */
  predicate MoreParses(t: Ty, i: nat, b: seq<char>, z: seq<char>)
    requires i <= |t.params|
  {
    ParseMore(SepFrom(t, i, b) + z) == Ok(z, From(t.params, i))
  }

  /** Parameter `i` is read from its spelling, up to its separator. */
  predicate HeadParses(t: Ty, i: nat, b: seq<char>, z: seq<char>)
    requires i < |t.params|
  {
    ParseTy(SpellList(t, i, b) + z) == Ok(SepFrom(t, i + 1, b) + z, t.params[i])
  }

  lemma MoreOf(t: Ty, i: nat, b: seq<char>, z: seq<char>)
    requires WellFormed(t) && Blank(b) && 1 <= i <= |t.params|
    requires Closes(z)
    ensures MoreParses(t, i, b, z)
    decreases t, 0, |t.params|, 1
  {
    LinksAt(t, i, b, z);
    ChainTexts(t, i, b, z);
  }

  /** Linked texts from `i` on, the last ending the list, read as the
      parameters from `i` on. */
  lemma ChainTexts(t: Ty, i: nat, b: seq<char>, z: seq<char>)
    requires Closes(z) && i <= |t.params|
    requires forall j :: i <= j < |t.params| ==> Linked(Texts(t, b, z), t.params, j)
    ensures MoreParses(t, i, b, z)
  {
    var ss := Texts(t, b, z);
    TextsEnd(t, b, z);
    Chain(ss, t.params, z, i);
    TextsAt(t, b, z, i);
  }

  /** The last of the texts is `z` itself, which ends the list. */
  lemma TextsEnd(t: Ty, b: seq<char>, z: seq<char>)
    requires Closes(z)
    ensures var ss := Texts(t, b, z);
      |ss| == |t.params| + 1 && ParseMore(ss[|t.params|]) == Ok(z, [])
  {
    TextsAt(t, b, z, |t.params|);
    MoreEnd(t, |t.params|, b, z);
  }

  /** A separator in front of `s` is followed by a parameter `p`, read up
      to `y`. */
  predicate Link(s: seq<char>, p: Ty, y: seq<char>)
  {
    "," <= SkipWs(s) && ParseTy(SkipWs(SkipWs(s)[1..])) == Ok(y, p)
  }

  /** Link `j` of a chain of texts. */
  predicate Linked(ss: seq<seq<char>>, ps: seq<Ty>, j: nat)
  {
    j < |ps| && j + 1 < |ss| && Link(ss[j], ps[j], ss[j + 1])
  }

  /** Texts `ss[j]` each linked by parameter `ps[j]` to `ss[j + 1]`, the
      last of which ends the list, are read as the parameters. */
  lemma {:induction false} Chain(ss: seq<seq<char>>, ps: seq<Ty>, z: seq<char>, k: nat)
    requires |ss| == |ps| + 1 && k <= |ps|
    requires ParseMore(ss[|ps|]) == Ok(z, [])
    requires forall j :: k <= j < |ps| ==> Linked(ss, ps, j)
    ensures ParseMore(ss[k]) == Ok(z, From(ps, k))
    decreases |ps| - k
  {
    if k < |ps| {
      assert Linked(ss, ps, k);
      Chain(ss, ps, z, k + 1);
      MoreStep(ss[k], SkipWs(SkipWs(ss[k])[1..]), ss[k + 1], ps[k], z, From(ps, k + 1));
    }
  }

  /** The separators from parameter `i` on form a chain. */
  lemma LinksAt(t: Ty, i: nat, b: seq<char>, z: seq<char>)
    requires WellFormed(t) && Blank(b) && i <= |t.params|
    ensures forall j :: i <= j < |t.params| ==> Linked(Texts(t, b, z), t.params, j)
    decreases t, 0, |t.params|, 0
  {
    var ss := Texts(t, b, z);
    forall j | i <= j < |t.params|
      ensures Linked(ss, t.params, j)
    {
      TextsAt(t, b, z, j);
      TextsAt(t, b, z, j + 1);
      LinkAt(t, j, b, z);
    }
  }

  /** The separator before parameter `j` links it to the next separator. */
  lemma LinkAt(t: Ty, j: nat, b: seq<char>, z: seq<char>)
    requires WellFormed(t) && Blank(b) && j < |t.params|
    ensures Link(SepFrom(t, j, b) + z, t.params[j], SepFrom(t, j + 1, b) + z)
    decreases t, 0, 0, 1
  {
    SepText(t, j, b, z);
    ListHead(t, j, b, z);
  }

  /** The separators from `j` on, each followed by `z`. */
  function Texts(t: Ty, b: seq<char>, z: seq<char>): seq<seq<char>>
  {
    seq(|t.params| + 1, k requires 0 <= k <= |t.params| => SepFrom(t, k, b) + z)
  }

  lemma TextsAt(t: Ty, b: seq<char>, z: seq<char>, k: nat)
    requires k <= |t.params|
    ensures |Texts(t, b, z)| == |t.params| + 1 && Texts(t, b, z)[k] == SepFrom(t, k, b) + z
  {
  }

  /** After the last parameter no separator follows, and the list ends. */
  lemma MoreEnd(t: Ty, i: nat, b: seq<char>, z: seq<char>)
    requires i == |t.params| && Closes(z)
    ensures MoreParses(t, i, b, z)
  {
    assert SepFrom(t, i, b) + z == z;

  }

  /** A separator and the blanks around it are skipped up to the next
      parameter. */
  lemma SepText(t: Ty, i: nat, b: seq<char>, z: seq<char>)
    requires WellFormed(t) && Blank(b) && i < |t.params|
    ensures var s := SepFrom(t, i, b) + z;
      "," <= SkipWs(s) && SkipWs(SkipWs(s)[1..]) == SpellList(t, i, b) + z
  {
    var l := SpellList(t, i, b) + z;
    var c := "," + (b + l);
    assert SepFrom(t, i, b) + z == b + c;
    Skipped(b, c);
    assert c[1..] == b + l;
    ListStart(t, i, b, z);
    Skipped(b, l);
  }

  lemma MoreStep(s: seq<char>, l: seq<char>, y: seq<char>, p: Ty, z: seq<char>, more: seq<Ty>)
    requires "," <= SkipWs(s) && SkipWs(SkipWs(s)[1..]) == l
    requires ParseTy(l) == Ok(y, p) && ParseMore(y) == Ok(z, more)
    ensures ParseMore(s) == Ok(z, [p] + more)
  {
  }

  // ---------------------------------------------------------------------
  // Names without brackets
  // ---------------------------------------------------------------------

  /** A name not followed by `<` is not a type: the brackets are required. */
  lemma BareNameRejected(x: seq<char>, rest: seq<char>)
    requires IsIdent(x) && (rest == [] || !IsIdentChar(rest[0]))
    requires !("<" <= SkipWs(rest))
    ensures ParseTy(x + rest).Error?
  {
    IdentifierOf(x, rest);
  }

  /** A parameter without brackets is not a type, and the `>` after it
      cannot close the list: the enclosing type is rejected. */
  lemma BareParamRejected(x: seq<char>, y: seq<char>, rest: seq<char>)
    requires IsIdent(x) && IsIdent(y)
    ensures ParseTy(x + ("<" + (y + (">" + rest)))).Error?
  {
    var e := ">" + rest;
    var v := y + e;
    var u := "<" + v;
    BareShape(x, y, e, v, u);
    BareNameRejected(y, e);
    ListEmpty(v);
    BracketsUnclosed(u, v, v);
    TyStep(x + u, u, x);
  }

  /** The name, then `<` and the parameter with no blank in front of
      either, then `>`. */
  lemma BareShape(x: seq<char>, y: seq<char>, e: seq<char>, v: seq<char>, u: seq<char>)
    requires IsIdent(x) && IsIdent(y) && |e| > 0 && e[0] == '>'
    requires v == y + e && u == "<" + v
    ensures Idents.Parse(x + u) == Ok(u, x)
    ensures SkipWs(u) == u && "<" <= u && u[1..] == v && SkipWs(v) == v
    ensures SkipWs(e) == e && !(">" <= SkipWs(v)) && !("<" <= SkipWs(e))
  {
    IdentifierOf(x, u);
    SkipWsNone(u);
    assert u[1..] == v;
    assert v[0] == y[0];
    SkipWsNone(v);
    SkipWsNone(e);
  }

  lemma BracketsUnclosed(s: seq<char>, l: seq<char>, z: seq<char>)
    requires "<" <= SkipWs(s) && SkipWs(SkipWs(s)[1..]) == l
    requires ParseList(l).rest == z && !(">" <= SkipWs(z))
    ensures ParseBrackets(s).Error?
  {
  }

  lemma TyStep(s: seq<char>, y: seq<char>, x: seq<char>)
    requires Idents.Parse(s) == Ok(y, x) && ParseBrackets(y).Error?
    ensures ParseTy(s).Error?
  {
  }

  /** The spelling of a type with at most one parameter, without blanks. */
  lemma SpellShapes(x: seq<char>, y: seq<char>)
    ensures Spell(Ty(y, []), "") == y + "<>"
    ensures Spell(Ty(x, [Ty(y, [])]), "") == x + ("<" + (y + "<>>"))
  {
    var p := Ty(y, []);
    assert ListText(p, "") == [];
    assert Brackets(p, "") == "<>";
    var t := Ty(x, [p]);
    assert SpellList(t, 0, "") == Spell(p, "") + [];
    assert ListText(t, "") == y + "<>";
    assert Brackets(t, "") == "<" + ((y + "<>") + ">");
    assert (y + "<>") + ">" == y + "<>>";
  }

  /** `x<>` is the type `x` without parameters. */
  lemma EmptyParams(x: seq<char>, rest: seq<char>)
    requires IsIdent(x)
    ensures ParseTy(x + ("<>" + rest)) == Ok(rest, Ty(x, []))
  {
    SpellShapes(x, x);
    assert (x + "<>") + rest == x + ("<>" + rest);
    ParseSpell(Ty(x, []), "", rest);
  }

  /** `x<y<>>` is read, where `x<y>` is rejected. */
  lemma NestedParam(x: seq<char>, y: seq<char>, rest: seq<char>)
    requires IsIdent(x) && IsIdent(y)
    ensures ParseTy(x + ("<" + (y + ("<>>" + rest)))) == Ok(rest, Ty(x, [Ty(y, [])]))
  {
    var t := Ty(x, [Ty(y, [])]);
    NestedText(x, y, rest);
    NestedWellFormed(x, y);
    ParseSpell(t, "", rest);
  }

  lemma NestedText(x: seq<char>, y: seq<char>, rest: seq<char>)
    ensures Spell(Ty(x, [Ty(y, [])]), "") + rest == x + ("<" + (y + ("<>>" + rest)))
  {
    SpellShapes(x, y);
    assert (x + ("<" + (y + "<>>"))) + rest == x + ("<" + (y + ("<>>" + rest)));
  }

  lemma NestedWellFormed(x: seq<char>, y: seq<char>)
    requires IsIdent(x) && IsIdent(y)
    ensures WellFormed(Ty(x, [Ty(y, [])]))
  {
    assert WellFormed(Ty(y, []));
  }
}
