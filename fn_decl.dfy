/** Function signatures (src/wgsl/fn_decl.rs): `fn name(a: T, …) -> R`,
    the way the WGSL specification writes a builtin's overload. */
module FnDecls {
  import opened Prelude
  import Idents
  import opened Types

  /** `FnDecl`: the name, the `(name, type)` arguments in order, and the
      return type (`void` when the signature has none). */
  datatype FnDecl = FnDecl(name: Idents.Ident, args: seq<(Idents.Ident, Ty)>, out: Ty)

  /** One argument, `separated_pair(ws0_then(Ident::parse),
      ws0_then(tag(":")), ws0_then(Ty::parse))`. */
  function ParseArg(s: seq<char>): (r: Res<(Idents.Ident, Ty)>)
    ensures Advances(r, s)
    ensures r.Ok? ==> IsIdent(r.value.0)
    ensures !Idents.Parse(SkipWs(s)).Ok? ==> r.Error?
  {
    var v := SkipWs(s);
    var r := ArgAfterWs(v);
    if r.Ok? then SuffixTrans(r.rest, v, s); r else r
  }

  /** The argument once the blanks before its name are skipped. */
  function ArgAfterWs(v: seq<char>): (r: Res<(Idents.Ident, Ty)>)
    ensures Advances(r, v)
    ensures r.Ok? ==> IsIdent(r.value.0)
    ensures !Idents.Parse(v).Ok? ==> r.Error?
  {
    match Idents.Parse(v)
    case Error => Error
    case Failure => Error
    case Ok(r1, name) =>
      SuffixOfConcat(name, r1);
      var w := SkipWs(r1);
      if !(":" <= w) then Error
      else
        var x := SkipWs(w[1..]);
        match ParseTy(x)
        case Ok(r2, t) =>
          SuffixTrans(w[1..], w, r1);
          SuffixTrans(x, w[1..], r1);
          SuffixTrans(r2, x, r1);
          SuffixTrans(r2, r1, v);
          Ok(r2, (name, t))
        case Error => Error
        case Failure => Failure
  }

  /** `separated_list0(ws0_then(tag(",")), <argument>)`: an argument that
      fails with `Error` ends the list, and a first one that does gives
      the empty list. */
  function ParseArgs(s: seq<char>): (r: Res<seq<(Idents.Ident, Ty)>>)
    ensures !r.Error?
    ensures Consumes(r, s)
  {
    match ParseArg(s)
    case Error => Ok(s, [])
    case Failure => Failure
    case Ok(r1, a) =>
      match ParseArgsMore(r1)
      case Ok(r2, more) =>
        SuffixTrans(r2, r1, s);
        Ok(r2, [a] + more)
      case Error => Error
      case Failure => Failure
  }

  /** The separator-then-argument repetitions of the list. */
  function ParseArgsMore(s: seq<char>): (r: Res<seq<(Idents.Ident, Ty)>>)
    decreases |s|
    ensures !r.Error?
    ensures Consumes(r, s)
  {
    var u := SkipWs(s);
    if !("," <= u) then Ok(s, [])
    else
      match ParseArg(u[1..])
      case Error => Ok(s, [])
      case Failure => Failure
      case Ok(r1, a) =>
        SuffixTrans(r1, u[1..], u);
        SuffixTrans(r1, u, s);
        match ParseArgsMore(r1)
        case Ok(r2, more) =>
          SuffixTrans(r2, r1, s);
          Ok(r2, [a] + more)
        case Error => Error
        case Failure => Failure
  }

  /** `ws0_then(delimited(ws0_then(tag("(")), ws0_then(<arguments>),
      ws0_then(tag(")"))))`; the outer and the first inner `ws0` skip the
      same run, so one `SkipWs` stands for both. */
  function ParseParens(s: seq<char>): (r: Res<seq<(Idents.Ident, Ty)>>)
    ensures Advances(r, s)
    ensures !("(" <= SkipWs(s)) ==> r.Error?
  {
    var u := SkipWs(s);
    if !("(" <= u) then Error
    else
      var v := SkipWs(u[1..]);
      SuffixTrans(u[1..], u, s);
      SuffixTrans(v, u[1..], s);
      match ParseArgs(v)
      case Ok(r1, args) =>
        var w := SkipWs(r1);
        if ")" <= w then
          SuffixTrans(r1, v, s);
          SuffixTrans(w, r1, s);
          SuffixTrans(w[1..], w, s);
          Ok(w[1..], args)
        else Error
      case Error => Error
      case Failure => Failure
  }

  /** `opt(preceded(ws0_then(tag("->")), ws0_then(Ty::parse)))`: without an
      arrow, or when no type follows it, nothing is consumed. */
  function ParseOut(s: seq<char>): (r: Res<Option<Ty>>)
    ensures !r.Error?
    ensures Consumes(r, s)
    ensures !("->" <= SkipWs(s)) ==> r == Ok(s, None)
    ensures r.Ok? && r.value.None? ==> r.rest == s
  {
    var u := SkipWs(s);
    if !("->" <= u) then Ok(s, None)
    else
      var v := SkipWs(u[2..]);
      match ParseTy(v)
      case Ok(r1, t) =>
        SuffixTrans(u[2..], u, s);
        SuffixTrans(v, u[2..], s);
        SuffixTrans(r1, v, s);
        Ok(r1, Some(t))
      case Error => Ok(s, None)
      case Failure => Failure
  }

  /** The name part, `preceded(tag("fn"), ws1_then(Ident::parse))`. */
  function ParseName(s: seq<char>): (r: Res<Idents.Ident>)
    ensures !r.Failure?
    ensures r.Ok? <==> "fn" <= s && |s| > 2 && IsWhitespace(s[2]) && Idents.Parse(SkipWs(s[2..])).Ok?
    ensures r.Ok? ==> r == Idents.Parse(SkipWs(s[2..]))
    ensures Advances(r, s)
  {
    match Tag("fn", s)
    case Ok(r0, _) =>
      assert r0 == s[2..];
      SuffixOfConcat("fn", r0);
      SkipWsIsWs0(r0);
      var r := Ws1Then(Idents.Parse, r0);
      if r.Ok? then
        SuffixOfConcat(r.value, r.rest);
        SuffixTrans(r.rest, SkipWs(r0), r0);
        SuffixTrans(r.rest, r0, s);
        r
      else r
    case _ => Error
  }

  /** `FnDecl::parse`: `fn`, whitespace, the name; then, committed by
      `cut`, the parenthesised arguments; then the optional return type,
      `void` when absent (`Ty::flatten`). */
  function Parse(s: seq<char>): (r: Res<FnDecl>)
    ensures Consumes(r, s) && Advances(r, s)
    ensures r.Error? <==> !ParseName(s).Ok?
    ensures r.Ok? ==> IsIdent(r.value.name)
  {
    match ParseName(s)
    case Error => Error
    case Failure => Error
    case Ok(r1, name) =>
      match ParseParens(r1)
      case Error => Failure
      case Failure => Failure
      case Ok(r2, args) =>
        match ParseOut(r2)
        case Error => Failure
        case Failure => Failure
        case Ok(r3, o) =>
          SuffixTrans(r3, r2, r1);
          SuffixTrans(r3, r1, s);
          Ok(r3, FnDecl(name, args, Flatten(o)))
  }

  /** `tys_mentioned`: the return type, then each argument type in order. */
  function TysMentioned(d: FnDecl): (r: seq<Ty>)
    ensures |r| == 1 + |d.args|
    ensures r[0] == d.out
    ensures forall i :: 0 <= i < |d.args| ==> r[i + 1] == d.args[i].1
  {
    [d.out] + seq(|d.args|, i requires 0 <= i < |d.args| => d.args[i].1)
  }

  /** The longest argument name, 0 without arguments
      (`max().unwrap_or_default()`). */
  function MaxNameLen(args: seq<(Idents.Ident, Ty)>): (m: nat)
    ensures forall i :: 0 <= i < |args| ==> |args[i].0| <= m
    ensures args == [] ==> m == 0
    ensures args != [] ==> exists i :: 0 <= i < |args| && |args[i].0| == m
  {
    if args == [] then 0
    else
      var m := MaxNameLen(args[1..]);
      assert forall i :: 1 <= i < |args| ==> args[i] == args[1..][i - 1];
      if |args[0].0| >= m then |args[0].0| else m
  }

  function Spaces(n: nat): (r: seq<char>)
    ensures |r| == n
    ensures forall i :: 0 <= i < n ==> r[i] == ' '
  {
    if n == 0 then [] else [' '] + Spaces(n - 1)
  }

  /** The `,` after every argument but the last. */
  function Comma(d: FnDecl, i: nat): seq<char>
  {
    if i + 1 != |d.args| then "," else ""
  }

  /** The line of argument `i`: indented, its name padded to the longest
      name, then `: ` and its type. */
  function Line(d: FnDecl, i: nat): seq<char>
    requires i < |d.args|
  {
    "    " + (d.args[i].0 + (" " + (Spaces(MaxNameLen(d.args) - |d.args[i].0|)
      + (": " + (Render(d.args[i].1) + (Comma(d, i) + "\n"))))))
  }

  /** Every argument line puts its `:` in the same column, one past the
      blank that follows the longest name; only blanks stand between a
      name and its `:`. */
  lemma ColonAligned(d: FnDecl, i: nat)
    requires i < |d.args|
    ensures var c := 5 + MaxNameLen(d.args);
      && |Line(d, i)| > c && Line(d, i)[c] == ':'
      && Line(d, i)[4..4 + |d.args[i].0|] == d.args[i].0
      && forall j :: 4 + |d.args[i].0| <= j < c ==> Line(d, i)[j] == ' '
  {
    var n := d.args[i].0;
    var k := MaxNameLen(d.args) - |n|;
    var e := ": " + (Render(d.args[i].1) + (Comma(d, i) + "\n"));
    assert Line(d, i) == "    " + (n + (" " + (Spaces(k) + e)));
    PaddedColon(n, k, e);
  }

  /** A name after four blanks, padded by `k + 1` blanks, then the `:`. */
  lemma PaddedColon(n: seq<char>, k: nat, e: seq<char>)
    requires |e| > 0 && e[0] == ':'
    ensures var l := "    " + (n + (" " + (Spaces(k) + e)));
      && |l| > 5 + |n| + k && l[5 + |n| + k] == ':'
      && l[4..4 + |n|] == n
      && forall j :: 4 + |n| <= j < 5 + |n| + k ==> l[j] == ' '
  {
    var p := "    " + (n + (" " + Spaces(k)));
    PadShape("    ", n, " " + Spaces(k), e);
    assert |p| == 5 + |n| + k;
    assert (p + e)[|p|] == e[0];
    assert p[4..4 + |n|] == n;
    forall j | 4 + |n| <= j < |p|
      ensures (p + e)[j] == ' '
    {
      assert (p + e)[j] == p[j];
      if j > 4 + |n| {
        assert p[j] == Spaces(k)[j - 5 - |n|];
      }
    }
  }

  lemma PadShape(a: seq<char>, b: seq<char>, c: seq<char>, e: seq<char>)
    ensures a + (b + (c + e)) == (a + (b + c)) + e
  {
  }

  /** The lines of the arguments from `i` on. */
  function Lines(d: FnDecl, i: nat): seq<char>
    requires i <= |d.args|
    decreases |d.args| - i
  {
    if i == |d.args| then [] else Line(d, i) + Lines(d, i + 1)
  }

  /** The last line: the return type, written even when it is `void`. */
  function Tail(d: FnDecl): seq<char>
  {
    ") -> " + Render(d.out) + "\n"
  }

  /** What `Display for FnDecl` writes. */
  function Text(d: FnDecl): seq<char>
  {
    "fn " + d.name + "(\n" + Lines(d, 0) + Tail(d)
  }

  /** The text from argument `i` on, split where `Display` writes the
      padding. */
  lemma LineSplit(d: FnDecl, i: nat, rest: seq<char>)
    requires i < |d.args|
    requires rest == ": " + (Render(d.args[i].1) + (Comma(d, i) + "\n")) + (Lines(d, i + 1) + Tail(d))
    ensures Lines(d, i) + Tail(d)
      == "    " + d.args[i].0 + " " + (Spaces(MaxNameLen(d.args) - |d.args[i].0|) + rest)
  {
    assert Lines(d, i) == Line(d, i) + Lines(d, i + 1);
    LineShape("    ", d.args[i].0, " ", Spaces(MaxNameLen(d.args) - |d.args[i].0|),
      ": " + (Render(d.args[i].1) + (Comma(d, i) + "\n")), Lines(d, i + 1), Tail(d));
  }

  lemma LineShape(a: seq<char>, b: seq<char>, c: seq<char>, p: seq<char>, e: seq<char>, l: seq<char>, t: seq<char>)
    ensures ((a + (b + (c + (p + e)))) + l) + t == a + b + c + (p + (e + (l + t)))
  {
  }

  lemma Regroup(a: seq<char>, b: seq<char>, c: seq<char>)
    ensures a + (b + c) == (a + b) + c
  {
  }

  /** `Display for FnDecl`: the header line, then one line per argument (the
      `enumerate` loop, with the inner loop writing the padding), then the
      return type. */
  method Display(d: FnDecl) returns (text: seq<char>)
    ensures text == Text(d)
  {
    text := "fn " + d.name + "(\n";
    var indent := "    ";
    var argsMax := MaxNameLen(d.args);
    Regroup(text, Lines(d, 0), Tail(d));
    for i := 0 to |d.args|
      invariant text + (Lines(d, i) + Tail(d)) == Text(d)
    {
      var (arg, ty) := d.args[i];
      var comma := if i + 1 != |d.args| then "," else "";
      ghost var rest := ": " + (Render(ty) + (comma + "\n")) + (Lines(d, i + 1) + Tail(d));
      LineSplit(d, i, rest);
      Regroup(text, indent + arg + " ", Spaces(argsMax - |arg|) + rest);
      text := text + (indent + arg + " ");
      for j := |arg| to argsMax
        invariant text + (Spaces(argsMax - j) + rest) == Text(d)
      {
        assert Spaces(argsMax - j) == " " + Spaces(argsMax - (j + 1));
        Regroup(" ", Spaces(argsMax - (j + 1)), rest);
        Regroup(text, " ", Spaces(argsMax - (j + 1)) + rest);
        text := text + " ";
      }
      var tyText := Write(ty);
      assert Spaces(argsMax - argsMax) + rest == rest;
      Regroup(text, ": " + (tyText + (comma + "\n")), Lines(d, i + 1) + Tail(d));
      text := text + (": " + (tyText + (comma + "\n")));
    }
    var outText := Write(d.out);
    assert Lines(d, |d.args|) + Tail(d) == Tail(d);
    text := text + (") -> " + outText + "\n");
  }

  /** Signatures whose rendering parses back: identifier names and types
      that round-trip on their own. */
  predicate RoundTrips(d: FnDecl)
  {
    && IsIdent(d.name) && WellFormed(d.out)
    && forall i :: 0 <= i < |d.args| ==> IsIdent(d.args[i].0) && WellFormed(d.args[i].1)
  }

  /** `Display` then `parse` gives the signature back; only the final
      newline is left over. */
  lemma ParseText(d: FnDecl)
    requires RoundTrips(d)
    ensures Parse(Text(d)) == Ok("\n", d)
  {
    TextShape("fn", " ", d.name, "(", Lines(d, 0), Tail(d));
    IdentStop(['('] + After(d, 0));
    NameStep(" ", d.name, ['('] + After(d, 0));
    ParensAt(d);
    OutAt(d);
    DeclStep(Text(d), ['('] + After(d, 0), d.name, Tail(d)[1..], d.args, "\n", Some(d.out));
  }

  /** The text still to parse when argument `i` comes next. */
  function After(d: FnDecl, i: nat): seq<char>
    requires i <= |d.args|
  {
    "\n" + (Lines(d, i) + Tail(d))
  }

  /** What follows argument `j - 1`: `,` and the next line, or the newline
      before `)` after the last argument. */
  function Sep(d: FnDecl, j: nat): seq<char>
    requires 1 <= j <= |d.args|
  {
    if j == |d.args| then After(d, j) else [','] + After(d, j)
  }

  lemma TextShape(f: seq<char>, b: seq<char>, n: seq<char>, o: seq<char>, l: seq<char>, t: seq<char>)
    requires f == "fn" && b == " " && o == "("
    ensures "fn " + n + "(\n" + l + t == f + (b + (n + (o + ("\n" + (l + t)))))
  {
  }

  lemma IdentStop(s: seq<char>)
    requires |s| > 0 && (s[0] == '(' || s[0] == ')' || s[0] == ',' || s[0] == ':' || s[0] == '\n' || s[0] == ' ')
    ensures s == [] || !IsIdentChar(s[0])
  {
  }

  /** `fn`, whitespace, and an identifier. */
  lemma NameStep(w: seq<char>, n: seq<char>, rest: seq<char>)
    requires |w| > 0 && forall i :: 0 <= i < |w| ==> IsWhitespace(w[i])
    requires IsIdent(n) && (rest == [] || !IsIdentChar(rest[0]))
    ensures ParseName("fn" + (w + (n + rest))) == Ok(rest, n)
  {
    var s := "fn" + (w + (n + rest));
    assert s[2..] == w + (n + rest);
    assert s[2] == w[0];
    SkipWsAppend(w, n + rest);
    IdentFirst(n, rest);
    IdentifierOf(n, rest);
  }

  /** `FnDecl::parse` as its three stages, each given by its result. */
  lemma DeclStep(s: seq<char>, r1: seq<char>, name: seq<char>, r2: seq<char>, args: seq<(Idents.Ident, Ty)>,
                 r3: seq<char>, o: Option<Ty>)
    requires ParseName(s) == Ok(r1, name) && ParseParens(r1) == Ok(r2, args) && ParseOut(r2) == Ok(r3, o)
    ensures Parse(s) == Ok(r3, FnDecl(name, args, Flatten(o)))
  {
  }

  /** `ParseParens` as its stages. */
  lemma ParensStep(s: seq<char>, v: seq<char>, x: seq<char>, rest: seq<char>, args: seq<(Idents.Ident, Ty)>)
    requires SkipWs(s) == s && "(" <= s && SkipWs(s[1..]) == v
    requires ParseArgs(v) == Ok(x, args) && ")" <= SkipWs(x) && SkipWs(x)[1..] == rest
    ensures ParseParens(s) == Ok(rest, args)
  {
  }

  /** The text opens with `(`, and no blank precedes it. */
  lemma OpenParen(s: seq<char>)
    requires |s| > 0 && s[0] == '('
    ensures SkipWs(s) == s && "(" <= s
  {
    SkipWsNone(s);
  }

  /** `ParseOut` when an arrow and a type follow. */
  lemma OutStep(s: seq<char>, u: seq<char>, v: seq<char>, rest: seq<char>, t: Ty)
    requires SkipWs(s) == u && "->" <= u && SkipWs(u[2..]) == v
    requires ParseTy(v) == Ok(rest, t)
    ensures ParseOut(s) == Ok(rest, Some(t))
  {
  }

  /** `ParseArgs` when a first argument parses. */
  lemma ArgsStep(s: seq<char>, y: seq<char>, a: (Idents.Ident, Ty), z: seq<char>, more: seq<(Idents.Ident, Ty)>)
    requires ParseArg(s) == Ok(y, a) && ParseArgsMore(y) == Ok(z, more)
    ensures ParseArgs(s) == Ok(z, [a] + more)
  {
  }

  /** `ParseArgsMore` after a separator and an argument. */
  lemma ArgsMoreStep(s: seq<char>, u: seq<char>, y: seq<char>, a: (Idents.Ident, Ty), z: seq<char>,
                     more: seq<(Idents.Ident, Ty)>)
    requires SkipWs(s) == u && |u| > 0 && u[0] == ','
    requires ParseArg(u[1..]) == Ok(y, a) && ParseArgsMore(y) == Ok(z, more)
    ensures ParseArgsMore(s) == Ok(z, [a] + more)
  {
    assert "," <= u;
  }

  /** One argument: blanks, a name, blanks, `:`, blanks, then the text `e`
      of a type that parses up to `rest`. */
  lemma ArgOf(w1: seq<char>, n: seq<char>, w2: seq<char>, w3: seq<char>, e: seq<char>, rest: seq<char>, t: Ty)
    requires forall i :: 0 <= i < |w1| ==> IsWhitespace(w1[i])
    requires forall i :: 0 <= i < |w2| ==> IsWhitespace(w2[i])
    requires IsIdent(n) && SkipWs(w3 + e) == e && ParseTy(e) == Ok(rest, t)
    ensures ParseArg(w1 + (n + (w2 + ([':'] + (w3 + e))))) == Ok(rest, (n, t))
  {
    var c := [':'] + (w3 + e);
    var b := w2 + c;
    ColonStop(w2, w3 + e);
    ArgName(w1, n, b);
    ArgColon(w2, w3 + e);
    ArgStep(w1 + (n + b), n + b, b, n, c, e, rest, t);
  }

  lemma ArgName(w1: seq<char>, n: seq<char>, b: seq<char>)
    requires forall i :: 0 <= i < |w1| ==> IsWhitespace(w1[i])
    requires IsIdent(n) && b != [] && !IsIdentChar(b[0])
    ensures SkipWs(w1 + (n + b)) == n + b && Idents.Parse(n + b) == Ok(b, n)
  {
    SkipWsAppend(w1, n + b);
    IdentFirst(n, b);
    IdentifierOf(n, b);
  }

  lemma ArgColon(w2: seq<char>, d: seq<char>)
    requires forall i :: 0 <= i < |w2| ==> IsWhitespace(w2[i])
    ensures var c := [':'] + d; SkipWs(w2 + c) == c && |c| > 0 && c[0] == ':' && c[1..] == d
  {
    var c := [':'] + d;
    SkipWsAppend(w2, c);
    SkipWsNone(c);
  }

  /** Blanks or a `:` end the name before them. */
  lemma ColonStop(w2: seq<char>, d: seq<char>)
    requires forall i :: 0 <= i < |w2| ==> IsWhitespace(w2[i])
    ensures w2 + ([':'] + d) != [] && !IsIdentChar((w2 + ([':'] + d))[0])
  {
    var c := [':'] + d;
    if w2 == [] {
      assert w2 + c == c;
    } else {
      assert (w2 + c)[0] == w2[0];
      WsNotIdentChar(w2[0]);
    }
  }

  lemma WsNotIdentChar(c: char)
    requires IsWhitespace(c)
    ensures !IsIdentChar(c)
  {
  }

  lemma ArgType(w3: seq<char>, t: Ty, rest: seq<char>)
    requires forall i :: 0 <= i < |w3| ==> IsWhitespace(w3[i])
    requires WellFormed(t) && Boundary(rest)
    ensures SkipWs(w3 + (Render(t) + rest)) == Render(t) + rest
    ensures ParseTy(Render(t) + rest) == Ok(rest, t)
  {
    SkipWsAppend(w3, Render(t) + rest);
    RenderStart(t);
    assert (Render(t) + rest)[0] == Render(t)[0];
    SkipWsNone(Render(t) + rest);
    ParseRender(t, rest);
  }

  /** `ParseArg` as its stages. */
  lemma ArgStep(s: seq<char>, a: seq<char>, b: seq<char>, n: seq<char>, c: seq<char>, e: seq<char>,
                rest: seq<char>, t: Ty)
    requires SkipWs(s) == a && Idents.Parse(a) == Ok(b, n) && SkipWs(b) == c && |c| > 0 && c[0] == ':'
    requires SkipWs(c[1..]) == e && ParseTy(e) == Ok(rest, t)
    ensures ParseArg(s) == Ok(rest, (n, t))
  {
    assert ":" <= c;
  }

  /** The text before argument `i`, laid out as `ArgOf` reads it. */
  lemma AfterShape(d: FnDecl, i: nat)
    requires i < |d.args|
    ensures After(d, i) == "\n    " + (d.args[i].0 + ((" " + Spaces(MaxNameLen(d.args) - |d.args[i].0|))
      + ([':'] + (" " + (Render(d.args[i].1) + (Comma(d, i) + ("\n" + (Lines(d, i + 1) + Tail(d)))))))))
  {
    assert Lines(d, i) == Line(d, i) + Lines(d, i + 1);
    AfterPieces(d.args[i].0, Spaces(MaxNameLen(d.args) - |d.args[i].0|), Render(d.args[i].1), Comma(d, i),
      Lines(d, i + 1), Tail(d));
  }

  lemma AfterPieces(n: seq<char>, p: seq<char>, r: seq<char>, c: seq<char>, l: seq<char>, t: seq<char>)
    ensures "\n" + ((("    " + (n + (" " + (p + (": " + (r + (c + "\n"))))))) + l) + t)
      == "\n    " + (n + ((" " + p) + ([':'] + (" " + (r + (c + ("\n" + (l + t))))))))
  {
  }

  /** The whitespace around an argument's `:` in the rendering. */
  lemma Blanks(k: nat)
    ensures forall i :: 0 <= i < |"\n    "| ==> IsWhitespace("\n    "[i])
    ensures forall i :: 0 <= i < |" " + Spaces(k)| ==> IsWhitespace((" " + Spaces(k))[i])
    ensures forall i :: 0 <= i < |" "| ==> IsWhitespace(" "[i])
  {
    assert forall i :: 1 <= i < |" " + Spaces(k)| ==> (" " + Spaces(k))[i] == Spaces(k)[i - 1];
  }

  /** After the last argument: a newline and `)`. */
  lemma BoundaryNewline(t: seq<char>)
    requires |t| > 0 && t[0] == ')'
    ensures Boundary("\n" + t) && SkipWs("\n" + t) == t
    ensures !(":" <= SkipWs("\n" + t)) && !("," <= SkipWs("\n" + t))
  {
    var n := "\n" + t;
    assert n[0] == '\n' && n[1..] == t;
    SkipWsAppend("\n", t);
    SkipWsNone(t);
    assert SkipWs(n) == t;
    assert !("<" <= t) && !(":" <= t) && !("," <= t) by { assert t[0] == ')'; }
  }

  lemma SepShape(d: FnDecl, i: nat)
    requires i < |d.args|
    ensures Sep(d, i + 1) == Comma(d, i) + ("\n" + (Lines(d, i + 1) + Tail(d)))
    ensures i + 1 < |d.args| ==> |Sep(d, i + 1)| > 0 && Sep(d, i + 1)[0] == ','
    ensures i + 1 == |d.args| ==> Sep(d, i + 1) == "\n" + Tail(d)
  {
    if i + 1 == |d.args| {
      assert Lines(d, i + 1) + Tail(d) == Tail(d);
    }
  }

  /** Argument `i` is read from its line, up to what follows it. */
  lemma ArgAt(d: FnDecl, i: nat)
    requires RoundTrips(d) && i < |d.args|
    ensures ParseArg(After(d, i)) == Ok(Sep(d, i + 1), d.args[i])
  {
    var k := MaxNameLen(d.args) - |d.args[i].0|;
    AfterShape(d, i);
    SepShape(d, i);
    Blanks(k);
    if i + 1 < |d.args| {
      BoundaryOf(Sep(d, i + 1));
    } else {
      BoundaryNewline(Tail(d));
    }
    ArgType(" ", d.args[i].1, Sep(d, i + 1));
    ArgOf("\n    ", d.args[i].0, " " + Spaces(k), " ", Render(d.args[i].1) + Sep(d, i + 1), Sep(d, i + 1), d.args[i].1);
  }

  lemma ArgsTail(args: seq<(Idents.Ident, Ty)>, j: nat)
    requires j < |args|
    ensures [args[j]] + args[j + 1..] == args[j..]
  {
  }

  /** One link of an argument list: whitespace, `,`, then an argument
      that parses up to `y`. */
  predicate MoreLink(s: seq<char>, a: (Idents.Ident, Ty), y: seq<char>)
  {
    var u := SkipWs(s);
    |u| > 0 && u[0] == ',' && ParseArg(u[1..]) == Ok(y, a)
  }

  /** Texts `ss[k]` that each hold one more argument `as_[k]` before
      `ss[k + 1]` (by `link`), and a last text where the list stops with
      `z` left. */
  predicate Chained(link: (seq<char>, (Idents.Ident, Ty), seq<char>) -> bool, ss: seq<seq<char>>,
                    as_: seq<(Idents.Ident, Ty)>, z: seq<char>)
    decreases |as_|
  {
    && |ss| == |as_| + 1
    && if as_ == [] then ParseArgsMore(ss[0]) == Ok(z, [])
       else link(ss[0], as_[0], ss[1]) && Chained(link, ss[1..], as_[1..], z)
  }

  /** A chain of links is read by `ParseArgsMore` as the list of its
      arguments. */
  lemma {:induction false} Chain(ss: seq<seq<char>>, as_: seq<(Idents.Ident, Ty)>, z: seq<char>)
    requires Chained(MoreLink, ss, as_, z)
    ensures ParseArgsMore(ss[0]) == Ok(z, as_)
    decreases |as_|
  {
    if as_ != [] {
      Chain(ss[1..], as_[1..], z);
      LinkStep(ss[0], ss[1], as_[0], as_[1..], z);
      ArgsTail(as_, 0);
      assert as_[0..] == as_;
    }
  }

  /** One link in front of a list that parses. */
  lemma LinkStep(s: seq<char>, y: seq<char>, a: (Idents.Ident, Ty), more: seq<(Idents.Ident, Ty)>, z: seq<char>)
    requires MoreLink(s, a, y) && ParseArgsMore(y) == Ok(z, more)
    ensures ParseArgsMore(s) == Ok(z, [a] + more)
  {
    ArgsMoreStep(s, SkipWs(s), y, a, z, more);
  }

  /** Links given one by one make a chain. */
  lemma {:induction false} LinksChain(link: (seq<char>, (Idents.Ident, Ty), seq<char>) -> bool, ss: seq<seq<char>>,
                                      as_: seq<(Idents.Ident, Ty)>, z: seq<char>)
    requires |ss| == |as_| + 1 && ParseArgsMore(ss[|as_|]) == Ok(z, [])
    requires forall k :: 0 <= k < |as_| ==> link(ss[k], as_[k], ss[k + 1])
    ensures Chained(link, ss, as_, z)
    decreases |as_|
  {
    if as_ != [] {
      LinksChain(link, ss[1..], as_[1..], z);
    }
  }

  /** The separator before argument `j` links it to the next separator. */
  lemma LinkAt(d: FnDecl, j: nat)
    requires RoundTrips(d) && 1 <= j < |d.args|
    ensures MoreLink(Sep(d, j), d.args[j], Sep(d, j + 1))
  {
    ArgAt(d, j);
    BoundaryOf(Sep(d, j));
    assert Sep(d, j)[1..] == After(d, j);
  }

  /** `f(j)`, `f(j + 1)`, ..., `f(n)`. */
  function Tab(f: nat -> seq<char>, j: nat, n: nat): seq<seq<char>>
    requires j <= n
    decreases n - j
  {
    if j == n then [f(j)] else [f(j)] + Tab(f, j + 1, n)
  }

  lemma {:induction false} TabAt(f: nat -> seq<char>, j: nat, n: nat, k: nat)
    requires j <= n && k <= n - j
    ensures |Tab(f, j, n)| == n - j + 1 && Tab(f, j, n)[k] == f(j + k)
    decreases n - j
  {
    if j < n {
      TabAt(f, j + 1, n, if k == 0 then 0 else k - 1);
    }
  }

  /** The separator before argument `j`, for every `j`. */
  function SepOr(d: FnDecl, j: nat): seq<char>
  {
    if 1 <= j <= |d.args| then Sep(d, j) else []
  }

  /** The separators from argument 0 on, in order. */
  function Seps(d: FnDecl): seq<seq<char>>
    requires 1 <= |d.args|
  {
    Tab((j: nat) => SepOr(d, j), 1, |d.args|)
  }

  lemma SepsAt(d: FnDecl, k: nat)
    requires k < |d.args|
    ensures |Seps(d)| == |d.args| && Seps(d)[k] == Sep(d, k + 1)
  {
    TabAt((j: nat) => SepOr(d, j), 1, |d.args|, k);
  }

  /** The separators of a rendering form a chain of its arguments. */
  lemma LinksAt(d: FnDecl)
    requires RoundTrips(d) && 1 <= |d.args|
    ensures Chained(MoreLink, Seps(d), d.args[1..], "\n" + Tail(d))
  {
    var n := |d.args|;
    var ss := Seps(d);
    var as_ := d.args[1..];
    SepsAt(d, 0);
    forall k | 0 <= k < |as_|
      ensures MoreLink(ss[k], as_[k], ss[k + 1])
    {
      SepsAt(d, k);
      SepsAt(d, k + 1);
      LinkAt(d, k + 1);
    }
    SepsAt(d, n - 1);
    MoreEnd(d, n);
    LinksChain(MoreLink, ss, as_, "\n" + Tail(d));
  }

  /** The arguments after the first are read, each after its separator. */
  lemma MoreAt(d: FnDecl)
    requires RoundTrips(d) && 1 <= |d.args|
    ensures ParseArgsMore(Sep(d, 1)) == Ok("\n" + Tail(d), d.args[1..])
  {
    LinksAt(d);
    Chain(Seps(d), d.args[1..], "\n" + Tail(d));
    SepsAt(d, 0);
  }

  /** After the last argument the list ends. */
  lemma MoreEnd(d: FnDecl, j: nat)
    requires 1 <= j == |d.args|
    ensures ParseArgsMore(Sep(d, j)) == Ok("\n" + Tail(d), [])
  {
    SepShape(d, j - 1);
    BoundaryNewline(Tail(d));
  }

  /** `ParseArg` skips leading whitespace itself. */
  lemma ArgSkip(s: seq<char>)
    ensures ParseArg(SkipWs(s)) == ParseArg(s)
  {
    SkipWsNone(SkipWs(s));
    assert SkipWs(SkipWs(s)) == SkipWs(s);
  }

  /** The argument list of the rendering, from `(` to `)`. */
  lemma ParensAt(d: FnDecl)
    requires RoundTrips(d)
    ensures ParseParens(['('] + After(d, 0)) == Ok(Tail(d)[1..], d.args)
  {
    var s := ['('] + After(d, 0);
    OpenParen(s);
    assert s[1..] == After(d, 0);
    ArgsAt(d);
    OutAt(d);
    CloseParen(Tail(d));
    if d.args == [] {
      ParensStep(s, SkipWs(After(d, 0)), Tail(d), Tail(d)[1..], d.args);
    } else {
      BoundaryNewline(Tail(d));
      ParensStep(s, SkipWs(After(d, 0)), "\n" + Tail(d), Tail(d)[1..], d.args);
    }
  }

  lemma ArgsAt(d: FnDecl)
    requires RoundTrips(d)
    ensures d.args == [] ==> ParseArgs(SkipWs(After(d, 0))) == Ok(Tail(d), [])
    ensures d.args != [] ==> ParseArgs(SkipWs(After(d, 0))) == Ok("\n" + Tail(d), d.args)
  {
    if d.args == [] {
      ArgsNone(d);
    } else {
      ArgsSome(d);
    }
  }

  lemma ArgsNone(d: FnDecl)
    requires RoundTrips(d) && d.args == []
    ensures ParseArgs(SkipWs(After(d, 0))) == Ok(Tail(d), [])
  {
    var t := Tail(d);
    assert t == ")" + (" -> " + Render(d.out) + "\n");
    assert After(d, 0) == "\n" + t;
    BoundaryNewline(t);
    ArgsEmpty(t);
  }

  /** At `)` no argument starts, and the list is empty. */
  lemma ArgsEmpty(t: seq<char>)
    requires |t| > 0 && t[0] == ')'
    ensures ParseArgs(t) == Ok(t, [])
  {
    SkipWsNone(t);
    assert !Idents.Parse(SkipWs(t)).Ok?;
  }

  lemma ArgsSome(d: FnDecl)
    requires RoundTrips(d) && d.args != []
    ensures ParseArgs(SkipWs(After(d, 0))) == Ok("\n" + Tail(d), d.args)
  {
    ArgAt(d, 0);
    MoreAt(d);
    ArgsFrom(After(d, 0), Sep(d, 1), d.args, "\n" + Tail(d));
  }

  /** A first argument, then the rest of the list. */
  lemma ArgsFrom(s: seq<char>, y: seq<char>, as_: seq<(Idents.Ident, Ty)>, z: seq<char>)
    requires |as_| > 0 && ParseArg(s) == Ok(y, as_[0]) && ParseArgsMore(y) == Ok(z, as_[1..])
    ensures ParseArgs(SkipWs(s)) == Ok(z, as_)
  {
    ArgSkip(s);
    ArgsStep(SkipWs(s), y, as_[0], z, as_[1..]);
    ArgsTail(as_, 0);
    assert as_[0..] == as_;
  }


  // ---------------------------------------------------------------------
  // Argument lists as written in the specification
  // ---------------------------------------------------------------------

  /** The arguments after the first, each written `, w name: T` with the
      same run `w` of whitespace after every comma, then `rest`. */
  function ArgsText(as_: seq<(Idents.Ident, Ty)>, w: seq<char>, rest: seq<char>): seq<char>
  {
    if as_ == [] then rest
    else [','] + (w + (as_[0].0 + ([':'] + (" " + (Render(as_[0].1) + ArgsText(as_[1..], w, rest))))))
  }

  /** An argument list written out: the first argument, then the others
      as `ArgsText` writes them. */
  function ArgList(as_: seq<(Idents.Ident, Ty)>, w: seq<char>, rest: seq<char>): seq<char>
  {
    if as_ == [] then rest
    else as_[0].0 + ([':'] + (" " + (Render(as_[0].1) + ArgsText(as_[1..], w, rest))))
  }

  /** Every argument has an identifier for its name and a type that reads
      back from its rendering. */
  predicate ArgsWellFormed(as_: seq<(Idents.Ident, Ty)>)
  {
    forall i :: 0 <= i < |as_| ==> IsIdent(as_[i].0) && WellFormed(as_[i].1)
  }

  lemma ArgsWellFormedTail(as_: seq<(Idents.Ident, Ty)>)
    requires as_ != [] && ArgsWellFormed(as_)
    ensures IsIdent(as_[0].0) && WellFormed(as_[0].1) && ArgsWellFormed(as_[1..])
  {
    assert forall i :: 0 <= i < |as_| - 1 ==> as_[1..][i] == as_[i + 1];
  }

  /** `name: T` after blanks `w1`, then text that ends a type. */
  lemma ArgTyped(w1: seq<char>, n: seq<char>, t: Ty, rest: seq<char>)
    requires forall i :: 0 <= i < |w1| ==> IsWhitespace(w1[i])
    requires IsIdent(n) && WellFormed(t) && Boundary(rest)
    ensures ParseArg(w1 + (n + ([':'] + (" " + (Render(t) + rest))))) == Ok(rest, (n, t))
  {
    NoBlanks();
    ArgType(" ", t, rest);
    ArgOf(w1, n, "", " ", Render(t) + rest, rest, t);
    EmptyFront([':'] + (" " + (Render(t) + rest)));
  }

  /** The written text of the later arguments starts with `,`, or is
      `rest` when there are none. */
  lemma ArgsTextStart(as_: seq<(Idents.Ident, Ty)>, w: seq<char>, rest: seq<char>)
    ensures as_ != [] ==> |ArgsText(as_, w, rest)| > 0 && ArgsText(as_, w, rest)[0] == ','
    ensures as_ == [] ==> ArgsText(as_, w, rest) == rest
  {
  }

  /** Whatever blanks follow each comma, the later arguments are read back
      in the written order, and the list ends at `)`. */
  lemma {:induction false} ArgsMoreOf(as_: seq<(Idents.Ident, Ty)>, w: seq<char>, rest: seq<char>)
    requires forall i :: 0 <= i < |w| ==> IsWhitespace(w[i])
    requires ArgsWellFormed(as_) && |rest| > 0 && rest[0] == ')'
    ensures ParseArgsMore(ArgsText(as_, w, rest)) == Ok(rest, as_)
    decreases |as_|
  {
    if as_ == [] {
      CloseParen(rest);
      MoreStop(rest);
    } else {
      ArgsWellFormedTail(as_);
      var tail := ArgsText(as_[1..], w, rest);
      ArgsMoreOf(as_[1..], w, rest);
      ArgsTextStart(as_[1..], w, rest);
      if as_[1..] == [] { CloseParen(rest); } else { BoundaryOf(tail); }
      ArgTyped(w, as_[0].0, as_[0].1, tail);
      MoreLinkOf(w + (as_[0].0 + ([':'] + (" " + (Render(as_[0].1) + tail)))), tail, as_[0], as_[1..], rest);
      ArgsTail(as_, 0);
      assert as_[0..] == as_;
    }
  }

  /** `,` then an argument, in front of a list that parses. */
  lemma MoreLinkOf(b: seq<char>, tail: seq<char>, a: (Idents.Ident, Ty), more: seq<(Idents.Ident, Ty)>, z: seq<char>)
    requires ParseArg(b) == Ok(tail, a) && ParseArgsMore(tail) == Ok(z, more)
    ensures ParseArgsMore([','] + b) == Ok(z, [a] + more)
  {
    CommaFront(b);
    ArgsMoreStep([','] + b, [','] + b, tail, a, z, more);
  }

  lemma CommaFront(b: seq<char>)
    ensures var m := [','] + b; SkipWs(m) == m && |m| > 0 && m[0] == ',' && m[1..] == b
  {
    SkipWsNone([','] + b);
  }



  /** `separated_list0` reads a written argument list back: one argument
      per written one, in order, up to the `)` that closes it. */
  lemma ArgListOf(as_: seq<(Idents.Ident, Ty)>, w: seq<char>, rest: seq<char>)
    requires forall i :: 0 <= i < |w| ==> IsWhitespace(w[i])
    requires ArgsWellFormed(as_) && |rest| > 0 && rest[0] == ')'
    ensures ParseArgs(ArgList(as_, w, rest)) == Ok(rest, as_)
  {
    if as_ == [] {
      ArgsEmpty(rest);
    } else {
      ArgsWellFormedTail(as_);
      var tail := ArgsText(as_[1..], w, rest);
      ArgsMoreOf(as_[1..], w, rest);
      ArgsTextStart(as_[1..], w, rest);
      if as_[1..] == [] { CloseParen(rest); } else { BoundaryOf(tail); }
      ArgTyped("", as_[0].0, as_[0].1, tail);
      EmptyFront(ArgList(as_, w, rest));
      ArgsStep(ArgList(as_, w, rest), tail, as_[0], rest, as_[1..]);
      ArgsTail(as_, 0);
      assert as_[0..] == as_;
    }
  }

  /** A signature written `fn name(args) -> T`, the arguments laid out with
      the same blanks after every comma, reads back as its name, its
      arguments in order and its return type. */
  lemma DeclOf(n: seq<char>, as_: seq<(Idents.Ident, Ty)>, w: seq<char>, out: Ty, rest: seq<char>)
    requires IsIdent(n) && as_ != [] && ArgsWellFormed(as_) && WellFormed(out)
    requires forall i :: 0 <= i < |w| ==> IsWhitespace(w[i])
    requires ParseTy(Render(out) + rest) == Ok(rest, out)
    ensures Parse("fn" + (" " + (n + (['('] + ArgList(as_, w, [')'] + (" " + ("->" + (" " + (Render(out) + rest)))))))))
      == Ok(rest, FnDecl(n, as_, out))
  {
    var tail := " " + ("->" + (" " + (Render(out) + rest)));
    var l := ArgList(as_, w, [')'] + tail);
    ArgListOf(as_, w, [')'] + tail);
    ArgListStart(as_, w, [')'] + tail);
    ArrowOf(out, rest);
    DeclAt(n, l, tail, as_, rest, out);
  }

  /** `DeclOf` over any argument text `l` that reads as the arguments. */
  lemma DeclAt(n: seq<char>, l: seq<char>, tail: seq<char>, as_: seq<(Idents.Ident, Ty)>, rest: seq<char>, out: Ty)
    requires IsIdent(n) && |l| > 0 && IsIdentStart(l[0])
    requires ParseArgs(l) == Ok([')'] + tail, as_)
    requires ParseOut(tail) == Ok(rest, Some(out))
    ensures Parse("fn" + (" " + (n + (['('] + l)))) == Ok(rest, FnDecl(n, as_, out))
  {
    ParensOf(l, tail, as_);
    OpenName(n, l);
    DeclStep("fn" + (" " + (n + (['('] + l))), ['('] + l, n, tail, as_, rest, Some(out));
  }

  lemma ArgListStart(as_: seq<(Idents.Ident, Ty)>, w: seq<char>, rest: seq<char>)
    requires as_ != [] && IsIdent(as_[0].0)
    ensures |ArgList(as_, w, rest)| > 0 && IsIdentStart(ArgList(as_, w, rest)[0])
  {
    var n := as_[0].0;
    var b := [':'] + (" " + (Render(as_[0].1) + ArgsText(as_[1..], w, rest)));
    assert ArgList(as_, w, rest) == n + b;
    assert (n + b)[0] == n[0];
  }

  /** `fn`, one blank and the name, in front of `(`. */
  lemma OpenName(n: seq<char>, l: seq<char>)
    requires IsIdent(n)
    ensures ParseName("fn" + (" " + (n + (['('] + l)))) == Ok(['('] + l, n)
  {
    Blanks(0);
    IdentStop(['('] + l);
    NameStep(" ", n, ['('] + l);
  }

  /** ` -> T` after the arguments. */
  lemma ArrowOf(out: Ty, rest: seq<char>)
    requires WellFormed(out) && ParseTy(Render(out) + rest) == Ok(rest, out)
    ensures ParseOut(" " + ("->" + (" " + (Render(out) + rest)))) == Ok(rest, Some(out))
  {
    var e := Render(out) + rest;
    RenderFront(out, rest);
    ArrowFront(e);
    OutStep(" " + ("->" + (" " + e)), "->" + (" " + e), e, rest, out);
  }

  lemma RenderFront(t: Ty, rest: seq<char>)
    requires WellFormed(t)
    ensures |Render(t) + rest| > 0 && IsIdentStart((Render(t) + rest)[0])
  {
    RenderStart(t);
    assert (Render(t) + rest)[0] == Render(t)[0];
  }

  lemma ArrowFront(e: seq<char>)
    requires |e| > 0 && IsIdentStart(e[0])
    ensures var a := "->" + (" " + e); SkipWs(" " + a) == a && "->" <= a && SkipWs(a[2..]) == e
  {
    var a := "->" + (" " + e);
    ArrowText(e);
    NoBlanks();
    SkipWsAppend(" ", e);
    SkipWsNone(e);
  }

  /** The return type after `)`. */
  lemma OutAt(d: FnDecl)
    requires RoundTrips(d)
    ensures |Tail(d)| > 0 && Tail(d)[0] == ')'
    ensures ParseOut(Tail(d)[1..]) == Ok("\n", Some(d.out))
  {
    var e := Render(d.out) + "\n";
    assert Tail(d)[1..] == " " + ("->" + (" " + e));
    SkipWsAppend(" ", "->" + (" " + e));
    SkipWsNone("->" + (" " + e));
    assert ("->" + (" " + e))[2..] == " " + e;
    assert "->" <= "->" + (" " + e);
    SkipWsAppend("\n", []);
    assert Boundary("\n");
    Blanks(0);
    ArgType(" ", d.out, "\n");
    OutStep(Tail(d)[1..], "->" + (" " + e), e, "\n", d.out);
  }

  /** `name: x` for a plain type name `x`, after blanks `w1`. */
  lemma ArgLeaf(w1: seq<char>, n: seq<char>, x: seq<char>, rest: seq<char>)
    requires forall i :: 0 <= i < |w1| ==> IsWhitespace(w1[i])
    requires IsIdent(n) && NamedRoundTrips(x) && Boundary(rest)
    ensures ParseArg(w1 + (n + ([':'] + (" " + (x + rest))))) == Ok(rest, (n, Leaf(x)))
  {
    LeafFacts(x, rest);
    NoBlanks();
    ArgOf(w1, n, "", " ", x + rest, rest, Leaf(x));
    EmptyFront([':'] + (" " + (x + rest)));
  }

  lemma LeafFacts(x: seq<char>, rest: seq<char>)
    requires NamedRoundTrips(x) && Boundary(rest)
    ensures SkipWs(" " + (x + rest)) == x + rest && ParseTy(x + rest) == Ok(rest, Leaf(x))
  {
    IdentFirst(x, rest);
    SkipWsAppend(" ", x + rest);
    LeafParse(x, rest);
  }

  lemma NoBlanks()
    ensures forall i :: 0 <= i < |" "| ==> IsWhitespace(" "[i])
  {
  }

  lemma EmptyFront(s: seq<char>)
    ensures "" + s == s
  {
  }

  /** No `,` after the blanks: the list ends and nothing is consumed. */
  lemma MoreStop(s: seq<char>)
    requires !("," <= SkipWs(s))
    ensures ParseArgsMore(s) == Ok(s, [])
  {
  }

  /** A `)` ends a type and an argument list. */
  lemma CloseParen(t: seq<char>)
    requires |t| > 0 && t[0] == ')'
    ensures Boundary(t) && SkipWs(t) == t && !("," <= t) && ")" <= t
  {
    SkipWsNone(t);
  }

  /** `, name: x` and then `)`: one more argument, and the list ends. */
  lemma MoreLeaf(n: seq<char>, x: seq<char>, c: seq<char>)
    requires IsIdent(n) && NamedRoundTrips(x) && |c| > 0 && c[0] == ')'
    ensures ParseArgsMore([','] + (" " + (n + ([':'] + (" " + (x + c)))))) == Ok(c, [(n, Leaf(x))])
  {
    var l := " " + (n + ([':'] + (" " + (x + c))));
    var m := [','] + l;
    CloseParen(c);
    NoBlanks();
    ArgLeaf(" ", n, x, c);
    MoreStop(c);
    assert m[1..] == l;
    BoundaryOf(m);
    ArgsMoreStep(m, m, c, (n, Leaf(x)), c, []);
    OneMore((n, Leaf(x)));
  }

  lemma OneMore(a: (Idents.Ident, Ty))
    ensures [a] + [] == [a]
  {
  }

  /** `name: x` and then a list continued by `m`. */
  lemma FirstLeaf(n: seq<char>, x: seq<char>, m: seq<char>, c: seq<char>, more: seq<(Idents.Ident, Ty)>)
    requires IsIdent(n) && NamedRoundTrips(x) && |m| > 0 && m[0] == ','
    requires ParseArgsMore(m) == Ok(c, more)
    ensures ParseArgs(n + ([':'] + (" " + (x + m)))) == Ok(c, [(n, Leaf(x))] + more)
  {
    BoundaryOf(m);
    ArgLeaf("", n, x, m);
    EmptyFront(n + ([':'] + (" " + (x + m))));
    ArgsStep(n + ([':'] + (" " + (x + m))), m, (n, Leaf(x)), c, more);
  }

  /** `(`, a list that starts with a name, and `)`. */
  lemma ParensOf(l: seq<char>, tail: seq<char>, args: seq<(Idents.Ident, Ty)>)
    requires |l| > 0 && IsIdentStart(l[0])
    requires ParseArgs(l) == Ok([')'] + tail, args)
    ensures ParseParens(['('] + l) == Ok(tail, args)
  {
    ParensShape(l, tail);
    ParensStep(['('] + l, l, [')'] + tail, tail, args);
  }

  /** No blank before `(`, before the list, or before `)`. */
  lemma ParensShape(l: seq<char>, tail: seq<char>)
    requires |l| > 0 && IsIdentStart(l[0])
    ensures var s := ['('] + l; SkipWs(s) == s && "(" <= s && SkipWs(s[1..]) == l
    ensures var c := [')'] + tail; SkipWs(c) == c && ")" <= c && c[1..] == tail
  {
    var s := ['('] + l;
    var c := [')'] + tail;
    CloseParen(c);
    OpenParen(s);
    SkipWsNone(l);
    assert s[1..] == l;
  }

  /** A two-argument list `(n1: x1, n2: x2)`, followed by `tail`. */
  lemma TwoArgs(n1: seq<char>, x1: seq<char>, n2: seq<char>, x2: seq<char>, tail: seq<char>)
    requires IsIdent(n1) && NamedRoundTrips(x1) && IsIdent(n2) && NamedRoundTrips(x2)
    ensures var s := ['('] + (n1 + ([':'] + (" " + (x1 + ([','] + (" " + (n2 + ([':'] + (" " + (x2 + ([')'] + tail)))))))))));
      ParseParens(s) == Ok(tail, [(n1, Leaf(x1)), (n2, Leaf(x2))])
  {
    var c := [')'] + tail;
    var m := [','] + (" " + (n2 + ([':'] + (" " + (x2 + c)))));
    var l := n1 + ([':'] + (" " + (x1 + m)));
    MoreLeaf(n2, x2, c);
    FirstLeaf(n1, x1, m, c, [(n2, Leaf(x2))]);
    TwoList((n1, Leaf(x1)), (n2, Leaf(x2)));
    assert l[0] == n1[0];
    ParensOf(l, tail, [(n1, Leaf(x1)), (n2, Leaf(x2))]);
  }

  lemma TwoList(a: (Idents.Ident, Ty), b: (Idents.Ident, Ty))
    ensures [a] + [b] == [a, b]
  {
  }

  /** The empty list `()`, followed by `tail`. */
  lemma NoArgs(tail: seq<char>)
    ensures ParseParens(['('] + ([')'] + tail)) == Ok(tail, [])
  {
    var c := [')'] + tail;
    var s := ['('] + c;
    CloseParen(c);
    OpenParen(s);
    assert s[1..] == c;
    ArgsEmpty(c);
    ParensStep(s, c, c, tail, []);
  }

  /** ` -> x` after the arguments, for a plain type name `x`. */
  lemma ArrowLeaf(x: seq<char>, rest: seq<char>)
    requires NamedRoundTrips(x) && Boundary(rest)
    ensures ParseOut(" " + ("->" + (" " + (x + rest)))) == Ok(rest, Some(Leaf(x)))
  {
    ArrowText(x + rest);
    LeafFacts(x, rest);
    OutStep(" " + ("->" + (" " + (x + rest))), "->" + (" " + (x + rest)), x + rest, rest, Leaf(x));
  }

  lemma ArrowText(e: seq<char>)
    ensures var a := "->" + (" " + e); SkipWs(" " + a) == a && "->" <= a && a[2..] == " " + e
  {
    var a := "->" + (" " + e);
    NoBlanks();
    SkipWsAppend(" ", a);
    SkipWsNone(a);
  }

  lemma ArrowF32()
    ensures ParseOut(" -> f32") == Ok("", Some(Leaf("f32")))
  {
    ArrowTexts();
    ArrowLeaf("f32", "");
  }

  lemma ArrowTexts()
    ensures " -> f32" == " " + ("->" + (" " + ("f32" + "")))
    ensures Boundary("") && NamedRoundTrips("f32")
  {
    SkipWsNone("");
  }

  /** `fn foo`, then the rest of a signature. */
  lemma FooName(rest: seq<char>)
    requires |rest| > 0 && rest[0] == '('
    ensures ParseName("fn" + (" " + ("foo" + rest))) == Ok(rest, "foo")
  {
    Blanks(0);
    IdentStop(rest);
    NameStep(" ", "foo", rest);
  }

  /** The signatures of the unit test: without an arrow the return type is
      `void`, and with one it is the type after it. */
  lemma ParseTestTwoArgs()
    ensures Parse("fn foo(a: x, b: y)") == Ok("", FnDecl("foo", [("a", Leaf("x")), ("b", Leaf("y"))], Ty(Void, [])))
    ensures Parse("fn foo(a: x, b: y) -> f32") == Ok("", FnDecl("foo", [("a", Leaf("x")), ("b", Leaf("y"))], Leaf("f32")))
  {
    TwoArgsVoid();
    TwoArgsF32();
  }

  lemma TwoArgsVoid()
    ensures Parse("fn foo(a: x, b: y)") == Ok("", FnDecl("foo", [("a", Leaf("x")), ("b", Leaf("y"))], Ty(Void, [])))
  {
    var args := [("a", Leaf("x")), ("b", Leaf("y"))];
    TestTexts();
    TestNames();
    TwoArgs("a", "x", "b", "y", "");
    FooName("(a: x, b: y)");
    assert ParseOut("") == Ok("", None);
    DeclStep("fn foo(a: x, b: y)", "(a: x, b: y)", "foo", "", args, "", None);
  }

  lemma TwoArgsF32()
    ensures Parse("fn foo(a: x, b: y) -> f32") == Ok("", FnDecl("foo", [("a", Leaf("x")), ("b", Leaf("y"))], Leaf("f32")))
  {
    var args := [("a", Leaf("x")), ("b", Leaf("y"))];
    TestTexts();
    TestNames();
    TwoArgs("a", "x", "b", "y", " -> f32");
    FooName("(a: x, b: y) -> f32");
    ArrowF32();
    DeclStep("fn foo(a: x, b: y) -> f32", "(a: x, b: y) -> f32", "foo", " -> f32", args, "", Some(Leaf("f32")));
  }

  lemma ParseTestNoArgs()
    ensures Parse("fn foo() -> f32") == Ok("", FnDecl("foo", [], Leaf("f32")))
  {
    NoArgTexts();
    NoArgs(" -> f32");
    FooName("() -> f32");
    ArrowF32();
    DeclStep("fn foo() -> f32", "() -> f32", "foo", " -> f32", [], "", Some(Leaf("f32")));
  }

  lemma ParseTestNoArgsVoid()
    ensures Parse("fn foo()") == Ok("", FnDecl("foo", [], Ty(Void, [])))
  {
    NoArgTexts();
    NoArgs("");
    FooName("()");
    assert ParseOut("") == Ok("", None);
    DeclStep("fn foo()", "()", "foo", "", [], "", None);
  }

  lemma NoArgTexts()
    ensures "fn foo()" == "fn" + (" " + ("foo" + "()"))
    ensures "fn foo() -> f32" == "fn" + (" " + ("foo" + "() -> f32"))
    ensures "()" == ['('] + ([')'] + "") && "() -> f32" == ['('] + ([')'] + " -> f32")
  {
  }

  /** A missing name is a recoverable `Error`; so is a missing blank after
      `fn`. */
  lemma ParseTestRejects()
    ensures Parse("fn ()").Error?
  {
    assert "fn ()" == "fn" + (" " + "()");
    NoBlanks();
    NoName(" ", "()");
  }

  /** Blanks after `fn` and then no identifier. */
  lemma NoName(w: seq<char>, rest: seq<char>)
    requires |w| > 0 && forall i :: 0 <= i < |w| ==> IsWhitespace(w[i])
    requires rest == [] || (!IsWhitespace(rest[0]) && !IsIdentStart(rest[0]))
    ensures Parse("fn" + (w + rest)).Error?
  {
    var s := "fn" + (w + rest);
    assert s[2..] == w + rest;
    assert s[2] == w[0];
    SkipWsAppend(w, rest);
    SkipWsNone(rest);
  }

  /** `fn` must be followed by whitespace. */
  lemma NeedsBlank(s: seq<char>)
    requires |s| > 2 && !IsWhitespace(s[2])
    ensures Parse(s).Error?
  {
  }

  lemma ParseTestNeedsBlank()
    ensures Parse("fnfoo()").Error?
  {
    var s := "fnfoo()";
    assert |s| > 2 && s[2] == 'f';
    NeedsBlank(s);
  }

  /** A name without an argument list has passed the commit point: the
      parse fails for good. */
  lemma ParseTestCommits()
    ensures Parse("fn foo").Failure?
  {
    assert IsIdent("foo");
    assert "fn" + (" " + "foo") == "fn foo";
    NameOnlyCommits("foo");
  }

  /** `fn` and a name, then nothing: the parse has committed and fails. */
  lemma NameOnlyCommits(n: seq<char>)
    requires IsIdent(n)
    ensures Parse("fn" + (" " + n)).Failure?
  {
    NoBlanks();
    NameStep(" ", n, "");
    assert n + "" == n;
    assert ParseParens("").Error?;
    CommitStep("fn" + (" " + n), "", n);
  }

  /** A name with no argument list after it is a committed failure. */
  lemma CommitStep(s: seq<char>, r1: seq<char>, n: seq<char>)
    requires ParseName(s) == Ok(r1, n) && ParseParens(r1).Error?
    ensures Parse(s).Failure?
  {
  }

  lemma TestNames()
    ensures IsIdent("a") && IsIdent("b") && NamedRoundTrips("x") && NamedRoundTrips("y")
  {
  }

  lemma TestTexts()
    ensures "fn foo(a: x, b: y)" == "fn" + (" " + ("foo" + "(a: x, b: y)"))
    ensures "fn foo(a: x, b: y) -> f32" == "fn" + (" " + ("foo" + "(a: x, b: y) -> f32"))
    ensures "(a: x, b: y)" == ['('] + ("a" + ([':'] + (" " + ("x" + ([','] + (" " + ("b" + ([':'] + (" " + ("y" + ([')'] + "")))))))))))
    ensures "(a: x, b: y) -> f32" == ['('] + ("a" + ([':'] + (" " + ("x" + ([','] + (" " + ("b" + ([':'] + (" " + ("y" + ([')'] + " -> f32")))))))))))
  {
  }
}
