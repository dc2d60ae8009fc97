/** Parser results and the lexical recognisers shared by every grammar
    (whitespace runs, literal tags, identifiers). */
module Prelude {

  /** What a nom parser returns: the unconsumed rest and a value, a
      recoverable `Error` (alternatives may try something else) or a
      committed `Failure` (produced by `cut`; nothing backtracks over it). */
  datatype Res<+T> = Ok(rest: seq<char>, value: T) | Error | Failure

  datatype Option<+T> = None | Some(value: T)

  /** `r` is what is left of `s` after consuming a prefix of it. */
  predicate IsSuffix(r: seq<char>, s: seq<char>)
  {
    |r| <= |s| && s[|s| - |r|..] == r
  }

  /** A successful result only consumed a prefix of its input. */
  predicate Consumes<T>(r: Res<T>, s: seq<char>)
  {
    r.Ok? ==> IsSuffix(r.rest, s)
  }

  /** A successful result consumed a non-empty prefix of its input. */
  predicate Advances<T>(r: Res<T>, s: seq<char>)
  {
    r.Ok? ==> IsSuffix(r.rest, s) && |r.rest| < |s|
  }

  lemma SuffixTrans(a: seq<char>, b: seq<char>, c: seq<char>)
    requires IsSuffix(a, b) && IsSuffix(b, c)
    ensures IsSuffix(a, c)
  {
    assert c[|c| - |b|..][|b| - |a|..] == c[|c| - |a|..];
  }

  lemma SuffixOfConcat(a: seq<char>, b: seq<char>)
    ensures IsSuffix(b, a + b)
  {
    assert (a + b)[|a|..] == b;
  }

  /** Rust's `char::is_whitespace`: the Unicode White_Space property. */
  predicate IsWhitespace(c: char)
  {
    || '\t' <= c <= '\r'
    || c == ' '
    || c == '\U{0085}'
    || c == '\U{00A0}'
    || c == '\U{1680}'
    || '\U{2000}' <= c <= '\U{200A}'
    || c == '\U{2028}'
    || c == '\U{2029}'
    || c == '\U{202F}'
    || c == '\U{205F}'
    || c == '\U{3000}'
  }

  /** nom's `alpha1` and `alphanumeric1` on `&str` test ASCII classes only. */
  predicate IsAsciiAlpha(c: char)
  {
    'a' <= c <= 'z' || 'A' <= c <= 'Z'
  }

  predicate IsAsciiDigit(c: char)
  {
    '0' <= c <= '9'
  }

  predicate IsIdentStart(c: char)
  {
    IsAsciiAlpha(c) || c == '_'
  }

  predicate IsIdentChar(c: char)
  {
    IsAsciiAlpha(c) || IsAsciiDigit(c) || c == '_'
  }

  /** The identifier language `[A-Za-z_][A-Za-z0-9_]*`. */
  predicate IsIdent(x: seq<char>)
  {
    |x| > 0 && IsIdentStart(x[0]) && forall i :: 1 <= i < |x| ==> IsIdentChar(x[i])
  }

  /** Length of the longest prefix of `s` whose characters all satisfy `p`
      (what nom's `take_while` consumes). */
  function Span(p: char -> bool, s: seq<char>): (n: nat)
    ensures n <= |s|
    ensures forall i :: 0 <= i < n ==> p(s[i])
    ensures n == |s| || !p(s[n])
  {
    if s != [] && p(s[0]) then 1 + Span(p, s[1..]) else 0
  }

  /** The longest run is unique: any prefix that is all-`p` and cannot be
      extended is the one `Span` finds. */
  lemma SpanUnique(p: char -> bool, s: seq<char>, k: nat)
    requires k <= |s|
    requires forall i :: 0 <= i < k ==> p(s[i])
    requires k == |s| || !p(s[k])
    ensures Span(p, s) == k
  {
  }

  lemma SpanAppend(p: char -> bool, a: seq<char>, b: seq<char>)
    requires forall i :: 0 <= i < |a| ==> p(a[i])
    ensures Span(p, a + b) == |a| + Span(p, b)
  {
    var n := Span(p, b);
    var ab := a + b;
    forall i | 0 <= i < |a| + n
      ensures p(ab[i])
    {
      if i >= |a| { assert ab[i] == b[i - |a|]; }
    }
    assert |a| + n == |ab| || ab[|a| + n] == b[n];
    SpanUnique(p, ab, |a| + n);
  }

  /** `s` with its leading whitespace run dropped: the rest left by `ws0`. */
  function SkipWs(s: seq<char>): (r: seq<char>)
    ensures IsSuffix(r, s)
    ensures r == [] || !IsWhitespace(r[0])
    ensures forall i :: 0 <= i < |s| - |r| ==> IsWhitespace(s[i])
    ensures s != [] && IsWhitespace(s[0]) ==> |r| < |s|
  {
    if s != [] && IsWhitespace(s[0]) then
      var r := SkipWs(s[1..]);
      SuffixTrans(r, s[1..], s);
      assert forall i :: 1 <= i < |s| - |r| ==> s[i] == s[1..][i - 1];
      r
    else s
  }

  lemma SkipWsNone(s: seq<char>)
    requires s == [] || !IsWhitespace(s[0])
    ensures SkipWs(s) == s
  {
  }

  lemma {:induction false} SkipWsAppend(w: seq<char>, s: seq<char>)
    requires forall i :: 0 <= i < |w| ==> IsWhitespace(w[i])
    ensures SkipWs(w + s) == SkipWs(s)
    decreases |w|
  {
    if w != [] {
      assert (w + s)[1..] == w[1..] + s;
      SkipWsAppend(w[1..], s);
    } else {
      assert w + s == s;
    }
  }

  /** `SkipWs` drops exactly the run `ws0` takes. */
  lemma {:induction false} SkipWsIsWs0(s: seq<char>)
    ensures SkipWs(s) == s[Span(IsWhitespace, s)..]
    decreases |s|
  {
    if s != [] && IsWhitespace(s[0]) {
      SkipWsIsWs0(s[1..]);
      assert s[1..][Span(IsWhitespace, s[1..])..] == s[1 + Span(IsWhitespace, s[1..])..];
    }
  }

  /** `ws0` (src/nom_prelude.rs): takes the longest whitespace run; never fails. */
  function Ws0(s: seq<char>): (r: Res<seq<char>>)
    ensures r.Ok? && r.value + r.rest == s
    ensures forall i :: 0 <= i < |r.value| ==> IsWhitespace(r.value[i])
    ensures r.rest == [] || !IsWhitespace(r.rest[0])
  {
    var n := Span(IsWhitespace, s);
    assert s[..n] + s[n..] == s;
    Ok(s[n..], s[..n])
  }

  /** `ws1`: like `ws0` but fails unless the run is non-empty. */
  function Ws1(s: seq<char>): (r: Res<seq<char>>)
    ensures !r.Failure?
    ensures r.Error? <==> s == [] || !IsWhitespace(s[0])
    ensures r.Ok? ==> r == Ws0(s) && |r.value| > 0
  {
    if s == [] || !IsWhitespace(s[0]) then Error else Ws0(s)
  }

  /** `ws0_then(f)`: drop leading whitespace, then run `f`, passing its
      result through unchanged. */
  function Ws0Then<T>(f: seq<char> -> Res<T>, s: seq<char>): (r: Res<T>)
    ensures (s == [] || !IsWhitespace(s[0])) ==> r == f(s)
  {
    f(Ws0(s).rest)
  }

  /** Any whitespace in front of the input is invisible to `ws0_then(f)`. */
  lemma Ws0ThenSkipsRun<T>(f: seq<char> -> Res<T>, w: seq<char>, s: seq<char>)
    requires forall i :: 0 <= i < |w| ==> IsWhitespace(w[i])
    ensures Ws0Then(f, w + s) == Ws0Then(f, s) == f(SkipWs(s))
  {
    SkipWsAppend(w, s);
    SkipWsIsWs0(w + s);
    SkipWsIsWs0(s);
  }

  /** `ws1_then(f)`: fails without running `f` unless whitespace comes first. */
  function Ws1Then<T>(f: seq<char> -> Res<T>, s: seq<char>): (r: Res<T>)
    ensures (s == [] || !IsWhitespace(s[0])) ==> r.Error?
    ensures s != [] && IsWhitespace(s[0]) ==> r == Ws0Then(f, s)
  {
    match Ws1(s)
    case Ok(rest, _) => f(rest)
    case Error => Error
    case Failure => Failure
  }

  /** nom's `tag(t)`. */
  function Tag(t: seq<char>, s: seq<char>): (r: Res<seq<char>>)
    ensures !r.Failure?
    ensures r.Ok? <==> t <= s
    ensures r.Ok? ==> r.value == t && r.value + r.rest == s
  {
    if t <= s then
      assert s[..|t|] + s[|t|..] == s;
      Ok(s[|t|..], t)
    else Error
  }

  /** `identifier` (src/nom_prelude.rs): a letter or `_`, then the longest run
      of letters, digits and `_`; the recognised slice is the value. */
  function Identifier(s: seq<char>): (r: Res<seq<char>>)
    ensures !r.Failure?
    ensures r.Ok? <==> s != [] && IsIdentStart(s[0])
    ensures r.Ok? ==> r.value + r.rest == s && IsIdent(r.value)
    ensures r.Ok? ==> r.rest == [] || !IsIdentChar(r.rest[0])
  {
    if s != [] && IsIdentStart(s[0]) then
      var n := 1 + Span(IsIdentChar, s[1..]);
      assert s[..n] + s[n..] == s;
      assert forall i :: 1 <= i < n ==> s[..n][i] == s[1..][i - 1];
      Ok(s[n..], s[..n])
    else Error
  }

  lemma IdentifierOf(x: seq<char>, rest: seq<char>)
    requires IsIdent(x)
    requires rest == [] || !IsIdentChar(rest[0])
    ensures Identifier(x + rest) == Ok(rest, x)
  {
    var s := x + rest;
    var tail := s[1..];
    assert tail == x[1..] + rest;
    SpanAppend(IsIdentChar, x[1..], rest);
    assert rest == [] || !IsIdentChar(rest[0]);
    assert Span(IsIdentChar, rest) == 0;
    assert s[|x|..] == rest && s[..|x|] == x;
  }
}
