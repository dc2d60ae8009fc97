/** Helpers that the grammars call but whose definitions are not part of
    this model's sources: `take_until_matches` (the scanner) and
    `normalize_whitespace`, together with Rust's `str::trim`. */
module Misc {
  import opened Prelude

  /** The smallest offset `j` in `[i, |s|]` at which `p` succeeds on `s[j..]`.
      A `Failure` of `p` at a candidate offset counts as "no match here":
      the search moves on to the next offset. */
  function FirstMatch<T>(p: seq<char> -> Res<T>, s: seq<char>, i: nat): (r: Option<nat>)
    requires i <= |s|
    ensures r.Some? ==> i <= r.value <= |s| && p(s[r.value..]).Ok?
    ensures r.Some? ==> forall j {:trigger p(s[j..])} :: i <= j < r.value ==> !p(s[j..]).Ok?
    ensures r.None? ==> forall j {:trigger p(s[j..])} :: i <= j <= |s| ==> !p(s[j..]).Ok?
    decreases |s| - i
  {
    if p(s[i..]).Ok? then Some(i)
    else if i == |s| then None
    else FirstMatch(p, s, i + 1)
  }

  /** `take_until_matches(p)`: skip to the first offset where `p` succeeds,
      returning the skipped prefix and leaving the input at that offset.
      Fails with `Error` when no offset matches; never with `Failure`. */
  function TakeUntilMatches<T>(p: seq<char> -> Res<T>, s: seq<char>): (r: Res<seq<char>>)
    ensures !r.Failure?
    ensures r.Ok? ==> r.value + r.rest == s && p(r.rest).Ok?
    ensures r.Ok? ==> forall j :: 0 <= j < |r.value| ==> !p(s[j..]).Ok?
    ensures r.Error? ==> forall j :: 0 <= j <= |s| ==> !p(s[j..]).Ok?
  {
    match FirstMatch(p, s, 0)
    case None => Error
    case Some(j) =>
      assert s[..j] + s[j..] == s;
      Ok(s[j..], s[..j])
  }

  /** `s` without trailing whitespace. */
  function TrimEnd(s: seq<char>): (r: seq<char>)
    ensures r <= s
    ensures r == [] || !IsWhitespace(r[|r| - 1])
    ensures forall i :: |r| <= i < |s| ==> IsWhitespace(s[i])
  {
    if s != [] && IsWhitespace(s[|s| - 1]) then TrimEnd(s[..|s| - 1]) else s
  }

  /** Rust's `str::trim`: drop leading and trailing whitespace. */
  function Trim(s: seq<char>): (r: seq<char>)
    ensures r == [] || (!IsWhitespace(r[0]) && !IsWhitespace(r[|r| - 1]))
    ensures NonWs(r) == NonWs(s)
  {
    var t := SkipWs(s);
    NonWsSkip(s);
    NonWsTrimEnd(t);
    TrimEnd(t)
  }

  /** The non-whitespace characters of `s`, in order. */
  function NonWs(s: seq<char>): seq<char>
  {
    if s == [] then []
    else if IsWhitespace(s[0]) then NonWs(s[1..])
    else [s[0]] + NonWs(s[1..])
  }

  lemma {:induction false} NonWsAppend(a: seq<char>, b: seq<char>)
    ensures NonWs(a + b) == NonWs(a) + NonWs(b)
  {
    if a == [] {
      assert a + b == b;
    } else {
      assert (a + b)[1..] == a[1..] + b;
      NonWsAppend(a[1..], b);
    }
  }

  lemma {:induction false} NonWsAllWs(w: seq<char>)
    requires forall i :: 0 <= i < |w| ==> IsWhitespace(w[i])
    ensures NonWs(w) == []
  {
    if w != [] { NonWsAllWs(w[1..]); }
  }

  lemma NonWsSkip(s: seq<char>)
    ensures NonWs(SkipWs(s)) == NonWs(s)
  {
    var r := SkipWs(s);
    var w := s[..|s| - |r|];
    assert w + r == s;
    NonWsAppend(w, r);
    NonWsAllWs(w);
  }

  lemma NonWsTrimEnd(s: seq<char>)
    ensures NonWs(TrimEnd(s)) == NonWs(s)
  {
    var r := TrimEnd(s);
    var w := s[|r|..];
    assert r + w == s;
    NonWsAppend(r, w);
    NonWsAllWs(w);
  }

  /** Every whitespace character is a plain space and no two whitespace
      characters are adjacent. */
  predicate Collapsed(r: seq<char>)
  {
    forall i :: 0 <= i < |r| && IsWhitespace(r[i]) ==>
      r[i] == ' ' && (i + 1 == |r| || !IsWhitespace(r[i + 1]))
  }

  lemma CollapsedCons(c: char, x: seq<char>)
    requires Collapsed(x)
    requires IsWhitespace(c) ==> c == ' ' && (x == [] || !IsWhitespace(x[0]))
    ensures Collapsed([c] + x)
  {
    var r := [c] + x;
    forall i | 0 <= i < |r| && IsWhitespace(r[i])
      ensures r[i] == ' ' && (i + 1 == |r| || !IsWhitespace(r[i + 1]))
    {
      if i > 0 { assert r[i] == x[i - 1]; assert i + 1 < |r| ==> r[i + 1] == x[i]; }
    }
  }

  /** `normalize_whitespace`: every whitespace run becomes one space. */
  function NormalizeWhitespace(s: seq<char>): (r: seq<char>)
    ensures Collapsed(r)
    ensures NonWs(r) == NonWs(s)
    ensures s == [] <==> r == []
    ensures s != [] ==> (IsWhitespace(r[0]) <==> IsWhitespace(s[0]))
    ensures s != [] ==> (IsWhitespace(r[|r| - 1]) <==> IsWhitespace(s[|s| - 1]))
    decreases |s|
  {
    if s == [] then []
    else if IsWhitespace(s[0]) then
      NormalizeRunStep(s, NormalizeWhitespace(SkipWs(s)));
      [' '] + NormalizeWhitespace(SkipWs(s))
    else
      NormalizeCharStep(s, NormalizeWhitespace(s[1..]));
      [s[0]] + NormalizeWhitespace(s[1..])
  }

  /** What `NormalizeWhitespace` promises of its result `r` for the input `s`. */
  predicate NormalOf(s: seq<char>, r: seq<char>)
  {
    && Collapsed(r)
    && NonWs(r) == NonWs(s)
    && (s == [] <==> r == [])
    && (s != [] ==> (IsWhitespace(r[0]) <==> IsWhitespace(s[0])))
    && (s != [] ==> (IsWhitespace(r[|r| - 1]) <==> IsWhitespace(s[|s| - 1])))
  }

  /** A leading whitespace run becomes one space before the rest. */
  lemma NormalizeRunStep(s: seq<char>, n: seq<char>)
    requires s != [] && IsWhitespace(s[0]) && NormalOf(SkipWs(s), n)
    ensures NormalOf(s, [' '] + n)
  {
    assert n == [] || !IsWhitespace(n[0]);
    CollapsedCons(' ', n);
    RunNonWs(s, n);
    assert SkipWs(s) == [] ==> IsWhitespace(s[|s| - 1]);
    RunLast(s, SkipWs(s), n);
  }

  lemma RunNonWs(s: seq<char>, n: seq<char>)
    requires NonWs(n) == NonWs(SkipWs(s))
    ensures NonWs([' '] + n) == NonWs(s)
  {
    NonWsSkip(s);
    NonWsAppend([' '], n);
    assert NonWs([' ']) == [];
  }

  lemma RunLast(s: seq<char>, t: seq<char>, n: seq<char>)
    requires s != [] && IsSuffix(t, s) && (t == [] ==> IsWhitespace(s[|s| - 1])) && (t == [] <==> n == [])
    requires t != [] ==> (IsWhitespace(n[|n| - 1]) <==> IsWhitespace(t[|t| - 1]))
    ensures var r := [' '] + n; IsWhitespace(r[|r| - 1]) <==> IsWhitespace(s[|s| - 1])
  {
    var r := [' '] + n;
    if n == [] {
      assert r == [' '];
    } else {
      assert r[|r| - 1] == n[|n| - 1];
      assert t[|t| - 1] == s[|s| - 1];
    }
  }

  /** A visible character is kept in front of the rest. */
  lemma NormalizeCharStep(s: seq<char>, n: seq<char>)
    requires s != [] && !IsWhitespace(s[0]) && NormalOf(s[1..], n)
    ensures NormalOf(s, [s[0]] + n)
  {
    var r := [s[0]] + n;
    CollapsedCons(s[0], n);
    assert NonWs(r) == [s[0]] + NonWs(n) by {
      NonWsAppend([s[0]], n);
    }
    assert |s| > 1 ==> s[1..][|s| - 2] == s[|s| - 1];
  }

  /** The text a prose bound keeps: trimmed, then whitespace-normalised. It
      has no leading or trailing whitespace, every inner run is one space,
      and the visible characters are exactly those of the source text. */
  lemma ProseText(s: seq<char>)
    ensures var r := NormalizeWhitespace(Trim(s));
      && Collapsed(r)
      && NonWs(r) == NonWs(s)
      && (r == [] || (!IsWhitespace(r[0]) && !IsWhitespace(r[|r| - 1])))
  {
  }

  /** Trailing whitespace after text that ends in a visible character is
      exactly what `TrimEnd` drops. */
  lemma {:induction false} TrimEndOf(x: seq<char>, w: seq<char>)
    requires x == [] || !IsWhitespace(x[|x| - 1])
    requires forall i :: 0 <= i < |w| ==> IsWhitespace(w[i])
    ensures TrimEnd(x + w) == x
    decreases |w|
  {
    if w == [] {
      assert x + w == x;
    } else {
      var s := x + w;
      assert s[..|s| - 1] == x + w[..|w| - 1];
      TrimEndOf(x, w[..|w| - 1]);
    }
  }

  /** `trim` of a visible text followed by whitespace gives the text. */
  lemma TrimOf(x: seq<char>, w: seq<char>)
    requires |x| > 0 && !IsWhitespace(x[0]) && !IsWhitespace(x[|x| - 1])
    requires forall i :: 0 <= i < |w| ==> IsWhitespace(w[i])
    ensures Trim(x + w) == x
  {
    assert (x + w)[0] == x[0];
    SkipWsNone(x + w);
    TrimEndOf(x, w);
  }

  lemma CollapsedTail(a: seq<char>)
    requires Collapsed(a) && a != []
    ensures Collapsed(a[1..])
  {
    var b := a[1..];
    forall i | 0 <= i < |b| && IsWhitespace(b[i])
      ensures b[i] == ' ' && (i + 1 == |b| || !IsWhitespace(b[i + 1]))
    {
      assert b[i] == a[i + 1];
    }
  }

  /** One step of `normalize_whitespace` on a visible first character, or on
      a single space before a visible one. */
  lemma NormalizeStep(s: seq<char>)
    requires s != [] && (!IsWhitespace(s[0]) || (s[0] == ' ' && |s| > 1 && !IsWhitespace(s[1])))
    ensures NormalizeWhitespace(s) == [s[0]] + NormalizeWhitespace(s[1..])
  {
    if IsWhitespace(s[0]) {
      assert s[1..][0] == s[1];
      SkipWsNone(s[1..]);
    }
  }

  lemma ConsSplit(a: seq<char>, rest: seq<char>)
    requires a != []
    ensures (a + rest)[0] == a[0] && (a + rest)[1..] == a[1..] + rest
    ensures |a| > 1 ==> (a + rest)[1] == a[1]
    ensures a[1..] == [] || a[1..][|a[1..]| - 1] == a[|a| - 1]
  {
  }

  lemma ConsJoin(a: seq<char>, n: seq<char>)
    requires a != []
    ensures [a[0]] + (a[1..] + n) == a + n
  {
    assert a == [a[0]] + a[1..];
  }

  /** Text that is already collapsed and ends in a visible character passes
      through `normalize_whitespace` unchanged. */
  lemma {:induction false} NormalizeKeeps(a: seq<char>, rest: seq<char>)
    requires Collapsed(a) && (a == [] || !IsWhitespace(a[|a| - 1]))
    ensures NormalizeWhitespace(a + rest) == a + NormalizeWhitespace(rest)
    decreases |a|
  {
    if a == [] {
      assert a + rest == rest;
    } else {
      CollapsedTail(a);
      ConsSplit(a, rest);
      NormalizeKeeps(a[1..], rest);
      NormalizeStep(a + rest);
      ConsJoin(a, NormalizeWhitespace(rest));
    }
  }

  /** A run of whitespace before a visible character becomes one space. */
  lemma NormalizeRun(w: seq<char>, rest: seq<char>)
    requires |w| > 0 && forall i :: 0 <= i < |w| ==> IsWhitespace(w[i])
    requires rest == [] || !IsWhitespace(rest[0])
    ensures NormalizeWhitespace(w + rest) == " " + NormalizeWhitespace(rest)
  {
    assert (w + rest)[0] == w[0];
    SkipWsAppend(w, rest);
    SkipWsNone(rest);
  }
}
