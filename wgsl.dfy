/** `WgslSpec::parse_bs`: two independent scans over the whole Bikeshed
    document, one collecting every function declaration and one collecting
    every overload row. The row grammar is a parameter: the rows of the
    older grammar (the one src/wgsl/mod.rs declares) or of the newer one. */
module Wgsl {
  import opened Prelude
  import Misc
  import FnDecls
  import Overloads
  import LegacyBounds

  datatype WgslSpec<R> = WgslSpec(text: seq<char>, fns: seq<FnDecls.FnDecl>, overloads: seq<R>)

  /** `preceded(take_until_matches(p), p)`: skip to the first offset where
      `p` succeeds, then run `p` there. */
  function Skipping<T>(p: seq<char> -> Res<T>, s: seq<char>): (r: Res<T>)
    ensures !r.Failure?
  {
    match Misc.TakeUntilMatches(p, s)
    case Ok(rest, _) => p(rest)
    case Error => Error
    case Failure => Failure
  }

  /** `many0(preceded(take_until_matches(p), p))`: repeat the skipping parse
      until it fails with `Error`, collecting the values. Like nom's `many0`,
      an item that consumes nothing stops the scan with `Error`. */
  function Scan<T>(p: seq<char> -> Res<T>, s: seq<char>): (r: Res<seq<T>>)
    decreases |s|
    ensures !r.Failure?
    ensures r.Ok? ==> |r.rest| <= |s| && (r.value == [] <==> r.rest == s)
  {
    match Skipping(p, s)
    case Error => Ok(s, [])
    case Failure => Failure
    case Ok(r1, v) =>
      if |r1| >= |s| then Error
      else
        match Scan(p, r1)
        case Ok(r2, vs) => Ok(r2, [v] + vs)
        case Error => Error
        case Failure => Failure
  }

  /** `WgslSpec::parse_bs` with the row grammar `row`: `text` is the input
      itself; both scans start from the input; the remainder is the one the
      overload scan leaves. */
  function ParseBsWith<R>(row: seq<char> -> Res<R>, s: seq<char>): (r: Res<WgslSpec<R>>)
    ensures !r.Failure?
    ensures r.Ok? ==> r.value.text == s && |r.rest| <= |s| && (r.value.overloads == [] <==> r.rest == s)
  {
    match Scan(FnDecls.Parse, s)
    case Error => Error
    case Failure => Failure
    case Ok(_, fns) =>
      match Scan(row, s)
      case Error => Error
      case Failure => Failure
      case Ok(rest, rows) => Ok(rest, WgslSpec(s, fns, rows))
  }

  /** `parse_bs` as src/wgsl/mod.rs declares it: rows of the older grammar. */
  function ParseBs(s: seq<char>): (r: Res<WgslSpec<LegacyBounds.OverloadRow>>)
    ensures r.Ok? && r.value.text == s && |r.rest| <= |s|
  {
    ParsersProgress();
    ParseBsSpec(LegacyBounds.ParseRow, s);
    ParseBsWith(LegacyBounds.ParseRow, s)
  }

  /** `parse_bs` over rows of the newer grammar. */
  function ParseBsNewer(s: seq<char>): (r: Res<WgslSpec<Overloads.OverloadRow>>)
    ensures r.Ok? && r.value.text == s && |r.rest| <= |s|
  {
    ParsersProgress();
    ParseBsSpec(Overloads.ParseRow, s);
    ParseBsWith(Overloads.ParseRow, s)
  }

  // ---------------------------------------------------------------------
  // Where the scan finds its items

  /** `p` consumes a non-empty prefix whenever it succeeds. */
  ghost predicate Progress<T>(p: seq<char> -> Res<T>)
  {
    forall x :: Advances(p(x), x)
  }

  /** One item of a scan: `p` matched `s[start..end]` and produced `value`. */
  datatype Hit<T> = Hit(start: nat, end: nat, value: T)

  /** The matches a scan from offset `i` takes, as offsets into `s`: the
      first offset where `p` succeeds, then the same from the end of that
      match on. */
  function Hits<T>(p: seq<char> -> Res<T>, s: seq<char>, i: nat): seq<Hit<T>>
    requires i <= |s| && Progress(p)
    decreases |s| - i
  {
    match Misc.FirstMatch(p, s, i)
    case None => []
    case Some(j) =>
      var r := p(s[j..]);
      assert Advances(r, s[j..]);
      [Hit(j, |s| - |r.rest|, r.value)] + Hits(p, s, |s| - |r.rest|)
  }

  /** Where the last match ends (`i` when there is none). */
  function LastEnd<T>(hs: seq<Hit<T>>, i: nat): nat
  {
    if hs == [] then i else LastEnd(hs[1..], hs[0].end)
  }

  function Values<T>(hs: seq<Hit<T>>): (vs: seq<T>)
    ensures |vs| == |hs|
    ensures forall k :: 0 <= k < |hs| ==> vs[k] == hs[k].value
  {
    if hs == [] then [] else [hs[0].value] + Values(hs[1..])
  }

  /** `hs` are the leftmost non-overlapping matches of `p` in `s` from
      offset `i`: each hit is a match of `p` whose rest starts at its end,
      no offset from the previous end up to a hit's start matches, and no
      offset from the last end on matches. */
  ghost predicate Tiles<T>(p: seq<char> -> Res<T>, s: seq<char>, i: nat, hs: seq<Hit<T>>)
    requires i <= |s|
    decreases |hs|
  {
    if hs == [] then forall j :: i <= j <= |s| ==> !p(s[j..]).Ok?
    else
      && i <= hs[0].start < hs[0].end <= |s|
      && p(s[hs[0].start..]) == Ok(s[hs[0].end..], hs[0].value)
      && (forall j :: i <= j < hs[0].start ==> !p(s[j..]).Ok?)
      && Tiles(p, s, hs[0].end, hs[1..])
  }

  /** A suffix of `s[j..]` is `s` from some offset on. */
  lemma RestAt(s: seq<char>, j: nat, r: seq<char>)
    requires j <= |s| && IsSuffix(r, s[j..])
    ensures |s| - |r| >= j && r == s[|s| - |r|..]
  {
    assert s[j..][|s[j..]| - |r|..] == s[|s| - |r|..];
  }

  lemma SliceOfSlice(s: seq<char>, i: int, k: int)
    ensures 0 <= i && 0 <= k && i + k <= |s| ==> s[i..][k..] == s[i + k..]
  {
  }

  /** Searching the suffix `s[i..]` from its start finds the same match as
      searching `s` from offset `i`. */
  lemma FirstMatchFrom<T>(p: seq<char> -> Res<T>, s: seq<char>, i: nat)
    requires i <= |s|
    ensures var a := Misc.FirstMatch(p, s[i..], 0); var b := Misc.FirstMatch(p, s, i);
      a.Some? <==> b.Some?
    ensures var a := Misc.FirstMatch(p, s[i..], 0); var b := Misc.FirstMatch(p, s, i);
      a.Some? ==> b.value == i + a.value
  {
    var a := Misc.FirstMatch(p, s[i..], 0);
    var b := Misc.FirstMatch(p, s, i);
    if a.Some? {
      SliceOfSlice(s, i, a.value);
      assert p(s[i + a.value..]).Ok?;
    }
    if b.Some? {
      SliceOfSlice(s, i, b.value - i);
      assert p(s[i..][b.value - i..]).Ok?;
    }
  }

  /** From offset `i`, the skipping parse runs `p` at the first match. */
  lemma SkipTo<T>(p: seq<char> -> Res<T>, s: seq<char>, i: nat, j: nat)
    requires i <= |s| && Misc.FirstMatch(p, s, i) == Some(j)
    ensures Skipping(p, s[i..]) == p(s[j..])
  {
    FirstMatchFrom(p, s, i);
    var t := s[i..];
    assert t[j - i..] == s[j..];
    assert t[..j - i] + t[j - i..] == t;
  }

  /** From offset `i` with no match left, the skipping parse fails with
      `Error`. */
  lemma SkipNone<T>(p: seq<char> -> Res<T>, s: seq<char>, i: nat)
    requires i <= |s| && Misc.FirstMatch(p, s, i) == None
    ensures Skipping(p, s[i..]) == Error
  {
    FirstMatchFrom(p, s, i);
  }

  /** One step of the scan: a match that consumed something, then the rest
      of the scan. */
  lemma ScanCons<T>(p: seq<char> -> Res<T>, t: seq<char>, r1: seq<char>, v: T)
    requires Skipping(p, t) == Ok(r1, v) && |r1| < |t| && Scan(p, r1).Ok?
    ensures Scan(p, t) == Ok(Scan(p, r1).rest, [v] + Scan(p, r1).value)
  {
  }

  /** One step of `Hits`, with what it means for the remainder and the
      values. */
  lemma HitsCons<T>(p: seq<char> -> Res<T>, s: seq<char>, i: nat, j: nat)
    requires i <= |s| && Progress(p) && Misc.FirstMatch(p, s, i) == Some(j)
    ensures Advances(p(s[j..]), s[j..])
    ensures var r := p(s[j..]); var e := |s| - |r.rest|;
      && i <= j < e <= |s|
      && r.rest == s[e..]
      && Hits(p, s, i) == [Hit(j, e, r.value)] + Hits(p, s, e)
  {
    var r := p(s[j..]);
    assert Advances(r, s[j..]);
    RestAt(s, j, r.rest);
  }

  /** What one step of `Hits` means for the remainder and the values. */
  lemma HitsConsFacts<T>(p: seq<char> -> Res<T>, s: seq<char>, i: nat, j: nat, e: nat)
    requires i <= |s| && Progress(p) && Misc.FirstMatch(p, s, i) == Some(j)
    requires e == |s| - |p(s[j..]).rest|
    ensures p(s[j..]) == Ok(s[e..], p(s[j..]).value)
    ensures LastEnd(Hits(p, s, i), i) == LastEnd(Hits(p, s, e), e)
    ensures Values(Hits(p, s, i)) == [p(s[j..]).value] + Values(Hits(p, s, e))
  {
    HitsCons(p, s, i, j);
    var hs := Hits(p, s, i);
    assert hs[1..] == Hits(p, s, e);
  }

  /** The scan from offset `i` returns exactly the values of `Hits`, and its
      remainder starts where the last hit ends. */
  lemma {:induction false} ScanHits<T>(p: seq<char> -> Res<T>, s: seq<char>, i: nat)
    requires i <= |s| && Progress(p)
    ensures LastEnd(Hits(p, s, i), i) <= |s|
    ensures Scan(p, s[i..]) == Ok(s[LastEnd(Hits(p, s, i), i)..], Values(Hits(p, s, i)))
    decreases |s| - i
  {
    match Misc.FirstMatch(p, s, i)
    case None =>
      ScanHitsNone(p, s, i);
    case Some(j) =>
      var e := MatchEnd(p, s, i, j);
      ScanHits(p, s, e);
      ScanHitsSome(p, s, i, j, e);
  }

  lemma ScanHitsNone<T>(p: seq<char> -> Res<T>, s: seq<char>, i: nat)
    requires i <= |s| && Progress(p) && Misc.FirstMatch(p, s, i) == None
    ensures LastEnd(Hits(p, s, i), i) == i
    ensures Scan(p, s[i..]) == Ok(s[i..], Values(Hits(p, s, i)))
  {
    SkipNone(p, s, i);
  }

  /** Where the match at the first matching offset `j` ends. */
  lemma MatchEnd<T>(p: seq<char> -> Res<T>, s: seq<char>, i: nat, j: nat) returns (e: nat)
    requires i <= |s| && Progress(p) && Misc.FirstMatch(p, s, i) == Some(j)
    ensures e == |s| - |p(s[j..]).rest| && i <= j < e <= |s|
  {
    var r := p(s[j..]);
    assert Advances(r, s[j..]);
    e := |s| - |r.rest|;
  }

  lemma ScanHitsSome<T>(p: seq<char> -> Res<T>, s: seq<char>, i: nat, j: nat, e: nat)
    requires i <= |s| && Progress(p) && Misc.FirstMatch(p, s, i) == Some(j)
    requires e == |s| - |p(s[j..]).rest| && i <= j < e <= |s|
    requires LastEnd(Hits(p, s, e), e) <= |s|
    requires Scan(p, s[e..]) == Ok(s[LastEnd(Hits(p, s, e), e)..], Values(Hits(p, s, e)))
    ensures LastEnd(Hits(p, s, i), i) <= |s|
    ensures Scan(p, s[i..]) == Ok(s[LastEnd(Hits(p, s, i), i)..], Values(Hits(p, s, i)))
  {
    HitsConsFacts(p, s, i, j, e);
    SkipTo(p, s, i, j);
    ScanCons(p, s[i..], s[e..], p(s[j..]).value);
  }

  /** `Hits` satisfies the declarative description of a scan. */
  lemma {:induction false} HitsTile<T>(p: seq<char> -> Res<T>, s: seq<char>, i: nat)
    requires i <= |s| && Progress(p)
    ensures Tiles(p, s, i, Hits(p, s, i))
    decreases |s| - i
  {
    match Misc.FirstMatch(p, s, i)
    case None =>
    case Some(j) =>
      var r := p(s[j..]);
      assert Advances(r, s[j..]);
      RestAt(s, j, r.rest);
      var e := |s| - |r.rest|;
      HitsTile(p, s, e);
      var hs := Hits(p, s, i);
      assert hs[1..] == Hits(p, s, e);
  }

  /** The description determines the matches: two lists that both tile `s`
      from `i` are equal. */
  lemma {:induction false} TilesUnique<T>(p: seq<char> -> Res<T>, s: seq<char>, i: nat, hs: seq<Hit<T>>, gs: seq<Hit<T>>)
    requires i <= |s| && Tiles(p, s, i, hs) && Tiles(p, s, i, gs)
    ensures hs == gs
    decreases |hs|
  {
    if hs != [] && gs != [] && hs[0].start == gs[0].start {
      assert hs[0].end == gs[0].end by {
        assert |s[hs[0].end..]| == |s[gs[0].end..]|;
      }
      TilesUnique(p, s, hs[0].end, hs[1..], gs[1..]);
      assert hs == [hs[0]] + hs[1..] && gs == [gs[0]] + gs[1..];
    }
  }

  /** The matches of a scan are non-empty, in document order and do not
      overlap; the last one ends within `s`. */
  lemma {:induction false} TilesOrdered<T>(p: seq<char> -> Res<T>, s: seq<char>, i: nat, hs: seq<Hit<T>>)
    requires i <= |s| && Tiles(p, s, i, hs)
    ensures forall k :: 0 <= k < |hs| ==> i <= hs[k].start < hs[k].end <= |s|
    ensures forall k :: 0 <= k < |hs| - 1 ==> hs[k].end <= hs[k + 1].start
    ensures i <= LastEnd(hs, i) <= |s|
    ensures forall j :: LastEnd(hs, i) <= j <= |s| ==> !p(s[j..]).Ok?
    decreases |hs|
  {
    if hs != [] {
      TilesOrdered(p, s, hs[0].end, hs[1..]);
      assert forall k :: 1 <= k < |hs| ==> hs[k] == hs[1..][k - 1];
    }
  }

  /** The scan never fails: it yields the values of the unique tiling of
      `s`, and its remainder starts where the last match ends. */
  lemma ScanSpec<T>(p: seq<char> -> Res<T>, s: seq<char>)
    requires Progress(p)
    ensures Scan(p, s).Ok? && LastEnd(Hits(p, s, 0), 0) <= |s|
    ensures Tiles(p, s, 0, Hits(p, s, 0))
    ensures Scan(p, s) == Ok(s[LastEnd(Hits(p, s, 0), 0)..], Values(Hits(p, s, 0)))
  {
    ScanHits(p, s, 0);
    assert s[0..] == s;
    HitsTile(p, s, 0);
  }

  /** The scan finds nothing exactly when `p` matches at no offset; it then
      returns the whole input (`many0` does not fail). */
  lemma ScanEmpty<T>(p: seq<char> -> Res<T>, s: seq<char>)
    requires Progress(p)
    ensures Scan(p, s) == Ok(s, []) <==> forall j :: 0 <= j <= |s| ==> !p(s[j..]).Ok?
  {
    ScanSpec(p, s);
    var hs := Hits(p, s, 0);
    if hs != [] {
      assert Values(hs) != [];
    }
  }

  lemma ParsersProgress()
    ensures Progress(FnDecls.Parse)
    ensures Progress(Overloads.ParseRow)
    ensures Progress(LegacyBounds.ParseRow)
  {
    assert forall x :: Advances(FnDecls.Parse(x), x);
    assert forall x :: Advances(Overloads.ParseRow(x), x);
    assert forall x :: Advances(LegacyBounds.ParseRow(x), x);
  }

  /** `parse_bs` always succeeds. `text` is the whole input; `fns` and
      `overloads` are the values of two scans that both start at offset 0
      (so a declaration inside a row is also in `fns`); the remainder is
      the one left by the overload scan. */
  lemma ParseBsSpec<R>(row: seq<char> -> Res<R>, s: seq<char>)
    requires Progress(row)
    ensures ParseBsWith(row, s).Ok?
    ensures var r := ParseBsWith(row, s).value; var hs := Hits(row, s, 0);
      && r.text == s
      && r.fns == Values(Hits(FnDecls.Parse, s, 0))
      && r.overloads == Values(hs)
      && LastEnd(hs, 0) <= |s|
      && ParseBsWith(row, s).rest == s[LastEnd(hs, 0)..]
    ensures Tiles(FnDecls.Parse, s, 0, Hits(FnDecls.Parse, s, 0))
    ensures Tiles(row, s, 0, Hits(row, s, 0))
  {
    ParsersProgress();
    ScanSpec(FnDecls.Parse, s);
    ScanSpec(row, s);
  }

  /** Both row grammars consume what they read, so both scanners have the
      properties above. */
  lemma ParseBsBothSpec(s: seq<char>)
    ensures ParseBs(s).Ok? && ParseBs(s).value.text == s
    ensures ParseBs(s).value.overloads == Values(Hits(LegacyBounds.ParseRow, s, 0))
    ensures ParseBsNewer(s).Ok? && ParseBsNewer(s).value.text == s
    ensures ParseBsNewer(s).value.overloads == Values(Hits(Overloads.ParseRow, s, 0))
    ensures ParseBs(s).value.fns == ParseBsNewer(s).value.fns == Values(Hits(FnDecls.Parse, s, 0))
  {
    ParsersProgress();
    ParseBsSpec(LegacyBounds.ParseRow, s);
    ParseBsSpec(Overloads.ParseRow, s);
  }

  /** A document without any declaration or row gives empty lists and
      leaves the input whole. */
  lemma ParseBsNothing<R>(row: seq<char> -> Res<R>, s: seq<char>)
    requires Progress(row)
    requires forall j :: 0 <= j <= |s| ==> !FnDecls.Parse(s[j..]).Ok? && !row(s[j..]).Ok?
    ensures ParseBsWith(row, s) == Ok(s, WgslSpec(s, [], []))
  {
    ParsersProgress();
    ScanEmpty(FnDecls.Parse, s);
    ScanEmpty(row, s);
  }
}
