/** `Ident` of src/wgsl/fn_decl.rs: an identifier token, kept as its text. */
module Idents {
  import opened Prelude

  type Ident = seq<char>

  /** `Ident::parse`: `[A-Za-z_]` followed by the longest `[A-Za-z0-9_]*` run.
      It never commits: every rejection is a backtrackable `Error`. */
  function Parse(s: seq<char>): (r: Res<Ident>)
    ensures !r.Failure?
    ensures r.Ok? <==> s != [] && IsIdentStart(s[0])
    ensures r.Ok? ==> r.value + r.rest == s && IsIdent(r.value)
    ensures r.Ok? ==> r.rest == [] || !IsIdentChar(r.rest[0])
  {
    Identifier(s)
  }

  /** The identifiers the unit test accepts are consumed completely. */
  lemma ParseAcceptsTestIdents()
    ensures Parse("f32") == Ok("", "f32")
    ensures Parse("_1") == Ok("", "_1")
    ensures Parse("a_582_") == Ok("", "a_582_")
    ensures Parse("_582_") == Ok("", "_582_")
    ensures Parse("yeet") == Ok("", "yeet")
  {
    ShortTestIdents();
    LongTestIdents();
    ParseWhole("f32");
    ParseWhole("_1");
    ParseWhole("a_582_");
    ParseWhole("_582_");
    ParseWhole("yeet");
  }

  lemma ShortTestIdents()
    ensures IsIdent("f32") && IsIdent("_1") && IsIdent("yeet")
  {
  }

  lemma LongTestIdents()
    ensures IsIdent("a_582_") && IsIdent("_582_")
  {
  }

  /** A whole identifier is consumed completely. */
  lemma ParseWhole(x: seq<char>)
    requires IsIdent(x)
    ensures Parse(x) == Ok("", x)
  {
    IdentifierOf(x, "");
    assert x + "" == x;
  }

  /** The strings the unit test rejects are rejected. */
  lemma ParseRejectsTestStrings()
    ensures Parse("").Error? && Parse("1").Error? && Parse("4_").Error?
    ensures Parse("123").Error? && Parse("<f32>").Error? && Parse("$").Error?
    ensures Parse("\n").Error? && Parse(" ").Error?
  {
  }
}
