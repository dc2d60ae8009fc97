# WGSL builtin-signature parsing, modelled in Dafny

The library reads the Bikeshed source of the WebGPU Shading Language
specification and extracts two things from it:

- the builtin function declarations written as `fn name(arg: ty, ...) -> ty`;
- the overload tables. Each `<tr algorithm="...">` row gives the type
  parameters' bounds, then a declaration.

The parsers are nom combinators over `&str`. A separate editing step
instantiates a declaration once per alternative of each union bound
(`T is i32 or u32`). This yields one concrete overload per combination.

This project models the following parts:

- **Nom vocabulary.** Whitespace, tags, identifiers, `ws0_then` and
  `ws1_then`, in module `Prelude`.
- **Identifiers** (`Idents`). The older `primitives::Ident` has the same
  grammar and is modelled by the same parser.
- **Texture type names** (`Texture`).
- **Types.** The type kinds and types, their display, and the `find`,
  `find_mut` and `flatten` helpers (`Types`).
- **Function declarations** (`FnDecls`).
- **Overload rows.** Generic arguments, trait names, union bounds, bound
  kinds (trait, union, prose), parametrizations, rows and their display
  (`Overloads`, plus the worked test in `OverloadExamples`).
- **Text utilities.** The two used by the row parser and the document
  scanner: `take_until_matches` and `normalize_whitespace` (`Misc`).
- **Instantiation engine.** Single, multi and per-row instantiation of
  union bounds (`Edit`).
- **Document scanner.** `WgslSpec::parse_bs` (`Wgsl`).
- **Older grammar.** The one still wired into `parse_bs`:
  `primitives::Ty` (`LegacyTypes`) and the `parametrization` bounds and
  rows (`LegacyBounds`).

How parser results are modelled:

- Every parser is a function from the input to `Ok(rest, value)`,
  `Error` or `Failure`. `Error` is nom's recoverable error, on which
  `alt`, `opt` and `many0` backtrack. `Failure` is what `cut` produces,
  and it stops every enclosing combinator.
- Each parser's contract states that its `rest` is a suffix of the input.
  Where nom demands progress, the contract states that `rest` is a strict
  suffix.
- The lemmas pin down what each parser accepts, rejects and commits to.
- The displays of texture names, types and declarations, and the older
  grammar's spelling of types (`LegacyTypes.Spell`), are paired with
  round-trip lemmas (`parse(render(x)) == x`). A texture name's display
  reads back only when the name is neither external nor multisampled.
- The overload-row displays (`Overloads.UnionText`, `Alternatives`,
  `KindText`, `BoundText`, `ParamText`, `RowText`) have no parser to
  round-trip through. They have only injectivity lemmas
  (`Overloads.AlternativesInjective`, `UnionTextInjective`,
  `KindTextInjective`, `BoundTextInjective`, `RowTextLabel`). One more
  lemma states where the parts of a row's display sit
  (`Overloads.RowTextLayout`).
- The instantiation engine is paired with counting and ordering lemmas.

## Model

| member | source | states |
|---|---|---|
| Prelude.Span | src/nom_prelude.rs:33-35 | the length of the longest prefix whose characters all satisfy the predicate, the run `take_while` takes |
| Prelude.SpanUnique | src/nom_prelude.rs:29-35 | any prefix that satisfies the predicate and cannot be extended is exactly that run |
| Prelude.SkipWs | src/nom_prelude.rs:33-35 | the input after its leading whitespace: a suffix starting with a non-whitespace character, with only whitespace dropped |
| Prelude.SkipWsIsWs0 | src/nom_prelude.rs:33-35 | skipping whitespace drops exactly the run that `take_while(char::is_whitespace)` recognises |
| Prelude.Ws0 | src/nom_prelude.rs:33-35 | `ws0` never fails; it splits the input into its whole leading whitespace run and a rest that starts with a non-whitespace character |
| Prelude.Ws1 | src/nom_prelude.rs:29-31 | `ws1` fails with a recoverable error exactly when the input is empty or starts with non-whitespace; otherwise it takes the same run as `ws0`, which is non-empty |
| Prelude.Ws0Then | src/nom_prelude.rs:47-55 | on input that does not start with whitespace, `ws0_then(f)` behaves as `f` |
| Prelude.Ws0ThenSkipsRun | src/nom_prelude.rs:47-55 | leading whitespace is invisible to `ws0_then(f)`: prefixing any whitespace run changes nothing, and the result is `f` on the input without its leading whitespace |
| Prelude.Ws1Then | src/nom_prelude.rs:37-45 | `ws1_then(f)` gives a recoverable error without running `f` when no whitespace comes first, and otherwise behaves as `ws0_then(f)` |
| Prelude.Tag | src/nom_prelude.rs:3 | `tag(t)` never commits; it succeeds exactly when `t` is a prefix of the input, returns `t` and leaves the input after it |
| Prelude.Identifier | src/nom_prelude.rs:22-27 | succeeds exactly when the input starts with a letter or underscore; the value followed by the rest is the input, the value is an identifier, and the rest cannot extend it; never commits |
| Prelude.IdentifierOf | src/nom_prelude.rs:22-27 | an identifier followed by a character that cannot continue it is read whole |
| Idents.Parse | src/wgsl/fn_decl.rs:27-36 | `Ident::parse` succeeds exactly on input starting with an ASCII letter or `_`, takes the longest identifier and never commits |
| Idents.ParseWhole | src/wgsl/fn_decl.rs:27-36 | every identifier is consumed completely |
| Idents.ParseAcceptsTestIdents | src/wgsl/fn_decl.rs:142-154 | the identifiers of the unit test (`f32`, `_1`, `a_582_`, `_582_`, `yeet`) are read whole |
| Idents.ParseRejectsTestStrings | src/wgsl/fn_decl.rs:142-154 | the strings the unit test rejects (empty, `1`, `4_`, `123`, `<f32>`, `$`, newline, space) give a recoverable error |
| Texture.OptAttrib | src/wgsl/texture.rs:46-48 | the flag is set exactly when the attribute is a prefix, and only then is the attribute consumed |
| Texture.Dims | src/wgsl/texture.rs:50-53 | reads `_` followed by one of `1d`, `2d`, `3d`, `cube`, and never commits |
| Texture.DimsOf | src/wgsl/texture.rs:50-53 | each of the four dimensionalities after `_` is read |
| Texture.Parse | src/wgsl/texture.rs:29-78 | never commits; on success the input is the canonical spelling of the name followed by the rest, the dimensionality is valid, and an unarrayed name leaves no `_array` behind |
| Texture.ParseSpelling | src/wgsl/texture.rs:55-77 | every well-formed name is read back from its spelling, in the fixed attribute order external, depth, storage, multisampled, dims, array |
| Texture.ParseNeedsSegment | src/wgsl/texture.rs:55-65 | input not starting with `texture_` is rejected |
| Texture.ParseRejectsExternal | src/wgsl/texture.rs:55-65 | `texture_external` is rejected because a dimensionality is mandatory |
| Texture.ParseRejectsOutOfOrder | src/wgsl/texture.rs:55-65 | attributes out of the fixed order (`texture_storage_depth_2d`) are rejected |
| Texture.ParseTestArray | src/wgsl/texture.rs:120-125 | `texture_2d_array` reads as arrayed and 2d |
| Texture.ParseTestDepthArray | src/wgsl/texture.rs:127-133 | `texture_depth_2d_array` reads as depth, arrayed and 2d |
| Texture.ParseTestCube | src/wgsl/texture.rs:135-139 | `texture_cube` reads as cube with no attributes |
| Texture.Render | src/wgsl/texture.rs:81-92 | without external or multisampled, the display is exactly the spelling the parser reads |
| Texture.RenderDropsMultisampled | src/wgsl/texture.rs:81-92 | the display ignores the multisampled flag |
| Texture.RenderRoundTrip | src/wgsl/texture.rs:81-92 | parsing the display gives back every name that is neither external nor multisampled |
| Texture.ExternalDoesNotRoundTrip | src/wgsl/texture.rs:81-92 | for an external name, the display puts `_external` last; parsing it reads the name without external and leaves `_external` unconsumed |
| Types.ParseKind | src/wgsl/ty.rs:49-62 | recoverable error exactly when no identifier starts; commits exactly on `vec` with nothing after it and on `mat` without `x` in the middle; on success the input is the kind's display followed by the rest |
| Types.KindOf | src/wgsl/ty.rs:37-62 | every kind whose display is unambiguous reads back from its display |
| Types.ParseTy | src/wgsl/ty.rs:80-93 | recoverable error exactly when no identifier starts; on success it consumes input |
| Types.ParseBrackets | src/wgsl/ty.rs:83-87 | the optional bracketed parameter list never gives a recoverable error and consumes only a prefix |
| Types.ParseList | src/wgsl/ty.rs:85 | `separated_list0` of types never gives a recoverable error and consumes only a prefix; a first element that fails recoverably gives the empty list |
| Types.ParseMore | src/wgsl/ty.rs:85 | the comma-then-type repetitions never give a recoverable error and consume only a prefix; a comma not followed by a type ends the list before that comma |
| Types.RenderKind | src/wgsl/ty.rs:37-47 | `Display for TyKind`: `void`, `vec` and the size, `mat`, columns, `x` and rows, the texture name's display, or the identifier; it has no contract of its own, and Types.ParseRender reads it back |
| Types.Render | src/wgsl/ty.rs:117-130 | `Display for Ty`: the kind, then the parameters in angle brackets separated by `, `, only when there are parameters; it has no contract of its own, and Types.Write and Types.ParseRender state what it is |
| Types.Write | src/wgsl/ty.rs:117-130 | the `Display` loop writes the kind and the comma-separated parameters in angle brackets; its output is `Render(t)` |
| Types.ParseRender | src/wgsl/ty.rs:80-93 | parsing the display of a well-formed type gives the type back, before any boundary character |
| Types.ParseRenderBracketed | src/wgsl/ty.rs:80-93 | a well-formed type with parameters ends in `>`, so its display reads back whatever follows it |
| Types.LeafParse | src/wgsl/ty.rs:143-145 | a plain name without parameters reads as a named type with no parameters |
| Types.ParseTestVec4 | src/wgsl/ty.rs:147-148 | `vec4<f32>` reads as vector 4 of f32 |
| Types.ParseTestMat | src/wgsl/ty.rs:153-154 | `matCxR<A, B, C, D>` reads as matrix C by R with four parameters |
| Types.ParseTestNested | src/wgsl/ty.rs:159-160 | `vec4<vec3<f32>>` reads as nested vectors |
| Types.ParseTestSpaced | src/wgsl/ty.rs:150-157 | blanks around brackets and commas do not change the parsed type |
| Types.New | src/wgsl/ty.rs:73-78 | `Ty::new` succeeds exactly when the whole name parses as one kind; the kind displays as the name, and the parameters are kept |
| Types.NewOfKind | src/wgsl/ty.rs:73-78 | every unambiguous kind's display gives that kind back |
| Types.NewRejects | src/wgsl/ty.rs:73-78 | names `Ty::new` panics on (`voidx`, `vec`, `f32 `) give no type |
| Types.Flatten | src/wgsl/ty.rs:111-114 | a present type is kept, and a missing one becomes `void` |
| Types.Find | src/wgsl/ty.rs:103-109 | finds the type exactly when it occurs in the tree, and returns it |
| Types.FindMut | src/wgsl/ty.rs:95-101 | finds exactly when the type occurs; the path it returns is valid and leads to that type, and is the root when the root matches |
| Types.FindMutIn | src/wgsl/ty.rs:99 | searching the parameters from position i succeeds exactly when the type occurs in one of them, and descends into that one |
| Types.FindMutFirst | src/wgsl/ty.rs:95-101 | the path found comes first in pre-order among all paths to the type |
| Types.ReplaceAt | src/wgsl/edit.rs:24 | overwriting through a path puts the new type at that path and keeps the shape above it |
| Types.ReplaceAtElsewhere | src/wgsl/edit.rs:24-29 | overwriting at one path leaves every path that neither contains nor lies under it unchanged |
| Types.ReplaceKeepsLeaf | src/wgsl/edit.rs:24-29 | replacing a leaf type keeps every other leaf type that occurred |
| FnDecls.ParseName | src/wgsl/fn_decl.rs:96 | succeeds exactly on `fn`, whitespace and an identifier; never commits |
| FnDecls.ParseArg | src/wgsl/fn_decl.rs:101-105 | an argument is an identifier, `:` and a type; without an identifier it is a recoverable error |
| FnDecls.ParseArgs | src/wgsl/fn_decl.rs:99-106 | the comma-separated argument list never gives a recoverable error and consumes a prefix |
| FnDecls.ParseParens | src/wgsl/fn_decl.rs:97-108 | without an opening parenthesis it is a recoverable error, and on success it consumes input |
| FnDecls.ParseOut | src/wgsl/fn_decl.rs:109-112 | the optional return type: without `->` it consumes nothing and gives none |
| FnDecls.Parse | src/wgsl/fn_decl.rs:93-116 | recoverable error exactly when the `fn name` prefix does not parse, so everything after it is committed; the name is an identifier |
| FnDecls.Chain | src/wgsl/fn_decl.rs:99-106 | a chain of `, arg` segments is read as the list of their arguments |
| FnDecls.TysMentioned | src/wgsl/fn_decl.rs:118-120 | the return type first, then every argument's type in order |
| FnDecls.MaxNameLen | src/wgsl/fn_decl.rs:74-79 | the length of the longest argument name, and 0 when there are none |
| FnDecls.ColonAligned | src/wgsl/fn_decl.rs:80-87 | every argument line has the name after four spaces, blanks up to one column, and the colon in that same column for all arguments |
| FnDecls.Text | src/wgsl/fn_decl.rs:70-91 | what `Display for FnDecl` writes: `fn name(`, one padded line per argument, then `) -> out`; it has no contract of its own, and FnDecls.Display and FnDecls.ParseText state what it is |
| FnDecls.Display | src/wgsl/fn_decl.rs:70-91 | the `Display` loop writes exactly the declaration text |
| FnDecls.ParseText | src/wgsl/fn_decl.rs:70-116 | parsing the display of a declaration with well-formed names and types gives it back |
| FnDecls.ArgsMoreOf | src/wgsl/fn_decl.rs:99-106 | the comma-separated tail of well-formed arguments, with any blanks, reads back as those arguments up to the closing parenthesis |
| FnDecls.ArgListOf | src/wgsl/fn_decl.rs:99-106 | a non-empty or empty argument list spelled with any blanks reads back as its arguments, stopping at `)` |
| FnDecls.DeclOf | src/wgsl/fn_decl.rs:93-116 | `fn`, a blank, an identifier, the spelled arguments, `)` and `-> out` read back as that declaration, with the rest untouched |
| FnDecls.ParseTestTwoArgs | src/wgsl/fn_decl.rs:157-163 | `fn foo(a: x, b: y)` reads with a void result, and with `-> f32` reads with that result |
| FnDecls.ParseTestNoArgs | src/wgsl/fn_decl.rs:165-166 | `fn foo() -> f32` reads with no arguments |
| FnDecls.ParseTestNoArgsVoid | src/wgsl/fn_decl.rs:168-169 | `fn foo()` reads with no arguments and a void result |
| FnDecls.ParseTestRejects | src/wgsl/fn_decl.rs:171-172 | `fn ()` is a recoverable error |
| FnDecls.ParseTestNeedsBlank | src/wgsl/fn_decl.rs:96 | `fnfoo()` is rejected because `fn` must be followed by whitespace |
| FnDecls.ParseTestCommits | src/wgsl/fn_decl.rs:97-108 | `fn foo` without parentheses commits to a failure |
| FnDecls.NameOnlyCommits | src/wgsl/fn_decl.rs:95-108 | for any identifier, `fn` and that name with no argument list after it is a failure, not an error: the argument list sits under `cut` |
| Misc.FirstMatch | src/wgsl/mod.rs:28 | the first offset from i at which the parser succeeds, with no success before it; none only if it succeeds nowhere |
| Misc.TakeUntilMatches | src/wgsl/mod.rs:28-31 | splits the input at the first offset where the parser succeeds, so it succeeds on the rest and at no earlier offset; an error only when it succeeds nowhere |
| Misc.Trim | src/wgsl/overload_row.rs:141 | drops whitespace from both ends and keeps every non-whitespace character |
| Misc.TrimOf | src/wgsl/overload_row.rs:141 | trimming removes exactly trailing whitespace from text that has no blank at either end |
| Misc.NormalizeWhitespace | src/wgsl/overload_row.rs:141 | every whitespace run becomes one space; the non-whitespace characters, emptiness and whether each end is blank are kept |
| Misc.NormalizeKeeps | src/wgsl/overload_row.rs:141 | an already normalised prefix passes through unchanged |
| Misc.NormalizeRun | src/wgsl/overload_row.rs:141 | a leading whitespace run becomes exactly one space |
| Misc.ProseText | src/wgsl/overload_row.rs:139-142 | the prose text stored for a bound has no blank at either end, no run of blanks, and the same non-whitespace characters as the source text |
| Overloads.ParseBarred | src/wgsl/overload_row.rs:13-17 | `\|ident\|` commits once the bar is read and the identifier is missing; without a bar it is a bare identifier |
| Overloads.Bare | src/wgsl/overload_row.rs:16 | a bare identifier after optional whitespace, never committing |
| Overloads.ParseGenericArg | src/wgsl/overload_row.rs:12-31 | on success the argument is an identifier and input was consumed |
| Overloads.GenericFallback | src/wgsl/overload_row.rs:28 | without `<var ignore>`, the argument is read as an optionally barred identifier |
| Overloads.GenericArgForms | src/wgsl/overload_row.rs:12-31 | all four spellings are read: wrapped or bare, barred or not, with any blanks |
| Overloads.GenericArgCommits | src/wgsl/overload_row.rs:15-25 | after `<var ignore>` or a bar, a missing identifier is a committed failure |
| Overloads.VarForm | src/wgsl/overload_row.rs:22-26 | the `<var ignore>` alternative: it consumes input on success and its value is an identifier |
| Overloads.ParseTraitName | src/wgsl/overload_row.rs:33-47 | commits exactly when `[=` is followed by no name character; on success the name is non-empty, made of letters, digits and blanks, and enclosed in `[=` and `=]` |
| Overloads.TraitNameOf | src/wgsl/overload_row.rs:33-47 | every such name is read back between `[=` and `=]` |
| Overloads.UnionSep | src/wgsl/overload_row.rs:73-77 | a separator never commits and consumes input |
| Overloads.SepOf | src/wgsl/overload_row.rs:73-77 | each of `, or `, `,` and `or ` separates alternatives, with what nom leaves unconsumed |
| Overloads.UnionItem | src/wgsl/overload_row.rs:78-81 | an alternative is `[=ty=]` or a back-quoted type after optional whitespace |
| Overloads.ItemForms | src/wgsl/overload_row.rs:79-80 | `[=ty=]` or a back-quoted type; on success it consumes input |
| Overloads.Backquoted | src/wgsl/overload_row.rs:80 | a type between backquotes: consumes input on success, and input not starting with a backquote is a recoverable error |
| Overloads.ParseUnion | src/wgsl/overload_row.rs:69-87 | a union reads at least one alternative |
| Overloads.UnionMore | src/wgsl/overload_row.rs:72-82 | the separator-then-variant repetitions never give a recoverable error and consume only a prefix |
| Overloads.UnionOf | src/wgsl/overload_row.rs:69-87 | every spelling of a list of well-formed types, with any wrappers and separators, reads back as that list |
| Overloads.UnionMoreOf | src/wgsl/overload_row.rs:72-82 | the separated tail of a union is read as its types |
| Overloads.UnionCommits | src/wgsl/overload_row.rs:79 | `[=` not followed by a type commits to a failure |
| Overloads.ParseTraitBound | src/wgsl/overload_row.rs:100-105 | a trait bound is whitespace then a trait name; it is an error without the whitespace, and the name parser decides the rest |
| Overloads.IsWord | src/wgsl/overload_row.rs:147 | the word `is` with blanks around it never commits |
| Overloads.Article | src/wgsl/overload_row.rs:146 | the article never commits |
| Overloads.ArticleAny | src/wgsl/overload_row.rs:146 | `a` or `an` is read; `an` is tried first |
| Overloads.BrOrTd | src/wgsl/overload_row.rs:139 | succeeds exactly when the input starts with `<br>` or `<td>` |
| Overloads.ProseAlt | src/wgsl/overload_row.rs:139-143 | the prose alternative never commits |
| Overloads.TraitAlt | src/wgsl/overload_row.rs:152-155 | the trait alternative yields a trait bound |
| Overloads.UnionAlt | src/wgsl/overload_row.rs:156 | the union alternative yields a union bound |
| Overloads.ParseBoundKind | src/wgsl/overload_row.rs:151-158 | the bound kind consumes only a prefix |
| Overloads.KindTraitOf | src/wgsl/overload_row.rs:152-155 | `is a [=name=]` and `is an [=name=]` read as that trait |
| Overloads.KindTraitCommits | src/wgsl/overload_row.rs:154 | after `is` and an article, a malformed trait bound commits, so the union and prose alternatives are not tried |
| Overloads.KindUnionOf | src/wgsl/overload_row.rs:156 | `is` followed by a spelled union reads as that union |
| Overloads.KindProseOf | src/wgsl/overload_row.rs:139-143 | text up to `<br>` or `<td>` that does not start with `is` reads as trimmed, whitespace-normalised prose |
| Overloads.ParseBound | src/wgsl/overload_row.rs:137-166 | a bound's type parameter is an identifier, and the bound consumes input |
| Overloads.SkipBreaks | src/wgsl/overload_row.rs:176 | `many0(ws0_then(tag("<br>")))` drops every leading break and leaves none behind |
| Overloads.BreakOf | src/wgsl/overload_row.rs:176 | a blank-prefixed `<br>` is dropped |
| Overloads.NoBreak | src/wgsl/overload_row.rs:176 | without a leading break nothing is dropped |
| Overloads.ParseParametrization | src/wgsl/overload_row.rs:172-180 | a parametrization holds at least one bound |
| Overloads.BoundsMore | src/wgsl/overload_row.rs:174-177 | the repetition never gives a recoverable error |
| Overloads.BoundsChain | src/wgsl/overload_row.rs:174-177 | a chain of bounds, each followed by breaks, is read as the list of those bounds, up to the first text that is not a bound |
| Overloads.ParametrizationOf | src/wgsl/overload_row.rs:172-180 | a non-empty chain of bounds reads as that parametrization |
| Overloads.ParseLabel | src/wgsl/overload_row.rs:201-205 | the label is the text between `<tr algorithm="` and the next quote, which it does not contain; never commits |
| Overloads.LabelOf | src/wgsl/overload_row.rs:201-205 | every quote-free label is read back |
| Overloads.Opening | src/wgsl/overload_row.rs:215-216 | an opening tag after optional whitespace is read exactly when present |
| Overloads.ParamsCell | src/wgsl/overload_row.rs:215 | the parameter cell consumes only a prefix |
| Overloads.DeclCell | src/wgsl/overload_row.rs:207-216 | the declaration cell consumes only a prefix |
| Overloads.DeclCellOf | src/wgsl/overload_row.rs:207-216 | `<td><xmp highlight=rust>decl</xmp>` with any blanks reads as the declaration |
| Overloads.ParseRow | src/wgsl/overload_row.rs:199-228 | a row consumes input |
| Overloads.RowOf | src/wgsl/overload_row.rs:199-228 | a label, a parameter cell and a declaration cell read as the row holding all three |
| Overloads.AlternativesInjective | src/wgsl/overload_row.rs:54-67 | `Display for UnionBound` is one-to-one on lists of well-formed types |
| Overloads.UnionTextInjective | src/wgsl/overload_row.rs:54-67 | two unions of well-formed types that display alike are equal |
| Overloads.UnionTextNotTrait | src/wgsl/overload_row.rs:54-67 | a union of well-formed types never displays like a trait bound |
| Overloads.UnionNotTrait | src/wgsl/overload_row.rs:54-98 | a union's alternatives never display like a trait bound |
| Overloads.KindTextInjective | src/wgsl/overload_row.rs:115-123 | `Display for BoundKind` is one-to-one on displayable kinds |
| Overloads.NameInjective | src/wgsl/overload_row.rs:131-135 | in `param: kind`, the parameter ends at the first colon |
| Overloads.BoundTextInjective | src/wgsl/overload_row.rs:131-135 | `Display for Bound` is one-to-one on displayable bounds |
| Overloads.ParamTextSnoc | src/wgsl/overload_row.rs:182-190 | `Display for Parametrization` puts each bound on its own indented line, with a comma after every bound but the last |
| Overloads.UnionText | src/wgsl/overload_row.rs:54-67 | `Display for UnionBound`: `is ` and the alternatives; it has no contract of its own; Overloads.UnionTextInjective and Overloads.UnionTextNotTrait state that distinct unions display differently and never like a trait bound |
| Overloads.Alternatives | src/wgsl/overload_row.rs:57-64 | the alternatives' displays separated by ` \| `; it has no contract of its own, and Overloads.AlternativesInjective states that distinct lists display differently |
| Overloads.KindText | src/wgsl/overload_row.rs:115-123 | `Display for BoundKind`: the union's display, `is a` and the trait name in backquotes, or the prose in double quotes; it has no contract of its own, and Overloads.KindTextInjective states that distinct kinds display differently |
| Overloads.BoundText | src/wgsl/overload_row.rs:131-135 | `Display for Bound`: the type parameter, `: ` and the kind; it has no contract of its own, and Overloads.BoundTextInjective states that distinct bounds display differently |
| Overloads.ParamText | src/wgsl/overload_row.rs:182-190 | `Display for Parametrization`: one indented line per bound, with a comma after all but the last; it has no contract of its own |
| Overloads.RowText | src/wgsl/overload_row.rs:230-236 | `Display for OverloadRow`: the label as `#[...]`, the declaration, ` where`, the bounds and `;`; it has no contract of its own, and Overloads.RowTextLayout and Overloads.RowTextLabel state what it holds |
| Overloads.RowTextLayout | src/wgsl/overload_row.rs:230-236 | the display of a row is, at fixed offsets, `#[`, the label, `]` and a newline, the declaration's display verbatim, ` where` and a newline, the parametrization's display verbatim, and `;` and a newline, with nothing else |
| Overloads.RowTextLabel | src/wgsl/overload_row.rs:230-236 | `Display for OverloadRow` opens with the label in `#[...]`, so rows that display alike have the same label when labels contain no `]` |
| OverloadExamples.ProseValue | src/wgsl/overload_row.rs:241-249 | three indented lines without runs of blanks, with any blanks after them, trim and normalise to the lines joined by single spaces |
| OverloadExamples.ProseBound | src/wgsl/overload_row.rs:241-249 | such a three-line prose after `<var ignore>CF</var>` reads as a prose bound on `CF` holding the joined lines, stopping at `<td>` |
| OverloadExamples.ParseProse | src/wgsl/overload_row.rs:241-249 | a parametrization of that shape reads as exactly that one bound |
| OverloadExamples.ParseTestProse | src/wgsl/overload_row.rs:241-249 | the test's parametrization reads as the single prose bound |
| OverloadExamples.VarArg | src/wgsl/overload_row.rs:23-27 | `<var ignore>x</var>` reads as x |
| OverloadExamples.UnionBoundOf | src/wgsl/overload_row.rs:137-158 | `<var ignore>x</var> is` followed by any spelling of well-formed types reads as the union bound of x over those types, stopping where no separator follows |
| OverloadExamples.UnionLink | src/wgsl/overload_row.rs:137-158 | the same union bound, after blanks, with the bound's text given as one literal |
| OverloadExamples.ProseBoundAt | src/wgsl/overload_row.rs:137-166 | `<var ignore>CF</var>` and three prose lines read as a prose bound whose text is the lines joined by single spaces, stopping at `<td>` |
| OverloadExamples.ParamsOf | src/wgsl/overload_row.rs:172-180 | the test's four bounds, whatever the prose lines, read as the bounds A, X and Y over their unions and CF as prose, stopping at `<td>` |
| OverloadExamples.ParseTestDecl | src/wgsl/overload_row.rs:259-263 | the test's declaration cell reads as `textureSampleLevel` with its five arguments and the `vec4<f32>` result, stopping at `</xmp>` |
| OverloadExamples.ParseRowWith | src/wgsl/overload_row.rs:199-228 | a row with the test's label, bounds of that shape and declaration reads as that row, whatever follows it |
| OverloadExamples.ParseTestRow | src/wgsl/overload_row.rs:251-264 | the test's whole row reads, consuming everything, as the label `textureSampleLevel 2d array`, the bounds A and X over i32 and u32, Y over i32, u32 and f32, CF as the joined prose, and the declaration |
| Edit.ParamTy | src/wgsl/edit.rs:14 | the type parameter as a type has no parameters |
| Edit.ParamTyInjective | src/wgsl/edit.rs:14 | distinct parameter names give distinct types |
| Edit.ReplaceArgs | src/wgsl/edit.rs:25-28 | every argument keeps its name, and its type has the occurrence replaced |
| Edit.InstantiateTypeParam | src/wgsl/edit.rs:9-33 | the method's loops compute the instantiation: `TypeParamNotFound` when the declaration does not mention the parameter, else one instance per alternative |
| Edit.InstantiateTy | src/wgsl/edit.rs:16-32 | with the parameter already a type, the same: not found when unmentioned, else the list of instances |
| Edit.InstanceOf | src/wgsl/edit.rs:22-30 | one instance keeps the name, the number of arguments and every argument name, and is the declaration itself when the parameter does not occur in it |
| Edit.Instantiate | src/wgsl/edit.rs:9-33 | `TypeParamNotFound` exactly when the declaration does not mention the parameter; otherwise one instance per alternative, each keeping the name |
| Edit.InstancesIn | src/wgsl/edit.rs:22-32 | the mapped iterator, collected, holds for each alternative in order the copy of `f` instantiated with it |
| Edit.ContainsParam | src/wgsl/edit.rs:16-18 | the flag is set exactly when the return type or an argument type contains the parameter |
| Edit.InstanceIn | src/wgsl/edit.rs:22-31 | the per-alternative copy replaces the first occurrence in the return type and in each argument |
| Edit.InstanceShape | src/wgsl/edit.rs:22-31 | an instance keeps the name and argument names, and each type is the original with its first occurrence replaced by the alternative |
| Edit.ReplaceShape | src/wgsl/edit.rs:24-29 | replacing the first occurrence yields an instance of the original type |
| Edit.InstanceKeeps | src/wgsl/edit.rs:24-29 | instantiating one leaf type keeps every other leaf the declaration mentioned |
| Edit.ExpandAll | src/wgsl/edit.rs:22-32 | a declaration mentioning the parameter gives one instance per alternative, in the alternatives' order |
| Edit.Multi | src/wgsl/edit.rs:38-45 | `instantiate_type_param_multi`: with at least one alternative, no signature is lost, so the result is at least as long as the input |
| Edit.MultiOf | src/wgsl/edit.rs:38-45 | the same `flat_map` once the parameter is a type; it has no contract of its own, and Edit.MultiLength, Edit.MultiAt and Edit.MultiOfKeepsAll state its properties |
| Edit.MultiOfKeepsAll | src/wgsl/edit.rs:38-45 | with at least one alternative, every signature expands to at least one, so the result is at least as long as the input |
| Edit.MultiLength | src/wgsl/edit.rs:38-45 | the result has one entry per alternative for each declaration that mentions the parameter, and one for each that does not |
| Edit.MultiAppend | src/wgsl/edit.rs:38-45 | the multi-instantiation distributes over concatenation |
| Edit.MultiNone | src/wgsl/edit.rs:42 | declarations that do not mention the parameter are passed through unchanged |
| Edit.MultiAllLength | src/wgsl/edit.rs:38-45 | when all declarations mention the parameter, the result has their number times the number of alternatives |
| Edit.MultiAt | src/wgsl/edit.rs:38-45 | declaration j with alternative k sits at position j times the number of alternatives plus k |
| Edit.MultiAll | src/wgsl/edit.rs:38-45 | the result is the declarations by alternatives grid, declaration-major |
| Edit.MultiKeeps | src/wgsl/edit.rs:38-45 | every other leaf type all declarations mention survives in every result |
| Edit.Leftover | src/wgsl/edit.rs:60-65 | the `filter` that keeps the non-union bounds in order; its contract bounds the result by the input, and Edit.LeftoverFrom, Edit.LeftoverNoUnion and Edit.UnionsCount state what it keeps |
| Edit.LeftoverFrom | src/wgsl/edit.rs:60-65 | every kept bound is a bound of the parametrization |
| Edit.Unions | src/wgsl/edit.rs:67-72 | the `filter_map` that takes the union bounds in order as (parameter, union); its contract bounds the result by the input, and Edit.UnionsFrom and Edit.UnionsCount state what it takes |
| Edit.UnionsFrom | src/wgsl/edit.rs:67-72 | each union entry comes from a union bound of the parametrization on that parameter |
| Edit.UnionsCount | src/wgsl/edit.rs:60-72 | the union bounds and the kept bounds together number exactly the bounds, so every bound goes to exactly one of the two |
| Edit.FoldUnions | src/wgsl/edit.rs:75-77 | the fold over no signature yields none; when every union has an alternative, the fold never loses signatures |
| Edit.InstantiateBounds | src/wgsl/edit.rs:57-86 | one row per signature the fold of the union bounds yields, row i holding the fold's i-th signature in its order; every row keeps the label and carries exactly the non-union bounds; when every union has an alternative there is at least one row |
| Edit.LeftoverAppend | src/wgsl/edit.rs:60-65 | keeping the non-union bounds distributes over concatenation |
| Edit.UnionsAppend | src/wgsl/edit.rs:67-72 | extracting the union bounds distributes over concatenation |
| Edit.SplitAppend | src/wgsl/edit.rs:60-72 | the leftover bounds and the union bounds both distribute over concatenation |
| Edit.SplitOne | src/wgsl/edit.rs:60-72 | a union bound goes to the unions, and any other bound stays in the leftover |
| Edit.NoUnionsLeftover | src/wgsl/edit.rs:60-65 | without union bounds, every bound is leftover |
| Edit.LeftoverNoUnion | src/wgsl/edit.rs:60-65 | the leftover holds no union bound |
| Edit.NoUnionsOneRow | src/wgsl/edit.rs:57-86 | a row without union bounds instantiates to itself alone |
| Edit.RowsKeep | src/wgsl/edit.rs:78-84 | instantiated row i holds the fold's i-th signature, keeps the label and carries exactly the leftover bounds, with no union among them |
| Edit.MentionsAfterStep | src/wgsl/edit.rs:75-77 | instantiating one parameter keeps the mention of every later, distinct parameter |
| Edit.FoldCount | src/wgsl/edit.rs:67-77 | the fold yields the declarations times the product of the union sizes |
| Edit.RowsPerCombination | src/wgsl/edit.rs:49-86 | a row yields one overload per combination of union alternatives, as the doc comment promises |
| Edit.FoldSnoc | src/wgsl/edit.rs:67-77 | the fold applies the unions left to right |
| Edit.LastVariesFastest | src/wgsl/edit.rs:67-77 | in the result, the last union's alternative varies fastest |
| Edit.FoldMentions | src/wgsl/edit.rs:67-77 | after earlier unions are applied, every declaration still mentions the next parameter |
| Wgsl.Skipping | src/wgsl/mod.rs:28-31 | skipping to the first match never commits |
| Wgsl.Scan | src/wgsl/mod.rs:28-31 | the `many0` scan, with its no-progress check, never commits; on success it leaves a suffix, and it finds nothing exactly when it keeps the whole input |
| Wgsl.ScanHits | src/wgsl/mod.rs:28-31 | the `many0` scan returns the values of the successive first matches, and the input after the last one |
| Wgsl.HitsTile | src/wgsl/mod.rs:28-31 | the matches tile the input: each one is the first match after the previous one ends |
| Wgsl.TilesUnique | src/wgsl/mod.rs:28-31 | only one sequence of matches tiles the input this way |
| Wgsl.TilesOrdered | src/wgsl/mod.rs:28-31 | the matches are ordered, non-overlapping and inside the input, and no match starts after the last one |
| Wgsl.ScanSpec | src/wgsl/mod.rs:28-31 | the scan always succeeds, with the tiling matches as its values |
| Wgsl.ScanEmpty | src/wgsl/mod.rs:28-31 | the scan finds nothing and keeps the whole input exactly when the parser succeeds nowhere |
| Wgsl.ParsersProgress | src/wgsl/mod.rs:28-31 | the declaration parser and both row parsers consume input whenever they succeed |
| Wgsl.ParseBsWith | src/wgsl/mod.rs:26-41 | with any row parser, `parse_bs` never commits; on success it keeps the text, leaves a suffix, and finds no row exactly when it keeps the whole input |
| Wgsl.ParseBs | src/wgsl/mod.rs:26-41 | `parse_bs` with the older row grammar always succeeds, keeps the text and leaves a suffix |
| Wgsl.ParseBsNewer | src/wgsl/mod.rs:26-41 | `parse_bs` with the newer row grammar always succeeds, keeps the text and leaves a suffix |
| Wgsl.ParseBsSpec | src/wgsl/mod.rs:26-41 | `parse_bs` succeeds; it keeps the text and collects every declaration and every row, each scan over the whole input; the rest is what follows the last row |
| Wgsl.ParseBsBothSpec | src/wgsl/mod.rs:26-41 | with either row grammar, `parse_bs` collects the same declarations and all rows of that grammar |
| Wgsl.ParseBsNothing | src/wgsl/mod.rs:26-41 | a document with no declaration and no row gives an empty spec and keeps the whole input |
| LegacyTypes.ParseTy | src/wgsl/primitives.rs:25-37 | the older type parser never commits; without an identifier it is an error; a type's name is an identifier |
| LegacyTypes.ParseBrackets | src/wgsl/primitives.rs:29-33 | the bracketed list is mandatory: without `<` it is an error |
| LegacyTypes.ParseList | src/wgsl/primitives.rs:31 | the separated list always succeeds and may be empty |
| LegacyTypes.ParseMore | src/wgsl/primitives.rs:31 | the comma-then-type repetitions always succeed and consume only a prefix |
| LegacyTypes.ParseSpell | src/wgsl/primitives.rs:25-37 | every well-formed type, spelled with brackets everywhere and any blanks, reads back |
| LegacyTypes.Chain | src/wgsl/primitives.rs:31 | a chain of `, ty` segments reads as its types |
| LegacyTypes.ListEmpty | src/wgsl/primitives.rs:31 | when no type starts, the list is empty and nothing is consumed |
| LegacyTypes.BareNameRejected | src/wgsl/primitives.rs:26-36 | a bare name such as `f32` is not a type in this grammar |
| LegacyTypes.BareParamRejected | src/wgsl/primitives.rs:26-36 | `x<y>` is rejected because the inner `y` has no brackets |
| LegacyTypes.EmptyParams | src/wgsl/primitives.rs:26-36 | `x<>` reads as x without parameters |
| LegacyTypes.NestedParam | src/wgsl/primitives.rs:26-36 | `x<y<>>` reads as x with parameter y |
| LegacyBounds.Barred | src/wgsl/parametrization.rs:12 | the barred form needs a bar and never commits |
| LegacyBounds.Middle | src/wgsl/parametrization.rs:11-14 | the body after `<var ignore>` is an identifier, barred or not |
| LegacyBounds.ParseGenericArg | src/wgsl/parametrization.rs:6-18 | the older generic argument needs `<var ignore>`, and without it is an error |
| LegacyBounds.GenericArgForms | src/wgsl/parametrization.rs:6-18 | the wrapped forms, barred or not, are read |
| LegacyBounds.GenericArgNeedsWrapper | src/wgsl/parametrization.rs:9-10 | unwrapped forms, bare or barred, are rejected |
| LegacyBounds.GenericArgCommits | src/wgsl/parametrization.rs:11-14 | after `<var ignore>`, a missing identifier commits to a failure |
| LegacyBounds.GenericArgUnclosed | src/wgsl/parametrization.rs:15 | a missing `</var>` is an error |
| LegacyBounds.UnionItem | src/wgsl/parametrization.rs:50-53 | an alternative is `[=ty=]` or a back-quoted type, in the older type grammar |
| LegacyBounds.ItemForms | src/wgsl/parametrization.rs:51-52 | `[=ty=]` or a back-quoted type in the older type grammar; on success it consumes input |
| LegacyBounds.Backquoted | src/wgsl/parametrization.rs:52 | a back-quoted older type never commits, consumes input on success, and input not starting with a backquote is a recoverable error |
| LegacyBounds.ItemOf | src/wgsl/parametrization.rs:50-53 | each wrapper around a well-formed type reads back |
| LegacyBounds.ParseUnion | src/wgsl/parametrization.rs:41-58 | a union reads at least one alternative |
| LegacyBounds.UnionMore | src/wgsl/parametrization.rs:44-54 | the separator-then-variant repetitions never give a recoverable error and consume only a prefix |
| LegacyBounds.UnionMoreOf | src/wgsl/parametrization.rs:44-54 | the separated tail reads as its types |
| LegacyBounds.UnionOf | src/wgsl/parametrization.rs:41-58 | every spelled list of well-formed types reads back as that union |
| LegacyBounds.BracketedNameFails | src/wgsl/parametrization.rs:51 | `[=name=]` commits to a failure, because the older type needs brackets |
| LegacyBounds.ParseKind | src/wgsl/parametrization.rs:93-96 | the kind consumes only a prefix |
| LegacyBounds.KindTraitOf | src/wgsl/parametrization.rs:94 | `a [=name=]` and `an [=name=]` read as that trait |
| LegacyBounds.ArticleCommits | src/wgsl/parametrization.rs:88-94 | `a` followed by anything but a blank or `n` commits to a failure, so the union alternative is never tried |
| LegacyBounds.KindUnionOf | src/wgsl/parametrization.rs:95 | a spelled union reads as that union |
| LegacyBounds.ParseBound | src/wgsl/parametrization.rs:86-104 | the type parameter is an identifier, and the bound consumes input |
| LegacyBounds.BoundOf | src/wgsl/parametrization.rs:86-104 | `<var ignore>x</var> is kind` reads as the bound whenever the kind reads |
| LegacyBounds.BoundFailsOn | src/wgsl/parametrization.rs:90-97 | a committed failure in the kind fails the bound |
| LegacyBounds.TraitBoundRead | src/wgsl/parametrization.rs:86-104 | a trait bound row entry reads as that bound |
| LegacyBounds.UnionBoundRead | src/wgsl/parametrization.rs:86-104 | a union bound row entry reads as that bound |
| LegacyBounds.ParseParametrization | src/wgsl/parametrization.rs:147-155 | at least one bound |
| LegacyBounds.BoundsMore | src/wgsl/parametrization.rs:149-152 | the repetition never gives a recoverable error |
| LegacyBounds.BoundsChain | src/wgsl/parametrization.rs:149-152 | a chain of bounds with breaks reads as its bounds |
| LegacyBounds.ParametrizationOf | src/wgsl/parametrization.rs:147-155 | a non-empty chain reads as that parametrization |
| LegacyBounds.ParametrizationFails | src/wgsl/parametrization.rs:149-152 | a committed failure in the first bound fails the parametrization |
| LegacyBounds.ParamsCell | src/wgsl/parametrization.rs:180 | the parameter cell consumes only a prefix |
| LegacyBounds.ParseRow | src/wgsl/parametrization.rs:164-193 | a row consumes input |
| LegacyBounds.RowOf | src/wgsl/parametrization.rs:164-193 | a label, a parameter cell and a declaration cell read as the row |
| LegacyBounds.TestRowFails | src/wgsl/parametrization.rs:198-211 | every row whose first bound is `[=name=]` fails, as the unit test's row does |
| LegacyBounds.BracketedBoundReadByNewer | src/wgsl/overload_row.rs:137-166 | the newer grammar reads the test's bound `[=x=], or [=y=]` as a union of the two named types |

## Left out

- Network access and the outer API. `WgslSpec::from_download` and
  `from_bs_url` (src/wgsl/mod.rs:16-24), `download_text`, `lib.rs` and the
  example binary are not modelled. The document is a parameter.
- Error reports. `NomReportError`, `VerboseError` contexts and `fn_name!` are
  not modelled: an error carries no position or context, only its kind
  (recoverable or committed).
- The `Sampler` type in `texture.rs` is not modelled: no parser uses it.
- The `make_ty!` and `make_fn!` macros are not modelled: the test lemmas
  write the values out instead.
- Overloads.ParseTraitName: `char::is_alphanumeric` and `char::is_whitespace`
  are modelled on ASCII letters and digits and the Unicode whitespace set. A
  trait name with non-ASCII letters is rejected here but accepted by the
  source.
- Misc.TakeUntilMatches: `take_until_matches` and `normalize_whitespace` are
  used but not defined in the repository (`src/misc.rs` holds only
  `download_text`). They are modelled from their names and from how
  `overload_row.rs` and `mod.rs` use them. A committed failure of the
  inner parser at some offset is treated as no match there.
- `src/wgsl/mod.rs:4` imports `primitives::FnDecl`, but `primitives.rs`
  does not define it. `Wgsl.ParseBs` and the older rows therefore use the
  declaration parser of `fn_decl.rs`.
- `FnDecl::tys_mentioned_mut` is not modelled: mutable references are out of
  scope. `Ty::find_mut` is modelled as a path into the tree (`Types.FindMut`),
  and writing through it as `Types.ReplaceAt`.
- Types.New: the panics of `Ty::new` are modelled as `None`.
  Edit.InstantiateTypeParam therefore requires a parameter name that parses
  whole as a kind, since the source panics on any other.
- Wgsl.Skipping: nom's `many0` stops with an error when its parser succeeds
  without consuming. That check is modelled in `Wgsl.Scan`, and
  `Wgsl.ParsersProgress` proves that it never fires for the three scanned
  parsers.
- Running time is not modelled. Scanning by `take_until_matches` at every
  offset is quadratic in the document length.
- Mutation in place is not modelled. Rust clones the declaration for each
  alternative, which the pure model shows as building a new value.
  `Edit.InstantiateTypeParam`, `Edit.ContainsParam`, `Edit.InstanceIn`,
  `Types.Write` and `FnDecls.Display` keep the source's loops.

## Findings

| source | as written | input that shows it | evidently intended | confidence | as-written member | corrected member |
|---|---|---|---|---|---|---|
| src/wgsl/parametrization.rs:198-211 | The unit test expects the overload row to parse. But `[=` in `UnionBound::parse` (line 51) cuts into `primitives::Ty::parse`, which demands an angle-bracketed parameter list (src/wgsl/primitives.rs:29-33). So `[=i32=]` is a committed failure and the row fails. | the test's row, whose first bound is `<var ignore>A</var> is [=i32=], or [=u32=]<br>` | the row parses, and `A` is bound to the union of `i32` and `u32`, as the newer grammar in `overload_row.rs` reads it | not executed | LegacyBounds.TestRowFails | LegacyBounds.BracketedBoundReadByNewer |
