/** Expanding union bounds into concrete overloads (src/wgsl/edit.rs): a
    bound `T is i32 or u32` turns one signature mentioning `T` into one
    signature per variant. */
module Edit {
  import opened Prelude
  import opened Types
  import Idents
  import opened FnDecls
  import opened Overloads

  /** The outcome of `instantiate_type_param`: the instances, or
      `TypeParamNotFound`. */
  datatype Instantiation = Instances(decls: seq<FnDecl>) | TypeParamNotFound

  /** A type parameter `Ty::from` accepts; `Ty::new` panics on any other
      name (one that `TyKind::parse` does not read completely). */
  predicate Instantiable(param: Idents.Ident)
  {
    New(param, []).Some?
  }

  /** `Ty::from(param)`: the parameter as a type without parameters. */
  function ParamTy(param: Idents.Ident): (t: Ty)
    requires Instantiable(param)
    ensures t.params == []
  {
    New(param, []).value
  }

  /** Distinct parameter names give distinct types. */
  lemma ParamTyInjective(p: Idents.Ident, q: Idents.Ident)
    requires Instantiable(p) && Instantiable(q) && p != q
    ensures ParamTy(p) != ParamTy(q)
  {
  }

  /** `t` occurs in some argument type or in the return type. */
  predicate Mentions(f: FnDecl, t: Ty)
  {
    (exists i :: 0 <= i < |f.args| && Occurs(t, f.args[i].1)) || Occurs(t, f.out)
  }

  /** The arguments of an instance: same names, and in each type the first
      occurrence of `t` becomes `v`. */
  function ReplaceArgs(args: seq<(Idents.Ident, Ty)>, t: Ty, v: Ty): (r: seq<(Idents.Ident, Ty)>)
    ensures |r| == |args|
    ensures forall i :: 0 <= i < |args| ==> r[i] == (args[i].0, Replace(args[i].1, t, v))
  {
    seq(|args|, i requires 0 <= i < |args| => (args[i].0, Replace(args[i].1, t, v)))
  }

  /** One instance of `f`: every argument type and the return type with the
      first occurrence of `t` overwritten by `v`. */
  function InstanceOf(f: FnDecl, t: Ty, v: Ty): (g: FnDecl)
    ensures g.name == f.name && |g.args| == |f.args|
    ensures forall i :: 0 <= i < |f.args| ==> g.args[i].0 == f.args[i].0
    ensures !Mentions(f, t) ==> g == f
  {
    FnDecl(f.name, ReplaceArgs(f.args, t, v), Replace(f.out, t, v))
  }

  /** One instance of `f` per variant, in variant order. */
  function InstanceList(f: FnDecl, t: Ty, vs: seq<Ty>): seq<FnDecl>
  {
    seq(|vs|, k requires 0 <= k < |vs| => InstanceOf(f, t, vs[k]))
  }

  /** `instantiate_type_param` as a function: no instance when `t` is not
      mentioned, otherwise one per variant, in variant order. */
  function Instantiate(u: UnionBound, t: Ty, f: FnDecl): (r: Instantiation)
    ensures r.TypeParamNotFound? <==> !Mentions(f, t)
    ensures r.Instances? ==> |r.decls| == |u.isOneOf|
    ensures r.Instances? ==> forall k :: 0 <= k < |r.decls| ==> r.decls[k].name == f.name
  {
    if Mentions(f, t) then
      Instances(InstanceList(f, t, u.isOneOf))
    else
      TypeParamNotFound
  }

  /** `UnionBound::instantiate_type_param`: a `contains_param` flag gathered
      over the arguments and the return type, then, per variant, a copy of
      `f` whose argument and return types are overwritten in place at the
      first match. */
  method InstantiateTypeParam(u: UnionBound, param: Idents.Ident, f: FnDecl) returns (r: Instantiation)
    requires Instantiable(param)
    ensures r == Instantiate(u, ParamTy(param), f)
  {
    r := InstantiateTy(u, ParamTy(param), f);
  }

  /** The body of `instantiate_type_param`, once the parameter is a type. */
  method InstantiateTy(u: UnionBound, t: Ty, f: FnDecl) returns (r: Instantiation)
    ensures r == Instantiate(u, t, f)
  {
    var containsParam := ContainsParam(f, t);
    if !containsParam {
      return TypeParamNotFound;
    }
    var instances := InstancesIn(f, t, u.isOneOf);
    r := Instances(instances);
  }

  /** The loop over the variants, one clone of `f` each. */
  method InstancesIn(f: FnDecl, t: Ty, vs: seq<Ty>) returns (instances: seq<FnDecl>)
    ensures instances == InstanceList(f, t, vs)
  {
    instances := [];
    var k := 0;
    while k < |vs|
      invariant 0 <= k <= |vs|
      invariant |instances| == k
      invariant forall j :: 0 <= j < k ==> instances[j] == InstanceOf(f, t, vs[j])
    {
      var g := InstanceIn(f, t, vs[k]);
      instances := instances + [g];
      k := k + 1;
    }
    AllInstances(instances, f, t, vs);
  }

  lemma AllInstances(instances: seq<FnDecl>, f: FnDecl, t: Ty, vs: seq<Ty>)
    requires |instances| == |vs|
    requires forall j :: 0 <= j < |vs| ==> instances[j] == InstanceOf(f, t, vs[j])
    ensures instances == InstanceList(f, t, vs)
  {
  }

  /** `contains_param |= …` over the argument types, then the return type. */
  method ContainsParam(f: FnDecl, t: Ty) returns (containsParam: bool)
    ensures containsParam == Mentions(f, t)
  {
    containsParam := false;
    var i := 0;
    while i < |f.args|
      invariant 0 <= i <= |f.args|
      invariant containsParam <==> exists j :: 0 <= j < i && Occurs(t, f.args[j].1)
    {
      containsParam := containsParam || Find(f.args[i].1, t).Some?;
      i := i + 1;
    }
    containsParam := containsParam || Find(f.out, t).Some?;
  }

  /** One clone of `f`, its types overwritten in place through `find_mut`. */
  method InstanceIn(f: FnDecl, t: Ty, v: Ty) returns (g: FnDecl)
    ensures g == InstanceOf(f, t, v)
  {
    var args := f.args;
    var j := 0;
    while j < |args|
      invariant 0 <= j <= |args| && |args| == |f.args|
      invariant forall m :: 0 <= m < j ==> args[m] == (f.args[m].0, Replace(f.args[m].1, t, v))
      invariant forall m :: j <= m < |args| ==> args[m] == f.args[m]
    {
      match FindMut(args[j].1, t) {
        case Some(p) =>
          args := args[j := (args[j].0, ReplaceAt(args[j].1, p, v))];
        case None =>
      }
      j := j + 1;
    }
    var out := f.out;
    match FindMut(out, t) {
      case Some(p) =>
        out := ReplaceAt(out, p, v);
      case None =>
    }
    assert args == ReplaceArgs(f.args, t, v);
    g := FnDecl(f.name, args, out);
  }

  // ---------------------------------------------------------------------
  // What an instance is
  // ---------------------------------------------------------------------

  /** An instance keeps the name, the number of arguments and their names;
      each argument type and the return type either do not contain `t` and
      are unchanged, or have `v` at the first pre-order match of `t`, with
      every node beside that match unchanged. */
  lemma InstanceShape(f: FnDecl, t: Ty, v: Ty, i: nat)
    requires i < |f.args|
    ensures var g := InstanceOf(f, t, v);
      && g.name == f.name && |g.args| == |f.args| && g.args[i].0 == f.args[i].0
      && TypeInstance(f.args[i].1, t, v, g.args[i].1)
      && TypeInstance(f.out, t, v, g.out)
  {
    ReplaceShape(f.args[i].1, t, v);
    ReplaceShape(f.out, t, v);
  }

  /** `y` is `x` with the first match of `t` overwritten by `v`: no match
      means no change; otherwise the match at path `p` (no match comes
      before it) now holds `v`, and every node neither above nor below `p`
      is as it was. */
  ghost predicate TypeInstance(x: Ty, t: Ty, v: Ty, y: Ty)
  {
    if !Occurs(t, x) then y == x
    else
      exists p: Path ::
        && ValidPath(x, p) && At(x, p) == t
        && (forall q: Path :: ValidPath(x, q) && At(x, q) == t ==> !Before(q, p))
        && ValidPath(y, p) && At(y, p) == v
        && (forall q: Path :: ValidPath(x, q) && !(p <= q) && !(q <= p) ==> ValidPath(y, q) && At(y, q) == At(x, q))
  }

  lemma ReplaceShape(x: Ty, t: Ty, v: Ty)
    ensures TypeInstance(x, t, v, Replace(x, t, v))
  {
    if Occurs(t, x) {
      var p := FindMut(x, t).value;
      var y := Replace(x, t, v);
      forall q: Path | ValidPath(x, q) && At(x, q) == t
        ensures !Before(q, p)
      {
        FindMutFirst(x, t, q);
      }
      forall q: Path | ValidPath(x, q) && !(p <= q) && !(q <= p)
        ensures ValidPath(y, q) && At(y, q) == At(x, q)
      {
        ReplaceAtElsewhere(x, p, v, q);
      }
    }
  }

  /** Overwriting the first match of one parameter keeps every other
      parameter the signature mentions. */
  lemma InstanceKeeps(f: FnDecl, t: Ty, v: Ty, s: Ty)
    requires t.params == [] && s.params == [] && s != t && Mentions(f, s)
    ensures Mentions(InstanceOf(f, t, v), s)
  {
    var g := InstanceOf(f, t, v);
    if Occurs(s, f.out) {
      ReplaceKeepsLeaf(f.out, t, v, s);
    } else {
      var i :| 0 <= i < |f.args| && Occurs(s, f.args[i].1);
      ReplaceKeepsLeaf(f.args[i].1, t, v, s);
      assert Occurs(s, g.args[i].1);
    }
  }

  // ---------------------------------------------------------------------
  // instantiate_type_param_multi
  // ---------------------------------------------------------------------

  /** What one signature becomes: its instances, or itself when the
      parameter is not found. */
  function Expand(u: UnionBound, t: Ty, f: FnDecl): seq<FnDecl>
  {
    match Instantiate(u, t, f)
    case Instances(ds) => ds
    case TypeParamNotFound => [f]
  }

  /** `instantiate_type_param_multi`: the expansions of `fs`, in order, one
      after the other (`flat_map`). */
  function Multi(u: UnionBound, param: Idents.Ident, fs: seq<FnDecl>): (r: seq<FnDecl>)
    requires Instantiable(param)
    ensures |u.isOneOf| > 0 ==> |fs| <= |r|
  {
    MultiOfKeepsAll(u, ParamTy(param), fs);
    MultiOf(u, ParamTy(param), fs)
  }

  /** The same, once the parameter is a type. */
  function MultiOf(u: UnionBound, t: Ty, fs: seq<FnDecl>): seq<FnDecl>
  {
    if fs == [] then [] else Expand(u, t, fs[0]) + MultiOf(u, t, fs[1..])
  }

  /** With at least one variant, every signature yields at least one. */
  lemma {:induction false} MultiOfKeepsAll(u: UnionBound, t: Ty, fs: seq<FnDecl>)
    ensures |u.isOneOf| > 0 ==> |fs| <= |MultiOf(u, t, fs)|
    decreases |fs|
  {
    if fs != [] {
      MultiOfKeepsAll(u, t, fs[1..]);
    }
  }

  /** How many signatures one signature becomes. */
  function Weight(u: UnionBound, t: Ty, f: FnDecl): nat
  {
    if Mentions(f, t) then |u.isOneOf| else 1
  }

  function TotalWeight(u: UnionBound, t: Ty, fs: seq<FnDecl>): nat
  {
    if fs == [] then 0 else Weight(u, t, fs[0]) + TotalWeight(u, t, fs[1..])
  }

  /** The length of `instantiate_type_param_multi`: each signature counts
      its number of variants if it mentions the parameter, 1 otherwise. */
  lemma {:induction false} MultiLength(u: UnionBound, param: Idents.Ident, fs: seq<FnDecl>)
    requires Instantiable(param)
    ensures |Multi(u, param, fs)| == TotalWeight(u, ParamTy(param), fs)
    decreases |fs|
  {
    if fs != [] {
      MultiLength(u, param, fs[1..]);
    }
  }

  /** The expansion of a concatenation is the concatenation of the
      expansions: input order is kept. */
  lemma {:induction false} MultiAppend(u: UnionBound, param: Idents.Ident, fs: seq<FnDecl>, gs: seq<FnDecl>)
    requires Instantiable(param)
    ensures Multi(u, param, fs + gs) == Multi(u, param, fs) + Multi(u, param, gs)
  {
    MultiOfAppend(u, ParamTy(param), fs, gs);
  }

  lemma {:induction false} MultiOfAppend(u: UnionBound, t: Ty, fs: seq<FnDecl>, gs: seq<FnDecl>)
    ensures MultiOf(u, t, fs + gs) == MultiOf(u, t, fs) + MultiOf(u, t, gs)
    decreases |fs|
  {
    if fs == [] {
      assert fs + gs == gs;
    } else {
      assert (fs + gs)[0] == fs[0] && (fs + gs)[1..] == fs[1..] + gs;
      MultiOfUnfold(u, t, fs + gs);
      MultiOfUnfold(u, t, fs);
      MultiOfAppend(u, t, fs[1..], gs);
      ConcatAssoc(Expand(u, t, fs[0]), MultiOf(u, t, fs[1..]), MultiOf(u, t, gs));
    }
  }

  lemma MultiOfUnfold(u: UnionBound, t: Ty, fs: seq<FnDecl>)
    requires fs != []
    ensures MultiOf(u, t, fs) == Expand(u, t, fs[0]) + MultiOf(u, t, fs[1..])
  {
  }

  lemma ConcatAssoc<T>(a: seq<T>, b: seq<T>, c: seq<T>)
    ensures a + (b + c) == (a + b) + c
  {
  }

  /** Signatures that do not mention the parameter pass through unchanged. */
  lemma MultiNone(u: UnionBound, param: Idents.Ident, fs: seq<FnDecl>)
    requires Instantiable(param)
    requires forall j :: 0 <= j < |fs| ==> !Mentions(fs[j], ParamTy(param))
    ensures Multi(u, param, fs) == fs
  {
    MultiOfNone(u, ParamTy(param), fs);
  }

  lemma {:induction false} MultiOfNone(u: UnionBound, t: Ty, fs: seq<FnDecl>)
    requires forall j :: 0 <= j < |fs| ==> !Mentions(fs[j], t)
    ensures MultiOf(u, t, fs) == fs
    decreases |fs|
  {
    if fs != [] {
      var rest := fs[1..];
      assert forall j :: 0 <= j < |rest| ==> rest[j] == fs[j + 1];
      MultiOfNone(u, t, rest);
      assert Expand(u, t, fs[0]) == [fs[0]];
      assert fs == [fs[0]] + rest;
    }
  }

  /** Position of variant `k` of signature `j` when each signature expands
      to `n` instances. */
  function Slot(j: nat, n: nat, k: nat): nat
  {
    if j == 0 then k else n + Slot(j - 1, n, k)
  }

  /** That position is `j * n + k`. */
  lemma {:induction false} SlotIsProduct(j: nat, n: nat, k: nat)
    ensures Slot(j, n, k) == j * n + k
  {
    if j > 0 {
      SlotIsProduct(j - 1, n, k);
      MulSucc(j, n);
    }
  }

  lemma MulSucc(m: nat, n: nat)
    requires m >= 1
    ensures m * n == n + (m - 1) * n
  {
  }

  /** When every signature mentions the parameter, each becomes `n`
      signatures. */
  lemma MultiAllLength(u: UnionBound, param: Idents.Ident, fs: seq<FnDecl>)
    requires Instantiable(param)
    requires forall j :: 0 <= j < |fs| ==> Mentions(fs[j], ParamTy(param))
    ensures |Multi(u, param, fs)| == |fs| * |u.isOneOf|
  {
    EachMentions(fs, ParamTy(param));
    MultiOfLength(u, ParamTy(param), fs);
    SlotIsProduct(|fs|, |u.isOneOf|, 0);
  }

  lemma {:induction false} MultiOfLength(u: UnionBound, t: Ty, fs: seq<FnDecl>)
    requires EachMention(fs, t)
    ensures |MultiOf(u, t, fs)| == Slot(|fs|, |u.isOneOf|, 0)
    decreases |fs|
  {
    if fs != [] {
      MultiOfLength(u, t, fs[1..]);
      ExpandLength(u, t, fs[0]);
      assert MultiOf(u, t, fs) == Expand(u, t, fs[0]) + MultiOf(u, t, fs[1..]);
      assert Slot(|fs|, |u.isOneOf|, 0) == |u.isOneOf| + Slot(|fs[1..]|, |u.isOneOf|, 0);
    }
  }

  lemma ExpandLength(u: UnionBound, t: Ty, f: FnDecl)
    requires Mentions(f, t)
    ensures |Expand(u, t, f)| == |u.isOneOf|
  {
  }

  /** A signature that mentions the parameter expands to one instance per
      variant, in variant order. */
  lemma ExpandAll(u: UnionBound, t: Ty, f: FnDecl)
    requires Mentions(f, t)
    ensures |Expand(u, t, f)| == |u.isOneOf|
    ensures forall k :: 0 <= k < |u.isOneOf| ==> Expand(u, t, f)[k] == InstanceOf(f, t, u.isOneOf[k])
  {
  }

  /** When every signature mentions the parameter, signature `j` with
      variant `k` sits at position `j * n + k`. */
  lemma MultiAt(u: UnionBound, param: Idents.Ident, fs: seq<FnDecl>, j: nat, k: nat)
    requires Instantiable(param)
    requires forall m :: 0 <= m < |fs| ==> Mentions(fs[m], ParamTy(param))
    requires j < |fs| && k < |u.isOneOf|
    ensures Slot(j, |u.isOneOf|, k) < |Multi(u, param, fs)|
      && Multi(u, param, fs)[Slot(j, |u.isOneOf|, k)] == InstanceOf(fs[j], ParamTy(param), u.isOneOf[k])
  {
    EachMentions(fs, ParamTy(param));
    MultiOfAt(u, ParamTy(param), fs, j, k);
  }

  /** Every signature of `fs` mentions `t`, one at a time. */
  predicate EachMention(fs: seq<FnDecl>, t: Ty)
  {
    fs == [] || (Mentions(fs[0], t) && EachMention(fs[1..], t))
  }

  lemma {:induction false} EachMentions(fs: seq<FnDecl>, t: Ty)
    requires forall m :: 0 <= m < |fs| ==> Mentions(fs[m], t)
    ensures EachMention(fs, t)
    decreases |fs|
  {
    if fs != [] {
      var rest := fs[1..];
      assert forall m :: 0 <= m < |rest| ==> rest[m] == fs[m + 1];
      EachMentions(rest, t);
    }
  }

  lemma {:induction false} MultiOfAt(u: UnionBound, t: Ty, fs: seq<FnDecl>, j: nat, k: nat)
    requires EachMention(fs, t)
    requires j < |fs| && k < |u.isOneOf|
    ensures Slot(j, |u.isOneOf|, k) < |MultiOf(u, t, fs)|
      && MultiOf(u, t, fs)[Slot(j, |u.isOneOf|, k)] == InstanceOf(fs[j], t, u.isOneOf[k])
    decreases |fs|, 1
  {
    if j > 0 {
      MultiOfAtNext(u, t, fs, j, k);
    } else {
      MultiOfHead(u, t, fs, k);
    }
  }

  lemma {:induction false} MultiOfAtNext(u: UnionBound, t: Ty, fs: seq<FnDecl>, j: nat, k: nat)
    requires EachMention(fs, t)
    requires 0 < j < |fs| && k < |u.isOneOf|
    ensures Slot(j, |u.isOneOf|, k) < |MultiOf(u, t, fs)|
      && MultiOf(u, t, fs)[Slot(j, |u.isOneOf|, k)] == InstanceOf(fs[j], t, u.isOneOf[k])
    decreases |fs|, 0
  {
    var rest := fs[1..];
    assert EachMention(rest, t);
    MultiOfAt(u, t, rest, j - 1, k);
    assert rest[j - 1] == fs[j];
    MultiOfTail(u, t, fs, rest, j, k, InstanceOf(fs[j], t, u.isOneOf[k]));
  }

  lemma MultiOfHead(u: UnionBound, t: Ty, fs: seq<FnDecl>, k: nat)
    requires |fs| > 0 && Mentions(fs[0], t) && k < |u.isOneOf|
    ensures Slot(0, |u.isOneOf|, k) < |MultiOf(u, t, fs)|
      && MultiOf(u, t, fs)[Slot(0, |u.isOneOf|, k)] == InstanceOf(fs[0], t, u.isOneOf[k])
  {
    var head := Expand(u, t, fs[0]);
    var tail := MultiOf(u, t, fs[1..]);
    assert MultiOf(u, t, fs) == head + tail;
    ExpandAll(u, t, fs[0]);
    AtHead(head, tail, |u.isOneOf|, k);
  }

  lemma MultiOfTail(u: UnionBound, t: Ty, fs: seq<FnDecl>, rest: seq<FnDecl>, j: nat, k: nat, x: FnDecl)
    requires |fs| > 0 && rest == fs[1..] && Mentions(fs[0], t) && j > 0
    requires Slot(j - 1, |u.isOneOf|, k) < |MultiOf(u, t, rest)|
    requires MultiOf(u, t, rest)[Slot(j - 1, |u.isOneOf|, k)] == x
    ensures Slot(j, |u.isOneOf|, k) < |MultiOf(u, t, fs)| && MultiOf(u, t, fs)[Slot(j, |u.isOneOf|, k)] == x
  {
    var head := Expand(u, t, fs[0]);
    assert MultiOf(u, t, fs) == head + MultiOf(u, t, rest);
    ExpandAll(u, t, fs[0]);
    AtTail(head, MultiOf(u, t, rest), |u.isOneOf|, j, k);
  }

  lemma AtHead(head: seq<FnDecl>, tail: seq<FnDecl>, n: nat, k: nat)
    requires |head| == n && k < n
    ensures Slot(0, n, k) < |head + tail| && (head + tail)[Slot(0, n, k)] == head[k]
  {
  }

  lemma AtTail(head: seq<FnDecl>, tail: seq<FnDecl>, n: nat, j: nat, k: nat)
    requires |head| == n && j > 0 && Slot(j - 1, n, k) < |tail|
    ensures Slot(j, n, k) < |head + tail| && (head + tail)[Slot(j, n, k)] == tail[Slot(j - 1, n, k)]
  {
  }

  /** When every signature mentions the parameter, signature `j` becomes
      the block of `n` instances at positions `j * n .. j * n + n`, the
      variants in order. */
  lemma MultiAll(u: UnionBound, param: Idents.Ident, fs: seq<FnDecl>)
    requires Instantiable(param)
    requires forall j :: 0 <= j < |fs| ==> Mentions(fs[j], ParamTy(param))
    ensures var n := |u.isOneOf|; var ms := Multi(u, param, fs);
      && |ms| == |fs| * n
      && forall j, k :: 0 <= j < |fs| && 0 <= k < n ==>
           Slot(j, n, k) < |ms| && ms[Slot(j, n, k)] == InstanceOf(fs[j], ParamTy(param), u.isOneOf[k])
  {
    MultiAllLength(u, param, fs);
    forall j, k | 0 <= j < |fs| && 0 <= k < |u.isOneOf|
      ensures Slot(j, |u.isOneOf|, k) < |Multi(u, param, fs)|
        && Multi(u, param, fs)[Slot(j, |u.isOneOf|, k)] == InstanceOf(fs[j], ParamTy(param), u.isOneOf[k])
    {
      MultiAt(u, param, fs, j, k);
    }
  }

  /** Every result of `Multi` still mentions any other parameter that all
      its inputs mention. */
  lemma MultiKeeps(u: UnionBound, param: Idents.Ident, fs: seq<FnDecl>, s: Ty)
    requires Instantiable(param) && s.params == [] && s != ParamTy(param)
    requires forall j :: 0 <= j < |fs| ==> Mentions(fs[j], s)
    ensures forall j :: 0 <= j < |Multi(u, param, fs)| ==> Mentions(Multi(u, param, fs)[j], s)
  {
    MultiOfKeeps(u, ParamTy(param), fs, s);
  }

  lemma {:induction false} MultiOfKeeps(u: UnionBound, t: Ty, fs: seq<FnDecl>, s: Ty)
    requires t.params == [] && s.params == [] && s != t
    requires forall j :: 0 <= j < |fs| ==> Mentions(fs[j], s)
    ensures forall j :: 0 <= j < |MultiOf(u, t, fs)| ==> Mentions(MultiOf(u, t, fs)[j], s)
    decreases |fs|
  {
    if fs != [] {
      var head, tail := Expand(u, t, fs[0]), MultiOf(u, t, fs[1..]);
      MultiOfKeeps(u, t, fs[1..], s);
      ExpandKeeps(u, t, fs[0], s);
      assert MultiOf(u, t, fs) == head + tail;
      forall j | 0 <= j < |head + tail| ensures Mentions((head + tail)[j], s) {
        if j < |head| {
          assert (head + tail)[j] == head[j];
        } else {
          assert (head + tail)[j] == tail[j - |head|];
        }
      }
    }
  }

  lemma ExpandKeeps(u: UnionBound, t: Ty, f: FnDecl, s: Ty)
    requires t.params == [] && s.params == [] && s != t && Mentions(f, s)
    ensures forall k :: 0 <= k < |Expand(u, t, f)| ==> Mentions(Expand(u, t, f)[k], s)
  {
    if Mentions(f, t) {
      ExpandAll(u, t, f);
      forall k | 0 <= k < |u.isOneOf| ensures Mentions(InstanceOf(f, t, u.isOneOf[k]), s) {
        InstanceKeeps(f, t, u.isOneOf[k], s);
      }
    } else {
      assert Expand(u, t, f) == [f];
    }
  }

  // ---------------------------------------------------------------------
  // instantiate_bounds_if_possible
  // ---------------------------------------------------------------------

  /** The bounds that are kept in every row: all but the union bounds, in
      their original order. */
  function Leftover(bs: seq<Bound>): (r: seq<Bound>)
    ensures |r| <= |bs|
  {
    if bs == [] then []
    else if bs[0].kind.Union? then Leftover(bs[1..])
    else [bs[0]] + Leftover(bs[1..])
  }

  /** The union bounds, in order, as (type parameter, union). */
  function Unions(bs: seq<Bound>): (r: seq<(Idents.Ident, UnionBound)>)
    ensures |r| <= |bs|
  {
    if bs == [] then []
    else if bs[0].kind.Union? then [(bs[0].typeParam, bs[0].kind.union)] + Unions(bs[1..])
    else Unions(bs[1..])
  }

  /** The kept bounds are bounds of the parametrization. */
  lemma {:induction false} LeftoverFrom(bs: seq<Bound>)
    ensures forall j :: 0 <= j < |Leftover(bs)| ==> Leftover(bs)[j] in bs
    decreases |bs|
  {
    if bs != [] {
      LeftoverFrom(bs[1..]);
      assert forall b :: b in bs[1..] ==> b in bs;
    }
  }

  /** Each union entry is a union bound of the parametrization. */
  lemma {:induction false} UnionsFrom(bs: seq<Bound>)
    ensures forall k :: 0 <= k < |Unions(bs)| ==> Bound(Unions(bs)[k].0, Union(Unions(bs)[k].1)) in bs
    decreases |bs|
  {
    if bs != [] {
      UnionsFrom(bs[1..]);
      assert forall b :: b in bs[1..] ==> b in bs;
    }
  }

  /** Every bound is either kept or a union, never both. */
  lemma {:induction false} UnionsCount(bs: seq<Bound>)
    ensures |Unions(bs)| + |Leftover(bs)| == |bs|
    decreases |bs|
  {
    if bs != [] {
      UnionsCount(bs[1..]);
    }
  }

  predicate AllInstantiable(us: seq<(Idents.Ident, UnionBound)>)
  {
    forall k :: 0 <= k < |us| ==> Instantiable(us[k].0)
  }

  /** The `fold`: each union bound in turn expands every signature built so
      far. */
  function FoldUnions(us: seq<(Idents.Ident, UnionBound)>, acc: seq<FnDecl>): (r: seq<FnDecl>)
    requires AllInstantiable(us)
    ensures acc == [] ==> r == []
    ensures (forall k :: 0 <= k < |us| ==> |us[k].1.isOneOf| > 0) ==> |acc| <= |r|
    decreases |us|
  {
    if us == [] then acc
    else FoldUnions(us[1..], Multi(us[0].1, us[0].0, acc))
  }

  /** `OverloadRow::instantiate_bounds_if_possible`: one row per signature
      the fold yields, each with the original attribute and the leftover
      bounds. */
  function InstantiateBounds(row: OverloadRow): (r: seq<OverloadRow>)
    requires AllInstantiable(Unions(row.parametrization))
    ensures |r| == |FoldUnions(Unions(row.parametrization), [row.fnDecl])|
    ensures forall i :: 0 <= i < |r| ==>
      r[i].fnDecl == FoldUnions(Unions(row.parametrization), [row.fnDecl])[i]
    ensures forall i :: 0 <= i < |r| ==>
      r[i].algorithmAttr == row.algorithmAttr && r[i].parametrization == Leftover(row.parametrization)
    ensures (forall k :: 0 <= k < |Unions(row.parametrization)| ==> |Unions(row.parametrization)[k].1.isOneOf| > 0) ==> |r| >= 1
  {
    var left := Leftover(row.parametrization);
    var ds := FoldUnions(Unions(row.parametrization), [row.fnDecl]);
    seq(|ds|, i requires 0 <= i < |ds| => OverloadRow(row.algorithmAttr, left, ds[i]))
  }

  /** Leftover and union bounds split the parametrization: the filters
      distribute over concatenation, and one bound goes to exactly one of
      them. */
  lemma SplitAppend(bs: seq<Bound>, cs: seq<Bound>)
    ensures Leftover(bs + cs) == Leftover(bs) + Leftover(cs)
    ensures Unions(bs + cs) == Unions(bs) + Unions(cs)
  {
    LeftoverAppend(bs, cs);
    UnionsAppend(bs, cs);
  }

  lemma {:induction false} LeftoverAppend(bs: seq<Bound>, cs: seq<Bound>)
    ensures Leftover(bs + cs) == Leftover(bs) + Leftover(cs)
    decreases |bs|
  {
    if bs == [] {
      assert bs + cs == cs;
    } else {
      assert (bs + cs)[0] == bs[0];
      assert (bs + cs)[1..] == bs[1..] + cs;
      LeftoverAppend(bs[1..], cs);
    }
  }

  lemma {:induction false} UnionsAppend(bs: seq<Bound>, cs: seq<Bound>)
    ensures Unions(bs + cs) == Unions(bs) + Unions(cs)
    decreases |bs|
  {
    if bs == [] {
      assert bs + cs == cs;
    } else {
      assert (bs + cs)[0] == bs[0];
      assert (bs + cs)[1..] == bs[1..] + cs;
      UnionsAppend(bs[1..], cs);
    }
  }

  lemma SplitOne(b: Bound)
    ensures b.kind.Union? ==> Leftover([b]) == [] && Unions([b]) == [(b.typeParam, b.kind.union)]
    ensures !b.kind.Union? ==> Leftover([b]) == [b] && Unions([b]) == []
  {
    assert [b][1..] == [];
  }

  /** Without union bounds nothing is expanded: the leftover is the whole
      parametrization. */
  lemma {:induction false} NoUnionsLeftover(bs: seq<Bound>)
    requires forall j :: 0 <= j < |bs| ==> !bs[j].kind.Union?
    ensures Unions(bs) == [] && Leftover(bs) == bs
    decreases |bs|
  {
    if bs != [] {
      NoUnionsLeftover(bs[1..]);
      assert bs == [bs[0]] + bs[1..];
    }
  }

  /** A row without union bounds stays one row, unchanged. */
  lemma NoUnionsOneRow(row: OverloadRow)
    requires forall j :: 0 <= j < |row.parametrization| ==> !row.parametrization[j].kind.Union?
    ensures AllInstantiable(Unions(row.parametrization))
    ensures InstantiateBounds(row) == [row]
  {
    NoUnionsLeftover(row.parametrization);
  }

  /** Every row keeps the attribute and exactly the leftover bounds; the
      signatures are those of the fold, in its order. */
  lemma RowsKeep(row: OverloadRow, i: nat)
    requires AllInstantiable(Unions(row.parametrization))
    requires i < |InstantiateBounds(row)|
    ensures var r := InstantiateBounds(row)[i];
      && r.fnDecl == FoldUnions(Unions(row.parametrization), [row.fnDecl])[i]
      && r.algorithmAttr == row.algorithmAttr
      && r.parametrization == Leftover(row.parametrization)
      && (forall j :: 0 <= j < |r.parametrization| ==> !r.parametrization[j].kind.Union?)
  {
    LeftoverNoUnion(row.parametrization);
  }

  lemma {:induction false} LeftoverNoUnion(bs: seq<Bound>)
    ensures forall j :: 0 <= j < |Leftover(bs)| ==> !Leftover(bs)[j].kind.Union?
    decreases |bs|
  {
    if bs != [] {
      LeftoverNoUnion(bs[1..]);
      var l := Leftover(bs);
      if !bs[0].kind.Union? {
        forall j | 0 <= j < |l| ensures !l[j].kind.Union? {
          if j > 0 { assert l[j] == Leftover(bs[1..])[j - 1]; }
        }
      }
    }
  }

  // ---------------------------------------------------------------------
  // One overload per combination of variants
  // ---------------------------------------------------------------------

  /** The number of combinations: the product of the variant counts. */
  function Combinations(us: seq<(Idents.Ident, UnionBound)>): nat
  {
    if us == [] then 1 else |us[0].1.isOneOf| * Combinations(us[1..])
  }

  predicate DistinctParams(us: seq<(Idents.Ident, UnionBound)>)
  {
    forall i, j :: 0 <= i < j < |us| ==> us[i].0 != us[j].0
  }

  /** Every signature mentions every parameter of `us`. */
  predicate MentionsAll(us: seq<(Idents.Ident, UnionBound)>, fs: seq<FnDecl>)
    requires AllInstantiable(us)
  {
    forall k, j :: 0 <= k < |us| && 0 <= j < |fs| ==> Mentions(fs[j], ParamTy(us[k].0))
  }

  /** Expanding by the first bound keeps every later parameter mentioned. */
  lemma MentionsAfterStep(us: seq<(Idents.Ident, UnionBound)>, fs: seq<FnDecl>)
    requires us != [] && AllInstantiable(us) && DistinctParams(us) && MentionsAll(us, fs)
    ensures AllInstantiable(us[1..]) && DistinctParams(us[1..])
    ensures MentionsAll(us[1..], Multi(us[0].1, us[0].0, fs))
  {
    var ms := Multi(us[0].1, us[0].0, fs);
    forall k | 0 <= k < |us| - 1
      ensures forall j :: 0 <= j < |ms| ==> Mentions(ms[j], ParamTy(us[1..][k].0))
    {
      var s := ParamTy(us[k + 1].0);
      ParamTyInjective(us[k + 1].0, us[0].0);
      assert forall j :: 0 <= j < |fs| ==> Mentions(fs[j], s);
      MultiKeeps(us[0].1, us[0].0, fs, s);
    }
  }

  lemma MulAssoc(a: nat, b: nat, c: nat)
    ensures a * (b * c) == (a * b) * c
  {
  }

  /** When the parameters are distinct and all mentioned, the fold yields
      one signature per combination of variants for each signature it
      starts from. */
  lemma {:induction false} FoldCount(us: seq<(Idents.Ident, UnionBound)>, fs: seq<FnDecl>)
    requires AllInstantiable(us) && DistinctParams(us) && MentionsAll(us, fs)
    ensures |FoldUnions(us, fs)| == |fs| * Combinations(us)
    decreases |us|
  {
    if us != [] {
      var ms := Multi(us[0].1, us[0].0, fs);
      MultiAll(us[0].1, us[0].0, fs);
      MentionsAfterStep(us, fs);
      FoldCount(us[1..], ms);
      MulAssoc(|fs|, |us[0].1.isOneOf|, Combinations(us[1..]));
    }
  }

  /** Two bounds on distinct parameters that the signature mentions, with
      `m` and `n` variants, give `m * n` rows; with no union bound, one row. */
  lemma RowsPerCombination(row: OverloadRow)
    requires AllInstantiable(Unions(row.parametrization)) && DistinctParams(Unions(row.parametrization))
    requires forall k :: 0 <= k < |Unions(row.parametrization)| ==>
      Mentions(row.fnDecl, ParamTy(Unions(row.parametrization)[k].0))
    ensures |InstantiateBounds(row)| == Combinations(Unions(row.parametrization))
  {
    FoldCount(Unions(row.parametrization), [row.fnDecl]);
  }

  /** The fold over `us + [u]` expands the fold over `us` by `u` last. */
  lemma {:induction false} FoldSnoc(us: seq<(Idents.Ident, UnionBound)>, u: (Idents.Ident, UnionBound), fs: seq<FnDecl>)
    requires AllInstantiable(us + [u])
    ensures AllInstantiable(us) && Instantiable(u.0)
    ensures FoldUnions(us + [u], fs) == Multi(u.1, u.0, FoldUnions(us, fs))
    decreases |us|
  {
    assert (us + [u])[|us|] == u;
    assert forall k :: 0 <= k < |us| ==> (us + [u])[k] == us[k];
    if us == [] {
      assert us + [u] == [u];
      assert [u][1..] == [];
    } else {
      assert (us + [u])[1..] == us[1..] + [u];
      assert (us + [u])[0] == us[0];
      FoldSnoc(us[1..], u, Multi(us[0].1, us[0].0, fs));
    }
  }

  /** The later bound varies fastest: in the fold over `us + [u]`, row
      `q * n + k` is row `q` of the fold over `us` with `u`'s parameter set
      to variant `k`. */
  lemma LastVariesFastest(us: seq<(Idents.Ident, UnionBound)>, u: (Idents.Ident, UnionBound), fs: seq<FnDecl>, q: nat, k: nat)
    requires AllInstantiable(us + [u]) && DistinctParams(us + [u]) && MentionsAll(us + [u], fs)
    ensures AllInstantiable(us) && Instantiable(u.0)
    ensures var prev := FoldUnions(us, fs); var n := |u.1.isOneOf|;
      q < |prev| && k < n ==>
        Slot(q, n, k) < |FoldUnions(us + [u], fs)|
        && FoldUnions(us + [u], fs)[Slot(q, n, k)] == InstanceOf(prev[q], ParamTy(u.0), u.1.isOneOf[k])
  {
    FoldSnoc(us, u, fs);
    var prev := FoldUnions(us, fs);
    FoldMentions(us, u, fs);
    if q < |prev| && k < |u.1.isOneOf| {
      MultiAt(u.1, u.0, prev, q, k);
    }
  }

  /** Every signature of the fold over `us` still mentions the parameter of
      a later bound `u`. */
  lemma {:induction false} FoldMentions(us: seq<(Idents.Ident, UnionBound)>, u: (Idents.Ident, UnionBound), fs: seq<FnDecl>)
    requires AllInstantiable(us + [u]) && DistinctParams(us + [u]) && MentionsAll(us + [u], fs)
    ensures AllInstantiable(us) && Instantiable(u.0)
    ensures forall j :: 0 <= j < |FoldUnions(us, fs)| ==> Mentions(FoldUnions(us, fs)[j], ParamTy(u.0))
    decreases |us|
  {
    var vs := us + [u];
    assert vs[|us|] == u;
    assert forall k :: 0 <= k < |us| ==> vs[k] == us[k];
    if us != [] {
      MentionsAfterStep(vs, fs);
      assert vs[1..] == us[1..] + [u];
      assert vs[0] == us[0];
      FoldMentions(us[1..], u, Multi(us[0].1, us[0].0, fs));
    } else {
      assert forall j :: 0 <= j < |fs| ==> Mentions(fs[j], ParamTy(vs[0].0));
    }
  }
}
