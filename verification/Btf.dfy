/** BTF type records (lib/libbpf/src/btf.c, btf.h and the uapi header).

    A record is a header (name offset, info word, size-or-type word) and a tail whose
    form depends on the kind.  Every record splits into the type ids it references,
    `Refs`, and everything else, `Shape`; the two together are the record. */
module Btf {

  datatype Kind =
    | KUnkn | KInt | KPtr | KArray | KStruct | KUnion | KEnum | KFwd | KTypedef
    | KVolatile | KConst | KRestrict | KFunc | KFuncProto | KVar | KDatasec

  datatype Info = Info(kind: Kind, kflag: bool, vlen: nat)

  datatype Enumerator = Enumerator(name: nat, val: int)
  datatype Member = Member(name: nat, typ: nat, offset: nat)
  datatype Param = Param(name: nat, typ: nat)
  datatype SecVar = SecVar(typ: nat, offset: nat, size: nat)

  datatype Tail =
    | NoTail
    | IntBits(bits: nat)
    | ArrayOf(elem: nat, index: nat, nelems: nat)
    | Enums(enums: seq<Enumerator>)
    | Members(members: seq<Member>)
    | Params(params: seq<Param>)
    | Linkage(linkage: nat)
    | SecVars(vars: seq<SecVar>)

  /** `size` is the word that btf_type declares as a union of `size` and `type`. */
  datatype BtfType = BtfType(name: nat, info: Info, size: nat, tail: Tail) {
    function Kind(): Kind { info.kind }
  }

  const MAX_NR_TYPES: nat := 0x7fff_ffff
  const UNPROCESSED: nat := 0xffff_ffff
  const IN_PROGRESS: nat := 0xffff_fffe

  const VOID: BtfType := BtfType(0, Info(KUnkn, false, 0), 0, NoTail)

  predicate IsComposite(k: Kind) { k == KStruct || k == KUnion }
  predicate IsMod(k: Kind) { k == KVolatile || k == KConst || k == KRestrict }

  /** Kinds whose one reference is the size-or-type word. */
  predicate HasTypeWord(k: Kind) {
    k == KPtr || k == KTypedef || IsMod(k) || k == KFunc || k == KVar
  }

  /** The tail a kind carries, and a length that agrees with vlen.  The type word of a FWD is
      unused and zero. */
  predicate WellFormed(t: BtfType) {
    match t.info.kind
    case KInt => t.tail.IntBits?
    case KArray => t.tail.ArrayOf?
    case KEnum => t.tail.Enums? && |t.tail.enums| == t.info.vlen
    case KStruct => t.tail.Members? && |t.tail.members| == t.info.vlen
    case KUnion => t.tail.Members? && |t.tail.members| == t.info.vlen
    case KFuncProto => t.tail.Params? && |t.tail.params| == t.info.vlen
    case KFwd => t.tail.NoTail? && t.size == 0
    case KVar => t.tail.Linkage?
    case KDatasec => t.tail.SecVars? && |t.tail.vars| == t.info.vlen
    case _ => t.tail.NoTail?
  }

  // ---------------------------------------------------------------- references

  function Refs(t: BtfType): seq<nat>
    requires WellFormed(t)
  {
    match t.info.kind
    case KArray => [t.tail.elem, t.tail.index]
    case KStruct => MemberTypes(t.tail.members)
    case KUnion => MemberTypes(t.tail.members)
    case KFuncProto => [t.size] + ParamTypes(t.tail.params)
    case KDatasec => VarTypes(t.tail.vars)
    case k => if HasTypeWord(k) then [t.size] else []
  }

  function MemberTypes(ms: seq<Member>): seq<nat> { seq(|ms|, i requires 0 <= i < |ms| => ms[i].typ) }
  function ParamTypes(ps: seq<Param>): seq<nat> { seq(|ps|, i requires 0 <= i < |ps| => ps[i].typ) }
  function VarTypes(vs: seq<SecVar>): seq<nat> { seq(|vs|, i requires 0 <= i < |vs| => vs[i].typ) }

  /** The record with its references replaced. */
  function WithRefs(t: BtfType, rs: seq<nat>): BtfType
    requires WellFormed(t) && |rs| == |Refs(t)|
  {
    match t.info.kind
    case KArray => t.(tail := ArrayOf(rs[0], rs[1], t.tail.nelems))
    case KStruct => t.(tail := Members(SetMemberTypes(t.tail.members, rs)))
    case KUnion => t.(tail := Members(SetMemberTypes(t.tail.members, rs)))
    case KFuncProto => t.(size := rs[0], tail := Params(SetParamTypes(t.tail.params, rs[1..])))
    case KDatasec => t.(tail := SecVars(SetVarTypes(t.tail.vars, rs)))
    case k => if HasTypeWord(k) then t.(size := rs[0]) else t
  }

  function SetMemberTypes(ms: seq<Member>, rs: seq<nat>): seq<Member>
    requires |rs| == |ms|
  {
    seq(|ms|, i requires 0 <= i < |ms| => ms[i].(typ := rs[i]))
  }

  function SetParamTypes(ps: seq<Param>, rs: seq<nat>): seq<Param>
    requires |rs| == |ps|
  {
    seq(|ps|, i requires 0 <= i < |ps| => ps[i].(typ := rs[i]))
  }

  function SetVarTypes(vs: seq<SecVar>, rs: seq<nat>): seq<SecVar>
    requires |rs| == |vs|
  {
    seq(|vs|, i requires 0 <= i < |vs| => vs[i].(typ := rs[i]))
  }

  /** Everything a record says besides the ids it references. */
  function Shape(t: BtfType): BtfType
    requires WellFormed(t)
  {
    WithRefs(t, seq(|Refs(t)|, _ => 0))
  }

  function SetRef(t: BtfType, k: nat, id: nat): BtfType
    requires WellFormed(t) && k < |Refs(t)|
  {
    WithRefs(t, Refs(t)[k := id])
  }

  lemma WithRefsLaws(t: BtfType, rs: seq<nat>)
    requires WellFormed(t) && |rs| == |Refs(t)|
    ensures WellFormed(WithRefs(t, rs))
    ensures WithRefs(t, rs).info == t.info && WithRefs(t, rs).name == t.name
    ensures Refs(WithRefs(t, rs)) == rs
    ensures Shape(WithRefs(t, rs)) == Shape(t)
  {
    RefsOfWithRefs(t, rs);
    ShapeOfWithRefs(t, rs);
  }

  lemma RefsOfWithRefs(t: BtfType, rs: seq<nat>)
    requires WellFormed(t) && |rs| == |Refs(t)|
    ensures WellFormed(WithRefs(t, rs)) && Refs(WithRefs(t, rs)) == rs
  {
    var u := WithRefs(t, rs);
    if t.info.kind == KFuncProto {
      assert Refs(u) == [rs[0]] + ParamTypes(u.tail.params);
      assert rs == [rs[0]] + rs[1..];
    }
    assert Refs(u) == rs;
  }

  lemma ShapeOfWithRefs(t: BtfType, rs: seq<nat>)
    requires WellFormed(t) && |rs| == |Refs(t)|
    requires WellFormed(WithRefs(t, rs)) && Refs(WithRefs(t, rs)) == rs
    ensures Shape(WithRefs(t, rs)) == Shape(t)
  {
    hide Refs;
    var zs: seq<nat> := seq(|rs|, _ => 0);
    var v, w := WithRefs(WithRefs(t, rs), zs), WithRefs(t, zs);
    match t.info.kind
    case KStruct => assert v.tail.members == w.tail.members;
    case KUnion => assert v.tail.members == w.tail.members;
    case KFuncProto => assert v.tail.params == w.tail.params;
    case KDatasec => assert v.tail.vars == w.tail.vars;
    case _ =>
  }

  lemma ShapeKeeps(t: BtfType)
    requires WellFormed(t)
    ensures WellFormed(Shape(t)) && Shape(t).info == t.info && Shape(t).name == t.name
    ensures |Refs(Shape(t))| == |Refs(t)|
  {
    WithRefsLaws(t, seq(|Refs(t)|, _ => 0));
  }

  /** A record is its shape and its references. */
  lemma ShapeAndRefs(t: BtfType, u: BtfType)
    requires WellFormed(t) && WellFormed(u)
    requires Shape(t) == Shape(u)
    ensures |Refs(t)| == |Refs(u)|
    ensures Refs(t) == Refs(u) ==> t == u
    ensures t.info == u.info && t.name == u.name
  {
    ShapeKeeps(t);
    ShapeKeeps(u);
    if Refs(t) == Refs(u) {
      Rebuild(t);
      Rebuild(u);
    }
  }

  lemma Rebuild(t: BtfType)
    requires WellFormed(t)
    ensures WellFormed(Shape(t)) && |Refs(Shape(t))| == |Refs(t)|
    ensures WithRefs(Shape(t), Refs(t)) == t
  {
    ShapeKeeps(t);
    var u := WithRefs(Shape(t), Refs(t));
    match t.info.kind
    case KStruct => assert u.tail.members == t.tail.members;
    case KUnion => assert u.tail.members == t.tail.members;
    case KFuncProto => assert u.tail.params == t.tail.params;
    case KDatasec => assert u.tail.vars == t.tail.vars;
    case _ =>
  }

  // ---------------------------------------------------------------- graphs

  /** A type table: id 0 is void, every other id a well-formed record of a known kind. */
  ghost predicate Graph(T: seq<BtfType>) {
    && 1 <= |T| <= MAX_NR_TYPES + 1
    && T[0] == VOID
    && (forall i :: 0 <= i < |T| ==> WellFormed(T[i]))
    && (forall i :: 1 <= i < |T| ==> T[i].info.kind != KUnkn)
    && (forall i, k :: 0 <= i < |T| && 0 <= k < |Refs(T[i])| ==> Refs(T[i])[k] < |T|)
  }

  datatype Tree = Cut | Node(shape: BtfType, kids: seq<Tree>)

  /** What a type id means, looked at to depth n. */
  ghost function Unfold(T: seq<BtfType>, i: nat, n: nat): Tree
    requires Graph(T) && i < |T|
    decreases n
  {
    if n == 0 then Cut
    else Node(Shape(T[i]), seq(|Refs(T[i])|, k requires 0 <= k < |Refs(T[i])| => Unfold(T, Refs(T[i])[k], n - 1)))
  }

  /** Two ids of one table mean the same at every depth. */
  ghost predicate Same(T: seq<BtfType>, i: nat, j: nat)
    requires Graph(T) && i < |T| && j < |T|
  {
    forall n: nat :: Unfold(T, i, n) == Unfold(T, j, n)
  }

  lemma UnfoldCongruence(T: seq<BtfType>, i: nat, U: seq<BtfType>, j: nat, n: nat)
    requires Graph(T) && Graph(U) && i < |T| && j < |U|
    requires Shape(T[i]) == Shape(U[j])
    requires |Refs(T[i])| == |Refs(U[j])|
    requires n > 0 ==> forall k :: 0 <= k < |Refs(T[i])| ==>
               Unfold(T, Refs(T[i])[k], n - 1) == Unfold(U, Refs(U[j])[k], n - 1)
    ensures Unfold(T, i, n) == Unfold(U, j, n)
  {
    if n > 0 {
      assert Unfold(T, i, n).kids == Unfold(U, j, n).kids;
    }
  }

  lemma SameFromKids(T: seq<BtfType>, i: nat, j: nat)
    requires Graph(T) && i < |T| && j < |T|
    requires Shape(T[i]) == Shape(T[j]) && |Refs(T[i])| == |Refs(T[j])|
    requires forall k :: 0 <= k < |Refs(T[i])| ==> Same(T, Refs(T[i])[k], Refs(T[j])[k])
    ensures Same(T, i, j)
  {
    forall n: nat
      ensures Unfold(T, i, n) == Unfold(T, j, n)
    {
      UnfoldCongruence(T, i, T, j, n);
    }
  }

  lemma SameShape(T: seq<BtfType>, i: nat, j: nat)
    requires Graph(T) && i < |T| && j < |T| && Same(T, i, j)
    ensures Shape(T[i]) == Shape(T[j]) && |Refs(T[i])| == |Refs(T[j])|
    ensures T[i].info == T[j].info
    ensures forall k :: 0 <= k < |Refs(T[i])| ==> Same(T, Refs(T[i])[k], Refs(T[j])[k])
  {
    assert Unfold(T, i, 1) == Unfold(T, j, 1);
    ShapeAndRefs(T[i], T[j]);
    forall k | 0 <= k < |Refs(T[i])|
      ensures Same(T, Refs(T[i])[k], Refs(T[j])[k])
    {
      forall n: nat
        ensures Unfold(T, Refs(T[i])[k], n) == Unfold(T, Refs(T[j])[k], n)
      {
        assert Unfold(T, i, n + 1) == Unfold(T, j, n + 1);
        assert Unfold(T, i, n + 1).kids[k] == Unfold(T, Refs(T[i])[k], n);
        assert Unfold(T, j, n + 1).kids[k] == Unfold(T, Refs(T[j])[k], n);
      }
    }
  }
}
