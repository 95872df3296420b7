/** Record comparison and hashing used by BTF deduplication (lib/libbpf/src/btf.c). */
module RecordCompare {
  import opened Btf
  import opened Fields

  // ---------------------------------------------------------------- hashing

  const LONG: nat := 0x1_0000_0000_0000_0000

  function HashCombine(h: nat, value: int): (r: nat)
    ensures r < LONG
  {
    (h * 31 + value) % LONG
  }

  function KindCode(k: Kind): nat {
    match k
    case KUnkn => 0 case KInt => 1 case KPtr => 2 case KArray => 3 case KStruct => 4
    case KUnion => 5 case KEnum => 6 case KFwd => 7 case KTypedef => 8 case KVolatile => 9
    case KConst => 10 case KRestrict => 11 case KFunc => 12 case KFuncProto => 13
    case KVar => 14 case KDatasec => 15
  }

  function InfoWord(i: Info): nat {
    (if i.kflag then 0x8000_0000 else 0) + KindCode(i.kind) * 0x100_0000 + i.vlen
  }

  function HashCommon(t: BtfType): nat {
    HashCombine(HashCombine(HashCombine(0, t.name), InfoWord(t.info)), t.size)
  }

  /** The enum hash leaves out vlen and the members. */
  function HashEnum(t: BtfType): nat {
    HashCombine(HashCombine(HashCombine(0, t.name), InfoWord(t.info.(vlen := 0))), t.size)
  }

  function HashMembers(h: nat, ms: seq<Member>): nat
    decreases |ms|
  {
    if ms == [] then h
    else HashMembers(HashCombine(HashCombine(h, ms[0].name), ms[0].offset), ms[1..])
  }

  function HashParams(h: nat, ps: seq<Param>): nat
    decreases |ps|
  {
    if ps == [] then h
    else HashParams(HashCombine(HashCombine(h, ps[0].name), ps[0].typ), ps[1..])
  }

  /** The signature hash each pass computes for a record of its kinds. */
  function Hash(t: BtfType): nat
    requires WellFormed(t)
  {
    match t.info.kind
    case KInt => HashCombine(HashCommon(t), t.tail.bits)
    case KEnum => HashEnum(t)
    case KStruct => HashMembers(HashCommon(t), t.tail.members)
    case KUnion => HashMembers(HashCommon(t), t.tail.members)
    case KArray =>
      HashCombine(HashCombine(HashCombine(HashCommon(t), t.tail.elem), t.tail.index), t.tail.nelems)
    case KFuncProto => HashParams(HashCommon(t), t.tail.params)
    case _ => HashCommon(t)
  }

  // ---------------------------------------------------------------- comparison

  predicate EqualCommon(t: BtfType, u: BtfType) {
    t.name == u.name && t.info == u.info && t.size == u.size
  }

  predicate EqualInt(t: BtfType, u: BtfType)
    requires WellFormed(t) && WellFormed(u) && t.info.kind == KInt
  {
    EqualCommon(t, u) && t.tail.bits == u.tail.bits
  }

  predicate EqualEnum(t: BtfType, u: BtfType)
    requires WellFormed(t) && WellFormed(u) && t.info.kind == KEnum
  {
    && EqualCommon(t, u)
    && forall i :: 0 <= i < t.info.vlen ==>
         t.tail.enums[i].name == u.tail.enums[i].name && t.tail.enums[i].val == u.tail.enums[i].val
  }

  predicate IsEnumFwd(t: BtfType) {
    t.info.kind == KEnum && t.info.vlen == 0
  }

  predicate CompatEnum(t: BtfType, u: BtfType)
    requires WellFormed(t) && WellFormed(u) && t.info.kind == KEnum
  {
    if !IsEnumFwd(t) && !IsEnumFwd(u) then EqualEnum(t, u)
    else
      && t.name == u.name
      && t.info.kind == u.info.kind && t.info.kflag == u.info.kflag
      && t.size == u.size
  }

  predicate ShallowEqualStruct(t: BtfType, u: BtfType)
    requires WellFormed(t) && WellFormed(u) && IsComposite(t.info.kind)
  {
    && EqualCommon(t, u)
    && forall i :: 0 <= i < t.info.vlen ==>
         t.tail.members[i].name == u.tail.members[i].name && t.tail.members[i].offset == u.tail.members[i].offset
  }

  predicate EqualArray(t: BtfType, u: BtfType)
    requires WellFormed(t) && WellFormed(u) && t.info.kind == KArray
  {
    && EqualCommon(t, u)
    && t.tail.elem == u.tail.elem && t.tail.index == u.tail.index && t.tail.nelems == u.tail.nelems
  }

  predicate CompatArray(t: BtfType, u: BtfType)
    requires WellFormed(t) && WellFormed(u) && t.info.kind == KArray
  {
    EqualCommon(t, u) && t.tail.nelems == u.tail.nelems
  }

  predicate EqualFnproto(t: BtfType, u: BtfType)
    requires WellFormed(t) && WellFormed(u) && t.info.kind == KFuncProto
  {
    && EqualCommon(t, u)
    && forall i :: 0 <= i < t.info.vlen ==>
         t.tail.params[i].name == u.tail.params[i].name && t.tail.params[i].typ == u.tail.params[i].typ
  }

  predicate CompatFnproto(t: BtfType, u: BtfType)
    requires WellFormed(t) && WellFormed(u) && t.info.kind == KFuncProto
  {
    && t.name == u.name && t.info == u.info
    && forall i :: 0 <= i < t.info.vlen ==> t.tail.params[i].name == u.tail.params[i].name
  }

  /** Records that compare as equal or compatible have the same signature hash, so the candidate list
      of one contains the other. */
  lemma ShallowHash(t: BtfType, u: BtfType)
    requires WellFormed(t) && WellFormed(u) && IsComposite(t.info.kind) && ShallowEqualStruct(t, u)
    ensures Hash(t) == Hash(u)
  {
    MembersHash(HashCommon(t), t.tail.members, u.tail.members);
  }

  lemma {:induction false} MembersHash(h: nat, a: seq<Member>, b: seq<Member>)
    requires |a| == |b| && forall i :: 0 <= i < |a| ==> a[i].name == b[i].name && a[i].offset == b[i].offset
    ensures HashMembers(h, a) == HashMembers(h, b)
    decreases |a|
  {
    if a != [] {
      MembersHash(HashCombine(HashCombine(h, a[0].name), a[0].offset), a[1..], b[1..]);
    }
  }

  lemma CompatHash(t: BtfType, u: BtfType)
    requires WellFormed(t) && WellFormed(u) && t.info.kind == KEnum && CompatEnum(t, u)
    ensures Hash(t) == Hash(u)
  {
    assert t.info.(vlen := 0) == u.info.(vlen := 0);
  }

  /** Kinds that the primitive and reference passes compare exactly. */
  predicate ExactKind(k: Kind) {
    k == KInt || k == KEnum || k == KFwd || k == KPtr || k == KTypedef || IsMod(k) || k == KFunc
    || k == KArray || k == KFuncProto
  }

  predicate EqualRecord(t: BtfType, u: BtfType)
    requires WellFormed(t) && WellFormed(u) && ExactKind(t.info.kind)
  {
    match t.info.kind
    case KInt => EqualInt(t, u)
    case KEnum => EqualEnum(t, u)
    case KArray => EqualArray(t, u)
    case KFuncProto => EqualFnproto(t, u)
    case _ => EqualCommon(t, u)
  }

  /** The field-by-field comparisons decide equality of records. */
  lemma EqualRecordIff(t: BtfType, u: BtfType)
    requires WellFormed(t) && WellFormed(u) && ExactKind(t.info.kind)
    ensures EqualRecord(t, u) <==> t == u
  {
    if EqualRecord(t, u) {
      match t.info.kind
      case KEnum => assert t.tail.enums == u.tail.enums;
      case KFuncProto => assert t.tail.params == u.tail.params;
      case _ =>
    }
  }

  predicate FwdMatches(fwd: BtfType, def: BtfType) {
    def.info.kind == if fwd.info.kflag then KUnion else KStruct
  }

  datatype Verdict = Differ | Leaf | Descend | Invalid

  /** The local part of btf_dedup_is_equiv, before any recursion. */
  function Compare(noFwds: bool, cand: BtfType, canon: BtfType): Verdict
    requires WellFormed(cand) && WellFormed(canon)
  {
    var ck, nk := cand.info.kind, canon.info.kind;
    if cand.name != canon.name then Differ
    else if !noFwds && (ck == KFwd || nk == KFwd) && ck != nk then
      if (if ck == KFwd then FwdMatches(cand, canon) else FwdMatches(canon, cand)) then Leaf else Differ
    else if ck != nk then Differ
    else match ck
      case KInt => if EqualInt(cand, canon) then Leaf else Differ
      case KEnum =>
        if (if noFwds then EqualEnum(cand, canon) else CompatEnum(cand, canon)) then Leaf else Differ
      case KFwd => if EqualCommon(cand, canon) then Leaf else Differ
      case KArray => if CompatArray(cand, canon) then Descend else Differ
      case KStruct => if ShallowEqualStruct(cand, canon) then Descend else Differ
      case KUnion => if ShallowEqualStruct(cand, canon) then Descend else Differ
      case KFuncProto => if CompatFnproto(cand, canon) then Descend else Differ
      case KConst => if cand.info == canon.info then Descend else Differ
      case KVolatile => if cand.info == canon.info then Descend else Differ
      case KRestrict => if cand.info == canon.info then Descend else Differ
      case KPtr => if cand.info == canon.info then Descend else Differ
      case KTypedef => if cand.info == canon.info then Descend else Differ
      case KFunc => if cand.info == canon.info then Descend else Differ
      case KUnkn => Invalid
      case KVar => Invalid
      case KDatasec => Invalid
  }

  predicate DescendKind(k: Kind) {
    (ExactKind(k) && k != KInt && k != KEnum && k != KFwd) || IsComposite(k)
  }

  /** The local comparison decides equality of shapes for kinds with checked references, and
      equality of records for the others once FWD resolution is off. */
  lemma CompareMeaning(noFwds: bool, cand: BtfType, canon: BtfType)
    requires WellFormed(cand) && WellFormed(canon)
    ensures Compare(noFwds, cand, canon) == Descend <==> DescendKind(cand.info.kind) && Shape(cand) == Shape(canon)
    ensures Compare(noFwds, cand, canon) == Descend ==>
              |Refs(cand)| == |Refs(canon)| && cand.info == canon.info
    ensures noFwds ==>
              (Compare(noFwds, cand, canon) == Leaf <==>
               ExactKind(cand.info.kind) && !DescendKind(cand.info.kind) && cand == canon)
  {
    if Compare(noFwds, cand, canon) == Descend {
      SameShapeFromFields(cand, canon);
    }
    if DescendKind(cand.info.kind) && Shape(cand) == Shape(canon) {
      SameFieldsFromShape(cand, canon);
    }
    if ExactKind(cand.info.kind) {
      EqualRecordIff(cand, canon);
    }
  }

  lemma SameShapeFromFields(cand: BtfType, canon: BtfType)
    requires WellFormed(cand) && WellFormed(canon) && cand.info.kind == canon.info.kind
    requires Compare(true, cand, canon) == Descend
    ensures Shape(cand) == Shape(canon) && |Refs(cand)| == |Refs(canon)|
  {
    var s, u := Shape(cand), Shape(canon);
    match cand.info.kind
    case KStruct => assert s.tail.members == u.tail.members;
    case KUnion => assert s.tail.members == u.tail.members;
    case KFuncProto => assert s.tail.params == u.tail.params;
    case _ =>
  }

  /** What a shape keeps of the header. */
  lemma ShapeHeader(t: BtfType)
    requires WellFormed(t)
    ensures Shape(t).name == t.name && Shape(t).info == t.info
    ensures !HasTypeWord(t.info.kind) && t.info.kind != KFuncProto ==> Shape(t).size == t.size
    ensures t.info.kind == KArray ==> Shape(t).tail.ArrayOf? && Shape(t).tail.nelems == t.tail.nelems
  {
  }

  lemma SameMembers(cand: BtfType, canon: BtfType)
    requires WellFormed(cand) && WellFormed(canon) && IsComposite(cand.info.kind) && Shape(cand) == Shape(canon)
    ensures ShallowEqualStruct(cand, canon)
  {
    ShapeHeader(cand);
    ShapeHeader(canon);
    var s, u := Shape(cand), Shape(canon);
    assert forall i :: 0 <= i < cand.info.vlen ==>
      cand.tail.members[i].(typ := 0) == s.tail.members[i] && canon.tail.members[i].(typ := 0) == u.tail.members[i];
  }

  lemma SameParams(cand: BtfType, canon: BtfType)
    requires WellFormed(cand) && WellFormed(canon) && cand.info.kind == KFuncProto && Shape(cand) == Shape(canon)
    ensures CompatFnproto(cand, canon)
  {
    ShapeHeader(cand);
    ShapeHeader(canon);
    var s, u := Shape(cand), Shape(canon);
    assert forall i :: 0 <= i < cand.info.vlen ==>
      cand.tail.params[i].(typ := 0) == s.tail.params[i] && canon.tail.params[i].(typ := 0) == u.tail.params[i];
  }

  lemma SameFieldsFromShape(cand: BtfType, canon: BtfType)
    requires WellFormed(cand) && WellFormed(canon) && DescendKind(cand.info.kind)
    requires Shape(cand) == Shape(canon)
    ensures Compare(true, cand, canon) == Compare(false, cand, canon) == Descend
  {
    hide Shape, ShallowEqualStruct, CompatFnproto;
    ShapeHeader(cand);
    ShapeHeader(canon);
    if IsComposite(cand.info.kind) {
      SameMembers(cand, canon);
    } else if cand.info.kind == KFuncProto {
      SameParams(cand, canon);
    }
  }

  // ---------------------------------------------------------------- the verdicts by kind

  /** One record answers for the other without a look at what they refer to: equal INT, FWD or ENUM
      records, or with FWD resolution on a FWD and the composite it announces, or an enum and a
      forward declaration of it. */
  predicate AnswersFor(noFwds: bool, t: BtfType, u: BtfType) {
    && t.name == u.name
    && (|| (t.info.kind in {KInt, KFwd, KEnum} && t == u)
        || (!noFwds && Announces(t, u))
        || (!noFwds && Announces(u, t))
        || (!noFwds && t.info.kind == KEnum && u.info.kind == KEnum && (t.info.vlen == 0 || u.info.vlen == 0)
            && t.info.kflag == u.info.kflag && t.size == u.size))
  }

  /** A FWD with kflag set announces a union, one without a struct. */
  predicate Announces(fwd: BtfType, def: BtfType) {
    fwd.info.kind == KFwd && def.info.kind == (if fwd.info.kflag then KUnion else KStruct)
  }

  /** All four verdicts, in kinds and fields. */
  lemma VerdictIff(noFwds: bool, cand: BtfType, canon: BtfType)
    requires WellFormed(cand) && WellFormed(canon)
    ensures Compare(noFwds, cand, canon) == Leaf <==> AnswersFor(noFwds, cand, canon)
    ensures Compare(noFwds, cand, canon) == Descend <==>
            && cand.info.kind !in {KUnkn, KInt, KEnum, KFwd, KVar, KDatasec}
            && SameFields((a, b) => a == b, cand, canon)
    ensures Compare(noFwds, cand, canon) == Invalid <==>
            cand.name == canon.name && cand.info.kind == canon.info.kind && cand.info.kind in {KUnkn, KVar, KDatasec}
  {
    hide SameFields;
    if DescendKind(cand.info.kind) {
      ShapeIff(cand, canon);
      CompareMeaning(noFwds, cand, canon);
    } else {
      hide Shape, Refs;
      if cand.info.kind == canon.info.kind == KEnum {
        EqualRecordIff(cand, canon);
      }
    }
  }

  /** With FWD resolution on, a FWD and a struct or union are equivalent exactly when the names agree
      and the kind is the announced one, whichever of the two is the candidate; nothing else but an
      equal FWD is equivalent to a FWD. */
  lemma FwdVerdict(fwd: BtfType, other: BtfType)
    requires WellFormed(fwd) && WellFormed(other) && fwd.info.kind == KFwd
    ensures other.info.kind == KStruct ==>
              (Compare(false, fwd, other) == Leaf <==> fwd.name == other.name && !fwd.info.kflag)
    ensures other.info.kind == KUnion ==>
              (Compare(false, fwd, other) == Leaf <==> fwd.name == other.name && fwd.info.kflag)
    ensures other.info.kind !in {KStruct, KUnion} ==> (Compare(false, fwd, other) == Leaf <==> fwd == other)
    ensures Compare(false, other, fwd) == Compare(false, fwd, other) != Descend
    ensures Compare(true, fwd, other) == Leaf <==> fwd == other
  {
    hide Shape, Refs;
  }

  /** With FWD resolution on, an enum and a forward declaration of an enum are equivalent exactly when
      name, kflag and size agree; two full enums when they are equal. */
  lemma EnumVerdict(t: BtfType, u: BtfType)
    requires WellFormed(t) && WellFormed(u) && t.info.kind == KEnum && u.info.kind == KEnum
    ensures t.info.vlen == 0 || u.info.vlen == 0 ==>
              (Compare(false, t, u) == Leaf <==>
               t.name == u.name && t.info.kflag == u.info.kflag && t.size == u.size)
    ensures t.info.vlen != 0 && u.info.vlen != 0 ==> (Compare(false, t, u) == Leaf <==> t == u)
    ensures Compare(true, t, u) == Leaf <==> t == u
    ensures Compare(false, t, u) in {Leaf, Differ} && Compare(true, t, u) in {Leaf, Differ}
  {
    hide Shape, Refs;
    EqualRecordIff(t, u);
  }
}
