/** BTF records compared field by field, kind by kind, across two tables and two string sections.

    The predicates use neither `Refs` nor `Shape` nor a list of names; those functions are checked
    against them. */
module Fields {
  import opened Btf

  /** The string at offset a of d is the string at offset b of out: the same characters up to a NUL. */
  ghost predicate SameName(d: seq<char>, a: nat, out: seq<char>, b: nat) {
    exists n: nat :: SameText(d, a, out, b, n)
  }

  ghost predicate SameText(d: seq<char>, a: nat, out: seq<char>, b: nat, n: nat) {
    && a + n < |d| && b + n < |out|
    && d[a + n] == '\0' && out[b + n] == '\0' && '\0' !in d[a..a + n]
    && d[a..a + n] == out[b..b + n]
  }

  /** Offsets compared as the strings they name. */
  ghost function NamesAlike(d: seq<char>, out: seq<char>): (nat, nat) -> bool {
    (a: nat, b: nat) => SameName(d, a, out, b)
  }

  /** The offset is where a string of the section starts. */
  predicate AtStart(d: seq<char>, off: nat) {
    off < |d| && (off == 0 || d[off - 1] == '\0')
  }

  /** The offset names the record, or one of its enumerators, members or parameters. */
  ghost predicate HasName(t: BtfType, off: nat) {
    || off == t.name
    || (t.tail.Enums? && exists k :: 0 <= k < |t.tail.enums| && t.tail.enums[k].name == off)
    || (t.tail.Members? && exists k :: 0 <= k < |t.tail.members| && t.tail.members[k].name == off)
    || (t.tail.Params? && exists k :: 0 <= k < |t.tail.params| && t.tail.params[k].name == off)
  }

  /** Kinds whose size word is a type id. */
  predicate WordIsType(k: Kind) {
    k in {KPtr, KTypedef, KVolatile, KConst, KRestrict, KFunc, KFuncProto, KVar}
  }

  /** Two records say the same besides the type ids in them, with `same` comparing their names. */
  ghost predicate SameFields(same: (nat, nat) -> bool, t: BtfType, u: BtfType) {
    && u.info == t.info
    && same(t.name, u.name)
    && (!WordIsType(t.info.kind) ==> u.size == t.size)
    && SameTail(same, t.tail, u.tail)
  }

  ghost predicate SameTail(same: (nat, nat) -> bool, t: Tail, u: Tail) {
    match t
    case NoTail => u == NoTail
    case IntBits(bits) => u == IntBits(bits)
    case ArrayOf(_, _, nelems) => u.ArrayOf? && u.nelems == nelems
    case Linkage(linkage) => u == Linkage(linkage)
    case Enums(es) =>
      && u.Enums? && |u.enums| == |es|
      && forall k :: 0 <= k < |es| ==> same(es[k].name, u.enums[k].name) && u.enums[k].val == es[k].val
    case Members(ms) =>
      && u.Members? && |u.members| == |ms|
      && forall k :: 0 <= k < |ms| ==> same(ms[k].name, u.members[k].name) && u.members[k].offset == ms[k].offset
    case Params(ps) =>
      && u.Params? && |u.params| == |ps|
      && forall k :: 0 <= k < |ps| ==> same(ps[k].name, u.params[k].name)
    case SecVars(vs) =>
      && u.SecVars? && |u.vars| == |vs|
      && forall k :: 0 <= k < |vs| ==> u.vars[k].offset == vs[k].offset && u.vars[k].size == vs[k].size
  }

  /** The ids that stand at the same place of two records. */
  ghost predicate Paired(t: BtfType, u: BtfType, x: nat, y: nat) {
    || (WordIsType(t.info.kind) && x == t.size && y == u.size)
    || (t.tail.ArrayOf? && u.tail.ArrayOf?
        && ((x == t.tail.elem && y == u.tail.elem) || (x == t.tail.index && y == u.tail.index)))
    || (t.tail.Members? && u.tail.Members?
        && exists k :: 0 <= k < |t.tail.members| && k < |u.tail.members|
             && t.tail.members[k].typ == x && u.tail.members[k].typ == y)
    || (t.tail.Params? && u.tail.Params?
        && exists k :: 0 <= k < |t.tail.params| && k < |u.tail.params|
             && t.tail.params[k].typ == x && u.tail.params[k].typ == y)
    || (t.tail.SecVars? && u.tail.SecVars?
        && exists k :: 0 <= k < |t.tail.vars| && k < |u.tail.vars|
             && t.tail.vars[k].typ == x && u.tail.vars[k].typ == y)
  }

  /** Id i of one table says what id j of another says, followed to depth n. */
  ghost predicate Agree(same: (nat, nat) -> bool, T: seq<BtfType>, i: nat, U: seq<BtfType>, j: nat, n: nat)
    decreases n
  {
    && i < |T| && j < |U|
    && (n > 0 ==>
          && SameFields(same, T[i], U[j])
          && forall x: nat, y: nat :: Paired(T[i], U[j], x, y) ==> Agree(same, T, x, U, y, n - 1))
  }

  /** Record u may stand for record t: equal up to the type ids in them, except that a FWD may become
      the struct or union it announces, an enum without values one of its name, kflag and size, and a
      struct or union another one of its name. */
  ghost predicate StandsIn(same: (nat, nat) -> bool, t: BtfType, u: BtfType) {
    && same(t.name, u.name)
    && match t.info.kind
       case KStruct => u.info.kind == KStruct
       case KUnion => u.info.kind == KUnion
       case KFwd => SameFields(same, t, u) || u.info.kind == (if t.info.kflag then KUnion else KStruct)
       case KEnum =>
         || SameFields(same, t, u)
         || (t.info.vlen == 0 && u.info.kind == KEnum && u.info.kflag == t.info.kflag && u.size == t.size)
       case _ => SameFields(same, t, u)
  }

  // ---------------------------------------------------------------- Refs and Shape by fields

  /** The references of two records of one form, place by place. */
  lemma PairedIff(t: BtfType, u: BtfType, x: nat, y: nat)
    requires WellFormed(t) && WellFormed(u) && t.info == u.info
    ensures |Refs(t)| == |Refs(u)|
    ensures Paired(t, u, x, y) <==> exists k :: 0 <= k < |Refs(t)| && Refs(t)[k] == x && Refs(u)[k] == y
  {
    if Paired(t, u, x, y) {
      var k := PlaceOf(t, u, x, y);
    }
    if k :| 0 <= k < |Refs(t)| && Refs(t)[k] == x && Refs(u)[k] == y {
      AtPlace(t, u, k);
    }
  }

  lemma PlaceOf(t: BtfType, u: BtfType, x: nat, y: nat) returns (k: nat)
    requires WellFormed(t) && WellFormed(u) && t.info == u.info && Paired(t, u, x, y)
    ensures k < |Refs(t)| == |Refs(u)| && Refs(t)[k] == x && Refs(u)[k] == y
  {
    if WordIsType(t.info.kind) && x == t.size && y == u.size {
      k := 0;
    } else if t.tail.ArrayOf? {
      k := if x == t.tail.elem && y == u.tail.elem then 0 else 1;
    } else if t.tail.Members? {
      k :| 0 <= k < |t.tail.members| && t.tail.members[k].typ == x && u.tail.members[k].typ == y;
    } else if t.tail.SecVars? {
      k :| 0 <= k < |t.tail.vars| && t.tail.vars[k].typ == x && u.tail.vars[k].typ == y;
    } else {
      k :| 0 <= k < |t.tail.params| && t.tail.params[k].typ == x && u.tail.params[k].typ == y;
      k := k + 1;
    }
  }

  lemma AtPlace(t: BtfType, u: BtfType, k: nat)
    requires WellFormed(t) && WellFormed(u) && t.info == u.info && k < |Refs(t)|
    ensures k < |Refs(u)| && Paired(t, u, Refs(t)[k], Refs(u)[k])
  {
    match t.info.kind
    case KStruct => assert t.tail.members[k].typ == Refs(t)[k] && u.tail.members[k].typ == Refs(u)[k];
    case KUnion => assert t.tail.members[k].typ == Refs(t)[k] && u.tail.members[k].typ == Refs(u)[k];
    case KDatasec => assert t.tail.vars[k].typ == Refs(t)[k] && u.tail.vars[k].typ == Refs(u)[k];
    case KFuncProto =>
      if k > 0 {
        assert t.tail.params[k - 1].typ == Refs(t)[k] && u.tail.params[k - 1].typ == Refs(u)[k];
      }
    case _ =>
  }

  /** Shapes are equal exactly when all fields but the type ids are. */
  lemma ShapeIff(t: BtfType, u: BtfType)
    requires WellFormed(t) && WellFormed(u)
    ensures Shape(t) == Shape(u) <==> SameFields((a, b) => a == b, t, u)
  {
    if Shape(t) == Shape(u) {
      FieldsOfShape(t, u);
    }
    if SameFields((a, b) => a == b, t, u) {
      ShapeOfFields(t, u);
    }
  }

  lemma FieldsOfShape(t: BtfType, u: BtfType)
    requires WellFormed(t) && WellFormed(u) && Shape(t) == Shape(u)
    ensures SameFields((a, b) => a == b, t, u)
  {
    ShapeKeeps(t);
    ShapeKeeps(u);
    TailOfShape(t);
    TailOfShape(u);
    hide Refs, Shape;
  }

  /** What the shape keeps of the word and of the tail. */
  lemma TailOfShape(t: BtfType)
    requires WellFormed(t)
    ensures !WordIsType(t.info.kind) ==> Shape(t).size == t.size
    ensures SameTail((a, b) => a == b, t.tail, Shape(t).tail)
  {
    hide Refs;
  }

  lemma ShapeOfFields(t: BtfType, u: BtfType)
    requires WellFormed(t) && WellFormed(u) && SameFields((a, b) => a == b, t, u)
    ensures Shape(t) == Shape(u)
  {
    var s, v := Shape(t), Shape(u);
    match t.info.kind
    case KStruct => assert s.tail.members == v.tail.members;
    case KUnion => assert s.tail.members == v.tail.members;
    case KFuncProto => assert s.tail.params == v.tail.params;
    case KDatasec => assert s.tail.vars == v.tail.vars;
    case KEnum => assert t.tail.enums == u.tail.enums;
    case _ =>
  }

  /** Unfolding alike to depth n is agreeing in all fields to depth n. */
  lemma {:induction false} UnfoldIff(T: seq<BtfType>, i: nat, U: seq<BtfType>, j: nat, n: nat)
    requires Graph(T) && Graph(U) && i < |T| && j < |U|
    ensures Unfold(T, i, n) == Unfold(U, j, n) <==> Agree((a, b) => a == b, T, i, U, j, n)
    decreases n
  {
    hide Shape, Refs, Paired, SameFields;
    if n > 0 {
      InTable(T, i);
      InTable(U, j);
      ShapeIff(T[i], U[j]);
      if Shape(T[i]) == Shape(U[j]) {
        ShapeAndRefs(T[i], U[j]);
        KidsIff(T, i, U, j, n);
      }
    }
  }

  lemma InTable(T: seq<BtfType>, i: nat)
    requires Graph(T) && i < |T|
    ensures WellFormed(T[i]) && forall k :: 0 <= k < |Refs(T[i])| ==> Refs(T[i])[k] < |T|
  {
  }

  lemma {:induction false} KidsIff(T: seq<BtfType>, i: nat, U: seq<BtfType>, j: nat, n: nat)
    requires Graph(T) && Graph(U) && i < |T| && j < |U| && n > 0
    requires Shape(T[i]) == Shape(U[j]) && T[i].info == U[j].info && |Refs(T[i])| == |Refs(U[j])|
    ensures Unfold(T, i, n) == Unfold(U, j, n) <==>
            forall x: nat, y: nat :: Paired(T[i], U[j], x, y) ==> Agree((a, b) => a == b, T, x, U, y, n - 1)
    decreases n, 0
  {
    hide Shape, Refs, Paired, SameFields, Agree;
    InTable(T, i);
    InTable(U, j);
    var rs, qs := Refs(T[i]), Refs(U[j]);
    forall k | 0 <= k < |rs|
      ensures Unfold(T, rs[k], n - 1) == Unfold(U, qs[k], n - 1) <==>
              Agree((a, b) => a == b, T, rs[k], U, qs[k], n - 1)
      ensures Paired(T[i], U[j], rs[k], qs[k])
    {
      UnfoldIff(T, rs[k], U, qs[k], n - 1);
      PairedIff(T[i], U[j], rs[k], qs[k]);
    }
    forall x: nat, y: nat | Paired(T[i], U[j], x, y)
      ensures exists k :: 0 <= k < |rs| && rs[k] == x && qs[k] == y
    {
      PairedIff(T[i], U[j], x, y);
    }
    assert Unfold(T, i, n) == Unfold(U, j, n) <==>
      forall k :: 0 <= k < |rs| ==> Unfold(T, rs[k], n - 1) == Unfold(U, qs[k], n - 1) by {
      NodesIff(T, i, U, j, n);
    }
  }

  lemma NodesIff(T: seq<BtfType>, i: nat, U: seq<BtfType>, j: nat, n: nat)
    requires Graph(T) && Graph(U) && i < |T| && j < |U| && n > 0
    requires Shape(T[i]) == Shape(U[j]) && |Refs(T[i])| == |Refs(U[j])|
    ensures Unfold(T, i, n) == Unfold(U, j, n) <==>
            forall k :: 0 <= k < |Refs(T[i])| ==> Unfold(T, Refs(T[i])[k], n - 1) == Unfold(U, Refs(U[j])[k], n - 1)
  {
    hide Shape, Refs;
    InTable(T, i);
    InTable(U, j);
    var a, b := Unfold(T, i, n).kids, Unfold(U, j, n).kids;
    if a == b {
      forall k | 0 <= k < |Refs(T[i])|
        ensures Unfold(T, Refs(T[i])[k], n - 1) == Unfold(U, Refs(U[j])[k], n - 1)
      {
        assert a[k] == b[k];
      }
    }
  }

  // ---------------------------------------------------------------- renaming

  /** Agreement passes through a table that differs from the first in its names only. */
  lemma {:induction false} AgreeRenamed(same: (nat, nat) -> bool, T: seq<BtfType>, V: seq<BtfType>, i: nat,
                                        U: seq<BtfType>, j: nat, n: nat)
    requires |T| == |V| && forall k :: 0 <= k < |T| ==> Renamed(same, T[k], V[k])
    requires Agree((a, b) => a == b, V, i, U, j, n)
    ensures Agree(same, T, i, U, j, n)
    decreases n
  {
    hide SameFields, Paired, Renamed;
    if n > 0 {
      FieldsThrough(same, T[i], V[i], U[j]);
      forall x: nat, y: nat | Paired(T[i], U[j], x, y)
        ensures Agree(same, T, x, U, y, n - 1)
      {
        PairedThrough(same, T[i], V[i], U[j], x, y);
        AgreeRenamed(same, T, V, x, U, y, n - 1);
      }
    }
  }

  /** The records differ in their names only, and those are the same by `same`. */
  ghost predicate Renamed(same: (nat, nat) -> bool, t: BtfType, v: BtfType) {
    && SameFields(same, t, v) && v.size == t.size
    && (t.tail.ArrayOf? ==> t.tail == v.tail)
    && (t.tail.SecVars? ==> t.tail == v.tail)
    && (t.tail.Members? ==> forall k :: 0 <= k < |t.tail.members| ==> v.tail.members[k].typ == t.tail.members[k].typ)
    && (t.tail.Params? ==> forall k :: 0 <= k < |t.tail.params| ==> v.tail.params[k].typ == t.tail.params[k].typ)
  }

  lemma FieldsThrough(same: (nat, nat) -> bool, t: BtfType, v: BtfType, u: BtfType)
    requires Renamed(same, t, v) && SameFields((a, b) => a == b, v, u)
    ensures SameFields(same, t, u)
  {
  }

  lemma PairedThrough(same: (nat, nat) -> bool, t: BtfType, v: BtfType, u: BtfType, x: nat, y: nat)
    requires Renamed(same, t, v) && Paired(t, u, x, y)
    ensures Paired(v, u, x, y)
  {
    if t.tail.Members? && u.tail.Members? {
      if k :| 0 <= k < |t.tail.members| && k < |u.tail.members|
            && t.tail.members[k].typ == x && u.tail.members[k].typ == y {
        assert v.tail.members[k].typ == x;
      }
    }
    if t.tail.Params? && u.tail.Params? {
      if k :| 0 <= k < |t.tail.params| && k < |u.tail.params|
            && t.tail.params[k].typ == x && u.tail.params[k].typ == y {
        assert v.tail.params[k].typ == x;
      }
    }
  }

  lemma StandsThrough(same: (nat, nat) -> bool, t: BtfType, v: BtfType, u: BtfType)
    requires Renamed(same, t, v) && StandsIn((a, b) => a == b, v, u)
    ensures StandsIn(same, t, u)
  {
    if SameFields((a, b) => a == b, v, u) {
      FieldsThrough(same, t, v, u);
    }
  }

  lemma StandsForItself(t: BtfType)
    ensures StandsIn((a, b) => a == b, t, t)
  {
  }

  lemma {:induction false} StandsTrans(t: BtfType, v: BtfType, u: BtfType)
    requires StandsIn((a, b) => a == b, t, v) && StandsIn((a, b) => a == b, v, u)
    ensures StandsIn((a, b) => a == b, t, u)
  {
    if SameFields((a, b) => a == b, t, v) && SameFields((a, b) => a == b, v, u) {
      SameFieldsTrans(t, v, u);
    }
    hide SameTail;
  }

  lemma SameFieldsTrans(t: BtfType, v: BtfType, u: BtfType)
    requires SameFields((a, b) => a == b, t, v) && SameFields((a, b) => a == b, v, u)
    ensures SameFields((a, b) => a == b, t, u)
  {
  }
}
