/** Size of a type through modifiers, typedefs and arrays (lib/libbpf/src/btf.c:222-280). */
module ResolveSize {
  import opened Btf

  const MAX_RESOLVE_DEPTH: nat := 32
  const UINT32_MAX: nat := 0xffff_ffff
  const ADDRESS_SIZE: nat := 8
  const EINVAL: int := -22
  const E2BIG: int := -7

  /** Where a chain of types ends: at a type with a size, or nowhere. */
  datatype End = Sized(size: nat) | Dead

  /** The array dimensions met on the way from a type to the end of its chain. */
  datatype Walk = Walk(dims: seq<nat>, end: End)

  predicate Records(T: seq<BtfType>) {
    |T| > 0 && T[0] == VOID && forall i :: 0 <= i < |T| ==> WellFormed(T[i])
  }

  predicate HasSize(k: Kind) { k == KInt || k == KStruct || k == KUnion || k == KEnum || k == KDatasec }
  predicate PassesOn(k: Kind) { k == KTypedef || IsMod(k) || k == KVar }

  /** At most `steps` types are looked at. */
  function WalkFrom(T: seq<BtfType>, id: nat, steps: nat): Walk
    requires Records(T)
    decreases steps
  {
    if steps == 0 || id >= |T| || id == 0 then Walk([], Dead)
    else
      var t := T[id];
      var k := t.info.kind;
      if HasSize(k) then Walk([], Sized(t.size))
      else if k == KPtr then Walk([], Sized(ADDRESS_SIZE))
      else if PassesOn(k) then WalkFrom(T, t.size, steps - 1)
      else if k == KArray then
        var w := WalkFrom(T, t.tail.elem, steps - 1);
        Walk([t.tail.nelems] + w.dims, w.end)
      else Walk([], Dead)
  }

  function Product(s: seq<nat>): nat {
    if s == [] then 1 else Product(s[..|s| - 1]) * s[|s| - 1]
  }

  ghost predicate Fits(s: seq<nat>) {
    forall k :: 0 <= k <= |s| ==> Product(s[..k]) <= UINT32_MAX
  }

  /** The exact result: the product of all dimensions and the base size, when neither it nor the product
      of any leading dimensions is above the limit. */
  ghost function SizeOf(T: seq<BtfType>, id: nat): int
    requires Records(T)
  {
    var w := WalkFrom(T, id, MAX_RESOLVE_DEPTH);
    if !Fits(w.dims) then E2BIG
    else if w.end.Dead? then EINVAL
    else if Product(w.dims) * w.end.size > UINT32_MAX then E2BIG
    else Product(w.dims) * w.end.size
  }

  lemma Scaled(b: nat, x: nat, y: nat)
    requires x <= y
    ensures b * x <= b * y
  {
  }

  /** The division test of the code is the overflow test on the product. */
  lemma DivTest(a: nat, b: nat, m: nat)
    requires b > 0
    ensures a > m / b <==> b * a > m
  {
    var q, r := m / b, m % b;
    assert m == b * q + r && r < b;
    if a > q {
      Scaled(b, q + 1, a);
      assert b * (q + 1) == b * q + b;
    } else {
      Scaled(b, a, q);
    }
  }

  lemma FitsPush(s: seq<nat>, n: nat)
    requires Fits(s)
    ensures Product(s + [n]) == Product(s) * n
    ensures Fits(s + [n]) <==> Product(s) * n <= UINT32_MAX
  {
    var t := s + [n];
    assert t[..|s|] == s && t[|s|] == n && t[..|t|] == t;
    assert Product(t) == Product(s) * n;
    hide Product;
    forall k | 0 <= k <= |s|
      ensures t[..k] == s[..k]
    {
    }
    assert Fits(t) ==> Product(t[..|t|]) <= UINT32_MAX;
    if Product(t) <= UINT32_MAX {
      forall k | 0 <= k <= |t|
        ensures Product(t[..k]) <= UINT32_MAX
      {
        assert k <= |s| ==> t[..k] == s[..k];
      }
    }
  }

  lemma FitsPrefix(s: seq<nat>, t: seq<nat>)
    requires Fits(s + t)
    ensures Fits(s)
  {
    forall k | 0 <= k <= |s|
      ensures Product(s[..k]) <= UINT32_MAX
    {
      assert (s + t)[..k] == s[..k];
    }
  }

  /** `all` is the walk that passed the dimensions `seen` and has `here` before it. */
  predicate Continues(all: Walk, seen: seq<nat>, here: Walk) {
    all.dims == seen + here.dims && all.end == here.end
  }

  /** What each kind contributes to the size: INT, STRUCT, UNION, ENUM and DATASEC have their own, a pointer has
      8 bytes, typedefs, modifiers and variables pass on, an array multiplies, the rest has none. */
  lemma SizeByKind(T: seq<BtfType>, id: nat, steps: nat)
    requires Records(T) && steps > 0 && 0 < id < |T|
    ensures var w, t := WalkFrom(T, id, steps), T[id];
            match t.info.kind
            case KInt => w == Walk([], Sized(t.size))
            case KStruct => w == Walk([], Sized(t.size))
            case KUnion => w == Walk([], Sized(t.size))
            case KEnum => w == Walk([], Sized(t.size))
            case KDatasec => w == Walk([], Sized(t.size))
            case KPtr => w == Walk([], Sized(8))
            case KTypedef => w == WalkFrom(T, t.size, steps - 1)
            case KVolatile => w == WalkFrom(T, t.size, steps - 1)
            case KConst => w == WalkFrom(T, t.size, steps - 1)
            case KRestrict => w == WalkFrom(T, t.size, steps - 1)
            case KVar => w == WalkFrom(T, t.size, steps - 1)
            case KArray =>
              t.tail.ArrayOf? &&
              var inner := WalkFrom(T, t.tail.elem, steps - 1); w == Walk([t.tail.nelems] + inner.dims, inner.end)
            case _ => w == Walk([], Dead)
  {
  }

  /** The whole size, kind by kind, while the chain is no longer than 32 types. */
  lemma SizeOfKind(T: seq<BtfType>, id: nat)
    requires Records(T) && 0 < id < |T|
    ensures var t := T[id];
            && (t.info.kind in {KInt, KStruct, KUnion, KEnum, KDatasec} ==>
                  SizeOf(T, id) == if t.size > 0xffff_ffff then -7 else t.size)
            && (t.info.kind == KPtr ==> SizeOf(T, id) == 8)
            && (t.info.kind in {KTypedef, KVolatile, KConst, KRestrict, KVar} && WalkFrom(T, t.size, 31).end.Sized? ==>
                  SizeOf(T, id) == SizeOf(T, t.size))
            && (t.info.kind in {KFwd, KFunc, KFuncProto, KUnkn} ==> SizeOf(T, id) == -22)
  {
    hide WalkFrom, WellFormed, Product;
    NoDims();
    SizeByKind(T, id, 32);
    var t := T[id];
    if t.info.kind in {KTypedef, KVolatile, KConst, KRestrict, KVar} && WalkFrom(T, t.size, 31).end.Sized? {
      MoreSteps(T, t.size, 31, 32);
    }
  }

  lemma WalkNowhere(T: seq<BtfType>, id: nat, steps: nat)
    requires Records(T) && (steps == 0 || id >= |T| || id == 0 || T[id].info.kind == KFwd)
    ensures WalkFrom(T, id, steps) == Walk([], Dead)
  {
  }

  lemma OneMoreDim(all: Walk, seen: seq<nat>, n: nat, here: Walk)
    requires Continues(all, seen, Walk([n] + here.dims, here.end)) && Fits(seen)
    ensures Continues(all, seen + [n], here) && Product(seen + [n]) == Product(seen) * n
    ensures Fits(seen + [n]) <==> Product(seen) * n <= UINT32_MAX
    ensures Fits(all.dims) ==> Fits(seen + [n])
  {
    FitsPush(seen, n);
    assert seen + ([n] + here.dims) == (seen + [n]) + here.dims;
    if Fits(all.dims) {
      FitsPrefix(seen + [n], here.dims);
    }
  }

  /** The result once the chain has ended. */
  lemma Finish(T: seq<BtfType>, id: nat, seen: seq<nat>, end: End)
    requires Records(T) && Continues(WalkFrom(T, id, MAX_RESOLVE_DEPTH), seen, Walk([], end)) && Fits(seen)
    ensures SizeOf(T, id) == if end.Dead? then EINVAL
                             else if Product(seen) * end.size > UINT32_MAX then E2BIG else Product(seen) * end.size
  {
    assert seen + [] == seen;
  }

  /** btf__resolve_size */
  method Resolve(T: seq<BtfType>, typeId: nat) returns (r: int)
    requires Records(T)
    ensures r == SizeOf(T, typeId)
  {
    hide WalkFrom, Fits, Product, WellFormed;
    var nelems: nat, size: int, id: nat, i: nat := 1, -1, typeId, 0;
    ghost var seen: seq<nat> := [];
    ghost var all := WalkFrom(T, typeId, MAX_RESOLVE_DEPTH);
    NoDims();
    while i < MAX_RESOLVE_DEPTH && id < |T| && id != 0 && T[id].info.kind != KFwd
      invariant i <= MAX_RESOLVE_DEPTH && size == -1
      invariant Continues(all, seen, WalkFrom(T, id, MAX_RESOLVE_DEPTH - i))
      invariant nelems == Product(seen) && Fits(seen)
      decreases MAX_RESOLVE_DEPTH - i
    {
      var t := T[id];
      var k := t.info.kind;
      SizeByKind(T, id, MAX_RESOLVE_DEPTH - i);
      if HasSize(k) || k == KPtr {
        size := if k == KPtr then ADDRESS_SIZE else t.size;
        break;
      } else if PassesOn(k) {
        id := t.size;
      } else if k == KArray {
        assert t.tail.ArrayOf? by {
          ArrayTail(T, id);
        }
        var n := t.tail.nelems;
        OneMoreDim(all, seen, n, WalkFrom(T, t.tail.elem, MAX_RESOLVE_DEPTH - i - 1));
        if nelems > 0 {
          DivTest(n, nelems, UINT32_MAX);
        }
        if nelems > 0 && n > UINT32_MAX / nelems {
          return E2BIG;
        }
        nelems := nelems * n;
        seen := seen + [n];
        id := t.tail.elem;
      } else {
        Finish(T, typeId, seen, Dead);
        return EINVAL;
      }
      i := i + 1;
    }
    if size < 0 {
      WalkNowhere(T, id, MAX_RESOLVE_DEPTH - i);
      Finish(T, typeId, seen, Dead);
      return EINVAL;
    }
    Finish(T, typeId, seen, Sized(size));
    if nelems > 0 {
      DivTest(size, nelems, UINT32_MAX);
    }
    if nelems > 0 && size > UINT32_MAX / nelems {
      return E2BIG;
    }
    return nelems * size;
  }

  lemma NoDims()
    ensures Product([]) == 1 && Fits([])
  {
  }

  lemma WalkPasses(T: seq<BtfType>, id: nat, steps: nat)
    requires Records(T) && steps > 0 && 0 < id < |T| && PassesOn(T[id].info.kind)
    ensures WalkFrom(T, id, steps) == WalkFrom(T, T[id].size, steps - 1)
  {
  }

  lemma WalkArray(T: seq<BtfType>, id: nat, steps: nat)
    requires Records(T) && steps > 0 && 0 < id < |T| && T[id].info.kind == KArray
    ensures T[id].tail.ArrayOf?
    ensures var w := WalkFrom(T, T[id].tail.elem, steps - 1);
            WalkFrom(T, id, steps) == Walk([T[id].tail.nelems] + w.dims, w.end)
  {
  }

  lemma WalkEnds(T: seq<BtfType>, id: nat, steps: nat, more: nat)
    requires Records(T) && 0 < steps <= more && 0 < id < |T| && !PassesOn(T[id].info.kind) && T[id].info.kind != KArray
    ensures WalkFrom(T, id, steps) == WalkFrom(T, id, more)
  {
  }

  lemma ArrayTail(T: seq<BtfType>, id: nat)
    requires Records(T) && id < |T| && T[id].info.kind == KArray
    ensures T[id].tail.ArrayOf?
  {
  }

  /** A non-negative result is the true size, in 32 bits; a failed resolution is negative. */
  lemma SizeIsExact(T: seq<BtfType>, id: nat)
    requires Records(T)
    ensures var w := WalkFrom(T, id, MAX_RESOLVE_DEPTH);
            SizeOf(T, id) >= 0 <==> w.end.Sized? && Fits(w.dims) && Product(w.dims) * w.end.size <= UINT32_MAX
    ensures SizeOf(T, id) <= UINT32_MAX
  {
    hide WalkFrom, Fits, Product;
    var w := WalkFrom(T, id, MAX_RESOLVE_DEPTH);
    if w.end.Sized? {
      assert Product(w.dims) * w.end.size >= 0;
    }
  }

  /** So 32 of them make a type without a size. */
  lemma NoSizeBeyond(T: seq<BtfType>, path: seq<nat>)
    requires Records(T) && |path| == 32
    requires forall k :: 0 <= k < |path| ==> 0 < path[k] < |T|
    requires forall k :: 0 <= k < |path| ==>
               T[path[k]].info.kind in {KTypedef, KVolatile, KConst, KRestrict, KVar, KArray}
    requires forall k :: 0 <= k < |path| - 1 ==>
               path[k + 1] == if T[path[k]].info.kind == KArray then T[path[k]].tail.elem else T[path[k]].size
    ensures SizeOf(T, path[0]) == -22 || SizeOf(T, path[0]) == -7
  {
    hide WalkFrom, Fits, Product, WellFormed;
    TooDeep(T, path, 32);
  }

  lemma SizedStart(T: seq<BtfType>, id: nat, steps: nat)
    requires Records(T) && WalkFrom(T, id, steps).end.Sized?
    ensures steps > 0 && 0 < id < |T|
  {
  }

  /** The step limit changes no chain that ends within it: more steps give the same walk. */
  lemma {:induction false} MoreSteps(T: seq<BtfType>, id: nat, steps: nat, more: nat)
    requires Records(T) && steps <= more && WalkFrom(T, id, steps).end.Sized?
    ensures WalkFrom(T, id, more) == WalkFrom(T, id, steps)
    decreases steps
  {
    SizedStart(T, id, steps);
    hide WalkFrom, WellFormed, Records;
    var t := T[id];
    if PassesOn(t.info.kind) {
      WalkPasses(T, id, steps);
      WalkPasses(T, id, more);
      MoreSteps(T, t.size, steps - 1, more - 1);
    } else if t.info.kind == KArray {
      WalkArray(T, id, steps);
      WalkArray(T, id, more);
      MoreSteps(T, t.tail.elem, steps - 1, more - 1);
    } else {
      WalkEnds(T, id, steps, more);
    }
  }

  /** A chain of more than 32 modifiers and arrays has no size, whatever it ends in. */
  lemma {:induction false} TooDeep(T: seq<BtfType>, path: seq<nat>, steps: nat)
    requires Records(T) && |path| > 0 && |path| == steps
    requires forall k :: 0 <= k < |path| ==> 0 < path[k] < |T|
    requires forall k :: 0 <= k < |path| ==>
               T[path[k]].info.kind in {KTypedef, KVolatile, KConst, KRestrict, KVar, KArray}
    requires forall k :: 0 <= k < |path| - 1 ==>
               path[k + 1] == if T[path[k]].info.kind == KArray then T[path[k]].tail.elem else T[path[k]].size
    ensures WalkFrom(T, path[0], steps).end.Dead?
    decreases steps
  {
    if |path| > 1 {
      var rest := path[1..];
      forall k | 0 <= k < |rest| - 1
        ensures rest[k + 1] == if T[rest[k]].info.kind == KArray then T[rest[k]].tail.elem else T[rest[k]].size
      {
        assert path[k + 2] == rest[k + 1] && path[k + 1] == rest[k];
      }
      TooDeep(T, rest, steps - 1);
      assert rest[0] == path[1];
    }
  }
}
