/** The line-info index of a JITed program (lib/libbpf/src/bpf_prog_linfo.c:22-86, 180-246). */
module LineInfo {
  import opened Basics

  const EINVAL: int := -22
  const WRAP: nat := 0x1_0000_0000_0000_0000

  // ---------------------------------------------------------------- segmentation

  /** The first record from `from` on with the given address. */
  function Next(addrs: seq<nat>, a: nat, from: nat): (i: nat)
    requires from <= |addrs|
    ensures from <= i <= |addrs| && (i < |addrs| ==> addrs[i] == a)
    ensures forall j :: from <= j < i ==> addrs[j] != a
    decreases |addrs| - from
  {
    if from == |addrs| || addrs[from] == a then from else Next(addrs, a, from + 1)
  }

  /** Where function f starts: at the first record of its address after the start before. */
  function Start(addrs: seq<nat>, ksyms: seq<nat>, f: nat): (i: nat)
    requires f < |ksyms|
    ensures i <= |addrs|
  {
    if f == 0 then 0
    else
      var before := Start(addrs, ksyms, f - 1);
      if before < |addrs| then Next(addrs, ksyms[f], before + 1) else |addrs|
  }

  predicate Increasing(addrs: seq<nat>, from: nat, to: nat)
    requires to <= |addrs|
  {
    forall i :: from < i < to ==> Rises(addrs, i)
  }

  predicate Rises(addrs: seq<nat>, i: nat) { 0 < i < |addrs| && addrs[i - 1] < addrs[i] }

  /** Function f - 1 ends where f starts: its addresses increase and stay within its length. */
  predicate SegmentOk(addrs: seq<nat>, ksyms: seq<nat>, lens: seq<nat>, f: nat)
    requires 0 < f < |ksyms| <= |lens|
  {
    var from, to := Start(addrs, ksyms, f - 1), Start(addrs, ksyms, f);
    && from < to < |addrs|
    && Increasing(addrs, from, to)
    && (addrs[to - 1] - ksyms[f - 1] + 1) % WRAP <= lens[f - 1]
  }

  /** What the dissection accepts: every segment but the last is checked. */
  ghost predicate Accepts(addrs: seq<nat>, ksyms: seq<nat>, lens: seq<nat>)
    requires 0 < |addrs| && 0 < |ksyms| <= |lens|
  {
    ksyms[0] == addrs[0] && forall f :: 0 < f < |ksyms| ==> SegmentOk(addrs, ksyms, lens, f)
  }

  function End(addrs: seq<nat>, fi: seq<nat>, f: nat): nat { if f + 1 < |fi| then fi[f + 1] else |addrs| }

  /** The segments, given by first index and length, start at the functions' addresses, are not empty,
      tile all records, and increase in all but the last. */
  ghost predicate Tiles(addrs: seq<nat>, ksyms: seq<nat>, fi: seq<nat>, pf: seq<nat>) {
    && 0 < |fi| == |pf| == |ksyms| && fi[0] == 0
    && (forall f :: 0 <= f < |fi| ==> pf[f] > 0 && fi[f] + pf[f] == End(addrs, fi, f))
    && (forall f :: 0 <= f < |fi| ==> fi[f] < |addrs| && addrs[fi[f]] == ksyms[f])
    && (forall f :: 0 <= f < |fi| - 1 ==> Block(addrs, fi, f))
  }

  class Linfo {
    const addrs: seq<nat>  // address of each JITed record
    const offs: seq<nat>   // instruction offset of each record
    const funcIdx: array<nat>
    const perFunc: array<nat>

    ghost predicate Valid()
      reads this
    {
      0 < |addrs| == |offs| && 0 < funcIdx.Length == perFunc.Length && funcIdx != perFunc
    }

    constructor (addrs: seq<nat>, offs: seq<nat>, functions: nat)
      requires 0 < |addrs| == |offs| && 0 < functions
      ensures Valid() && this.addrs == addrs && this.offs == offs && funcIdx.Length == functions
      ensures fresh(funcIdx) && fresh(perFunc)
    {
      this.addrs, this.offs := addrs, offs;
      funcIdx, perFunc := new nat[functions], new nat[functions];
    }

    /** dissect_jited_func */
    method Dissect(ksyms: seq<nat>, lens: seq<nat>) returns (err: int)
      requires Valid() && |ksyms| == funcIdx.Length == |lens|
      modifies funcIdx, perFunc
      ensures err == 0 <==> Accepts(addrs, ksyms, lens)
      ensures err == 0 ==> Tiles(addrs, ksyms, funcIdx[..], perFunc[..])
    {
      hide Start, SegmentOk, Next, Increasing, Accepts, Passed, Starts, Lengths, Pending, Tiles;
      if ksyms[0] != addrs[0] {
        Mismatch(addrs, ksyms, lens);
        return EINVAL;
      }
      funcIdx[0] := 0;
      FirstStart(addrs, ksyms, lens, funcIdx[..], perFunc[..]);
      var prev: nat, i: nat, f: nat := 0, 1, 1;
      while i < |addrs| && f < |ksyms|
        invariant 1 <= i <= |addrs| && 1 <= f <= |ksyms| && prev < i
        invariant prev == funcIdx[f - 1] && Passed(addrs, ksyms, lens, f)
        invariant Starts(addrs, ksyms, f, funcIdx[..]) && Lengths(f, funcIdx[..], perFunc[..])
        invariant f < |ksyms| ==> Pending(addrs, ksyms, f, prev, i)
      {
        var last, here := addrs[i - 1], addrs[i];
        if ksyms[f] == here {
          StartFound(addrs, ksyms, lens, f, prev, i);
          ghost var fi, pf := funcIdx[..], perFunc[..];
          funcIdx[f] := i;
          if (last - ksyms[f - 1] + 1) % WRAP > lens[f - 1] {
            Rejected(addrs, ksyms, lens, f);
            return EINVAL;
          }
          var count: nat := i - prev;
          perFunc[f - 1] := count;
          assert funcIdx[..] == fi[f := i] && perFunc[..] == pf[f - 1 := count];
          MoreStarts(addrs, ksyms, lens, f, prev, i, fi, pf);
          prev := i;
          f := f + 1;
        } else if here <= last {
          OutOfOrder(addrs, ksyms, lens, f, prev, i);
          Rejected(addrs, ksyms, lens, f);
          return EINVAL;
        } else {
          StillPending(addrs, ksyms, f, prev, i);
        }
        i := i + 1;
      }
      if f != |ksyms| {
        NotFound(addrs, ksyms, lens, f, prev);
        Rejected(addrs, ksyms, lens, f);
        return EINVAL;
      }
      ghost var pf := perFunc[..];
      var count: nat := |addrs| - prev;
      perFunc[|ksyms| - 1] := count;
      assert perFunc[..] == pf[|ksyms| - 1 := count];
      Tiling(addrs, ksyms, lens, funcIdx[..], pf, count);
      return 0;
    }

    /** bpf_prog_linfo__lfind_addr_func: the index of the record found. */
    method LfindAddrFunc(addr: nat, f: nat, skip: nat) returns (r: Option<nat>)
      requires Valid()
      requires f < funcIdx.Length ==> funcIdx[f] + perFunc[f] <= |addrs|
      ensures r.None? <==> f >= funcIdx.Length || skip >= perFunc[f] || addr < addrs[funcIdx[f] + skip]
      ensures r.Some? ==> LastBelow(addrs, addr, funcIdx[f] + skip, funcIdx[f] + perFunc[f], r.value)
    {
      if f >= funcIdx.Length {
        return None;
      }
      var n := perFunc[f];
      if skip >= n {
        return None;
      }
      var start := funcIdx[f] + skip;
      if addr < addrs[start] {
        return None;
      }
      n := n - skip;
      var i := 0;
      while i < n
        invariant 0 <= i <= n
        invariant forall j :: start <= j < start + i ==> addrs[j] <= addr
      {
        if addr < addrs[start + i] {
          break;
        }
        i := i + 1;
      }
      return Some(start + i - 1);
    }

    /** bpf_prog_linfo__lfind */
    method Lfind(off: nat, skip: nat) returns (r: Option<nat>)
      requires Valid()
      ensures r.None? <==> skip >= |offs| || off < offs[skip]
      ensures r.Some? ==> LastBelow(offs, off, skip, |offs|, r.value)
    {
      if skip >= |offs| || off < offs[skip] {
        return None;
      }
      var n, i := |offs| - skip, 0;
      while i < n
        invariant 0 <= i <= n
        invariant forall j :: skip <= j < skip + i ==> offs[j] <= off
      {
        if off < offs[skip + i] {
          break;
        }
        i := i + 1;
      }
      return Some(skip + i - 1);
    }
  }

  // ---------------------------------------------------------------- the dissection loop

  /** The first f functions start where they should. */
  ghost predicate Starts(addrs: seq<nat>, ksyms: seq<nat>, f: nat, fi: seq<nat>) {
    f <= |ksyms| == |fi| && forall g :: 0 <= g < f ==> fi[g] == Start(addrs, ksyms, g)
  }

  ghost predicate Lengths(f: nat, fi: seq<nat>, pf: seq<nat>) {
    f <= |fi| == |pf| && forall g :: 0 <= g < f - 1 ==> fi[g] + pf[g] == fi[g + 1]
  }

  ghost predicate Passed(addrs: seq<nat>, ksyms: seq<nat>, lens: seq<nat>, f: nat) {
    0 < f <= |ksyms| <= |lens| && forall g :: 0 < g < f ==> SegmentOk(addrs, ksyms, lens, g)
  }

  /** Function f has not started between prev, the last start, and i. */
  ghost predicate Pending(addrs: seq<nat>, ksyms: seq<nat>, f: nat, prev: nat, i: nat) {
    && 0 < f < |ksyms| && prev < i <= |addrs| && prev == Start(addrs, ksyms, f - 1)
    && Increasing(addrs, prev, i) && forall j :: prev < j < i ==> addrs[j] != ksyms[f]
  }

  lemma FirstStart(addrs: seq<nat>, ksyms: seq<nat>, lens: seq<nat>, fi: seq<nat>, pf: seq<nat>)
    requires 0 < |ksyms| == |fi| == |pf| && |ksyms| <= |lens| && |addrs| > 0 && fi[0] == 0
    ensures Starts(addrs, ksyms, 1, fi) && Lengths(1, fi, pf) && Passed(addrs, ksyms, lens, 1)
    ensures |ksyms| > 1 ==> Pending(addrs, ksyms, 1, 0, 1)
  {
  }

  lemma Mismatch(addrs: seq<nat>, ksyms: seq<nat>, lens: seq<nat>)
    requires 0 < |addrs| && 0 < |ksyms| <= |lens| && ksyms[0] != addrs[0]
    ensures !Accepts(addrs, ksyms, lens)
  {
  }

  lemma Rejected(addrs: seq<nat>, ksyms: seq<nat>, lens: seq<nat>, f: nat)
    requires 0 < |addrs| && 0 < f < |ksyms| <= |lens| && !SegmentOk(addrs, ksyms, lens, f)
    ensures !Accepts(addrs, ksyms, lens)
  {
    hide SegmentOk;
  }

  /** The next start is where the scan stands, or beyond. */
  lemma StartFrom(addrs: seq<nat>, ksyms: seq<nat>, f: nat, prev: nat, i: nat)
    requires Pending(addrs, ksyms, f, prev, i)
    ensures Start(addrs, ksyms, f) == Next(addrs, ksyms[f], i)
  {
    NextFrom(addrs, ksyms[f], prev + 1, i);
  }

  lemma StartFound(addrs: seq<nat>, ksyms: seq<nat>, lens: seq<nat>, f: nat, prev: nat, i: nat)
    requires Pending(addrs, ksyms, f, prev, i) && i < |addrs| && addrs[i] == ksyms[f] && |ksyms| <= |lens|
    ensures Start(addrs, ksyms, f) == i
    ensures SegmentOk(addrs, ksyms, lens, f) <==> (addrs[i - 1] - ksyms[f - 1] + 1) % WRAP <= lens[f - 1]
  {
    StartFrom(addrs, ksyms, f, prev, i);
  }

  lemma MoreStarts(addrs: seq<nat>, ksyms: seq<nat>, lens: seq<nat>, f: nat, prev: nat, i: nat, fi: seq<nat>,
                   pf: seq<nat>)
    requires Pending(addrs, ksyms, f, prev, i) && i < |addrs| && Start(addrs, ksyms, f) == i
    requires Starts(addrs, ksyms, f, fi) && Lengths(f, fi, pf) && Passed(addrs, ksyms, lens, f)
    requires SegmentOk(addrs, ksyms, lens, f)
    ensures Starts(addrs, ksyms, f + 1, fi[f := i]) && Lengths(f + 1, fi[f := i], pf[f - 1 := i - prev])
    ensures Passed(addrs, ksyms, lens, f + 1) && (f + 1 < |ksyms| ==> Pending(addrs, ksyms, f + 1, i, i + 1))
  {
    hide Start, SegmentOk;
  }

  lemma StillPending(addrs: seq<nat>, ksyms: seq<nat>, f: nat, prev: nat, i: nat)
    requires Pending(addrs, ksyms, f, prev, i) && i < |addrs| && addrs[i] != ksyms[f] && addrs[i - 1] < addrs[i]
    ensures Pending(addrs, ksyms, f, prev, i + 1)
  {
    hide Start;
  }

  lemma OutOfOrder(addrs: seq<nat>, ksyms: seq<nat>, lens: seq<nat>, f: nat, prev: nat, i: nat)
    requires Pending(addrs, ksyms, f, prev, i) && i < |addrs| && addrs[i] != ksyms[f] && addrs[i] <= addrs[i - 1]
    requires |ksyms| <= |lens|
    ensures !SegmentOk(addrs, ksyms, lens, f)
  {
    StartFrom(addrs, ksyms, f, prev, i);
    var to := Start(addrs, ksyms, f);
    hide Start;
    assert to > i;
    assert !Rises(addrs, i);
  }

  lemma NotFound(addrs: seq<nat>, ksyms: seq<nat>, lens: seq<nat>, f: nat, prev: nat)
    requires Pending(addrs, ksyms, f, prev, |addrs|) && |ksyms| <= |lens|
    ensures !SegmentOk(addrs, ksyms, lens, f)
  {
    StartFrom(addrs, ksyms, f, prev, |addrs|);
  }

  ghost predicate Block(addrs: seq<nat>, fi: seq<nat>, f: nat) {
    f + 1 < |fi| && fi[f] < fi[f + 1] <= |addrs| && Increasing(addrs, fi[f], fi[f + 1])
  }

  /** When every segment passed, the table describes a tiling. */
  lemma AllStarts(addrs: seq<nat>, ksyms: seq<nat>, lens: seq<nat>, fi: seq<nat>, pf: seq<nat>)
    requires 0 < |addrs| && 0 < |ksyms| && ksyms[0] == addrs[0] && Passed(addrs, ksyms, lens, |ksyms|)
    requires Starts(addrs, ksyms, |ksyms|, fi) && Lengths(|ksyms|, fi, pf)
    ensures fi[0] == 0
    ensures forall f :: 0 <= f < |ksyms| ==> fi[f] < |addrs| && addrs[fi[f]] == ksyms[f]
    ensures forall f :: 0 <= f < |ksyms| - 1 ==> Block(addrs, fi, f)
  {
    forall f | 0 <= f < |ksyms|
      ensures fi[f] < |addrs| && addrs[fi[f]] == ksyms[f]
    {
      if f > 0 {
        assert SegmentOk(addrs, ksyms, lens, f);
      }
    }
    forall f | 0 <= f < |ksyms| - 1
      ensures Block(addrs, fi, f)
    {
      assert SegmentOk(addrs, ksyms, lens, f + 1);
    }
  }

  lemma Tiling(addrs: seq<nat>, ksyms: seq<nat>, lens: seq<nat>, fi: seq<nat>, pf: seq<nat>, count: nat)
    requires 0 < |addrs| && 0 < |ksyms| && ksyms[0] == addrs[0] && Passed(addrs, ksyms, lens, |ksyms|)
    requires Starts(addrs, ksyms, |ksyms|, fi) && Lengths(|ksyms|, fi, pf)
    requires count == |addrs| - fi[|ksyms| - 1]
    ensures Accepts(addrs, ksyms, lens) && Tiles(addrs, ksyms, fi, pf[|ksyms| - 1 := count])
  {
    hide Start, SegmentOk, Increasing;
    AllStarts(addrs, ksyms, lens, fi, pf);
    var pf' := pf[|ksyms| - 1 := count];
    forall f | 0 <= f < |fi|
      ensures pf'[f] > 0 && fi[f] + pf'[f] == End(addrs, fi, f)
    {
      if f < |ksyms| - 1 {
        assert Block(addrs, fi, f);
      }
    }
  }

  lemma {:induction false} NextFrom(addrs: seq<nat>, a: nat, from: nat, i: nat)
    requires from <= i <= |addrs| && forall j :: from <= j < i ==> addrs[j] != a
    ensures Next(addrs, a, from) == Next(addrs, a, i)
    decreases i - from
  {
    if from < i {
      NextFrom(addrs, a, from + 1, i);
    }
  }

  // ---------------------------------------------------------------- lookup

  /** Everything from `from` to r is not above x, and the next one, if any, is. */
  ghost predicate LastBelow(keys: seq<nat>, x: nat, from: nat, to: nat, r: nat) {
    && from <= r < to <= |keys|
    && (forall j :: from <= j <= r ==> keys[j] <= x)
    && (r + 1 < to ==> x < keys[r + 1])
  }

  lemma {:induction false} Ordered(keys: seq<nat>, from: nat, to: nat, i: nat, j: nat)
    requires to <= |keys| && Increasing(keys, from, to) && from <= i < j < to
    ensures keys[i] < keys[j]
    decreases j - i
  {
    if i + 1 < j {
      Ordered(keys, from, to, i, j - 1);
    }
    assert Rises(keys, j);
  }

  /** r has the greatest key not above x. */
  ghost predicate Greatest(keys: seq<nat>, x: nat, from: nat, to: nat, r: nat)
    requires to <= |keys|
  {
    from <= r < to && keys[r] <= x && forall j :: from <= j < to && keys[j] <= x ==> keys[j] <= keys[r]
  }

  /** The lookup answers the query x rightly: with the greatest key not above it, and with none only when
      there is none. */
  ghost predicate RightAt(keys: seq<nat>, x: nat, from: nat, to: nat)
    requires from < to <= |keys|
  {
    && (x < keys[from] ==> forall j :: from <= j < to ==> x < keys[j])
    && (forall r :: LastBelow(keys, x, from, to, r) ==> Greatest(keys, x, from, to, r))
  }

  /** In a sorted segment the record found has the greatest key not above the query, among those not
      skipped; none is found exactly when there is none. */
  lemma LookupIsGreatest(keys: seq<nat>, x: nat, from: nat, to: nat, r: nat)
    requires to <= |keys| && Increasing(keys, from, to) && from < to
    ensures LastBelow(keys, x, from, to, r) <==> Greatest(keys, x, from, to, r)
    ensures x < keys[from] <==> forall j :: from <= j < to ==> x < keys[j]
  {
    forall i, j | from <= i < j < to
      ensures keys[i] < keys[j]
    {
      Ordered(keys, from, to, i, j);
    }
  }

  /** What the lookup finds when the first keys up to i are not above the query: i or a later record. */
  lemma {:induction false} RunBeyond(keys: seq<nat>, x: nat, from: nat, to: nat, i: nat) returns (r: nat)
    requires from <= i < to <= |keys|
    requires forall j :: from <= j <= i ==> keys[j] <= x
    ensures i <= r && LastBelow(keys, x, from, to, r)
    decreases |keys| - i
  {
    if i + 1 < to && keys[i + 1] <= x {
      r := RunBeyond(keys, x, from, to, i + 1);
    } else {
      r := i;
    }
  }

  /** The first record that is not above the one before it. */
  lemma {:induction false} FirstDrop(keys: seq<nat>, from: nat, to: nat, i: nat) returns (d: nat)
    requires from < i < to <= |keys| && keys[i] <= keys[i - 1]
    ensures from < d <= i && keys[d] <= keys[d - 1] && Increasing(keys, from, d)
    decreases i
  {
    if !Increasing(keys, from, i) {
      var j: nat :| from < j < i && !Rises(keys, j);
      d := FirstDrop(keys, from, to, j);
    } else {
      d := i;
    }
  }

  /** A drop makes the lookup miss the key just before it. */
  lemma DropMisleads(keys: seq<nat>, from: nat, to: nat, d: nat)
    requires from < d < to <= |keys| && keys[d] < keys[d - 1] && Increasing(keys, from, d)
    requires Different(keys, from, to)
    ensures !RightAt(keys, keys[d - 1], from, to)
  {
    var x := keys[d - 1];
    forall j | from <= j <= d
      ensures keys[j] <= x
    {
      if j < d - 1 {
        Ordered(keys, from, d, j, d - 1);
      }
    }
    var r := RunBeyond(keys, x, from, to, d);
    assert keys[r] != keys[d - 1];
  }

  lemma SortedIsRight(keys: seq<nat>, x: nat, from: nat, to: nat)
    requires from < to <= |keys| && Increasing(keys, from, to)
    ensures RightAt(keys, x, from, to)
  {
    hide Increasing, LastBelow, Greatest;
    LookupIsGreatest(keys, x, from, to, from);
    forall r: nat
      ensures LastBelow(keys, x, from, to, r) ==> Greatest(keys, x, from, to, r)
    {
      LookupIsGreatest(keys, x, from, to, r);
    }
  }

  ghost predicate Different(keys: seq<nat>, from: nat, to: nat)
    requires to <= |keys|
  {
    forall i, j :: from <= i < j < to ==> keys[i] != keys[j]
  }

  lemma UnsortedIsWrong(keys: seq<nat>, from: nat, to: nat) returns (x: nat)
    requires from < to <= |keys| && !Increasing(keys, from, to) && Different(keys, from, to)
    ensures !RightAt(keys, x, from, to)
  {
    hide RightAt;
    var i: nat :| from < i < to && !Rises(keys, i);
    var d := FirstDrop(keys, from, to, i);
    DropMisleads(keys, from, to, d);
    x := keys[d - 1];
  }

  /** With pairwise different keys every query is answered rightly exactly when the segment is sorted. */
  lemma LookupRightIff(keys: seq<nat>, from: nat, to: nat)
    requires from < to <= |keys| && Different(keys, from, to)
    ensures (forall x: nat :: RightAt(keys, x, from, to)) <==> Increasing(keys, from, to)
  {
    hide RightAt, Increasing, Different;
    if Increasing(keys, from, to) {
      forall x: nat
        ensures RightAt(keys, x, from, to)
      {
        SortedIsRight(keys, x, from, to);
      }
    } else {
      var x := UnsortedIsWrong(keys, from, to);
    }
  }

  /** Equal keys can hide disorder: here every query is answered rightly. */
  lemma EqualKeysHideDisorder(x: nat)
    ensures RightAt([5, 10, 5, 10], x, 0, 4) && !Increasing([5, 10, 5, 10], 0, 4)
  {
    var keys := [5, 10, 5, 10];
    assert !Rises(keys, 2);
    forall r: nat | LastBelow(keys, x, 0, 4, r)
      ensures Greatest(keys, x, 0, 4, r)
    {
      if x < 10 {
        assert r == 0;
      } else {
        assert r == 3;
      }
    }
  }

  /** The last segment is not checked: a dissection may accept records out of order there. */
  lemma LastSegmentUnchecked()
    ensures Accepts([10, 20, 15], [10], [100]) && !Increasing([10, 20, 15], 0, 3)
  {
    var a := [10, 20, 15];
    assert !Rises(a, 2);
  }

  /** There the lookup can miss the greatest address not above the query. */
  lemma UnsortedLookupMisses()
    ensures LastBelow([10, 20, 15], 17, 0, 3, 0) && [10, 20, 15][2] <= 17 && [10, 20, 15][0] < [10, 20, 15][2]
  {
  }
}
