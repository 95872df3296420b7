/** String deduplication (lib/libbpf/src/btf.c:1565-1723).

    A string section is a sequence of characters cut into NUL-terminated strings.  The two
    library sorts are parameters: any sorting by content, any sorting by offset. */
module StringDedup {

  const NUL: char := '\0'
  const EINVAL: int := -22

  // ---------------------------------------------------------------- sections

  /** What btf_parse_str_sec accepts: it starts with an empty string and ends with a NUL. */
  predicate Section(d: seq<char>) {
    |d| > 0 && d[0] == NUL && d[|d| - 1] == NUL
  }

  /** strlen */
  function StrLen(d: seq<char>, p: nat): (n: nat)
    requires p < |d| && d[|d| - 1] == NUL
    ensures p + n < |d| && d[p + n] == NUL && forall i :: p <= i < p + n ==> d[i] != NUL
    decreases |d| - p
  {
    if d[p] == NUL then 0 else 1 + StrLen(d, p + 1)
  }

  /** The string at an offset. */
  function Text(d: seq<char>, p: nat): seq<char>
    requires p < |d| && d[|d| - 1] == NUL
  {
    d[p..p + StrLen(d, p)]
  }

  /** An offset at which a string of the section starts. */
  predicate IsStart(d: seq<char>, p: nat) {
    p < |d| && (p == 0 || d[p - 1] == NUL)
  }

  lemma TextUnique(d: seq<char>, p: nat, n: nat)
    requires p + n < |d| && d[|d| - 1] == NUL && d[p + n] == NUL
    requires forall i :: p <= i < p + n ==> d[i] != NUL
    ensures StrLen(d, p) == n && Text(d, p) == d[p..p + n]
  {
  }

  /** Appending strings does not change the ones already there. */
  lemma TextAppend(d: seq<char>, e: seq<char>, p: nat)
    requires p < |d| && d[|d| - 1] == NUL && (e == [] || e[|e| - 1] == NUL)
    ensures (d + e)[|d + e| - 1] == NUL && Text(d + e, p) == Text(d, p)
  {
    var n := StrLen(d, p);
    TextUnique(d + e, p, n);
    assert (d + e)[p..p + n] == d[p..p + n];
  }

  /** A string written at the end of a section is read back from there. */
  lemma TextAtEnd(d: seq<char>, s: seq<char>)
    requires NUL !in s
    ensures (d + s + [NUL])[|d + s|] == NUL && Text(d + s + [NUL], |d|) == s
  {
    var e := d + s + [NUL];
    TextUnique(e, |d|, |s|);
    assert e[|d|..|d| + |s|] == s;
  }

  lemma TextHasNoNul(d: seq<char>, p: nat)
    requires p < |d| && d[|d| - 1] == NUL
    ensures NUL !in Text(d, p)
  {
  }

  // ---------------------------------------------------------------- order on strings

  /** strcmp(s, t) <= 0 */
  predicate Leq(s: seq<char>, t: seq<char>) {
    s == [] || (t != [] && (s[0] < t[0] || (s[0] == t[0] && Leq(s[1..], t[1..]))))
  }

  lemma {:induction false} LeqAntisymmetric(s: seq<char>, t: seq<char>)
    requires Leq(s, t) && Leq(t, s)
    ensures s == t
  {
    if s != [] {
      LeqAntisymmetric(s[1..], t[1..]);
      assert s == [s[0]] + s[1..] && t == [t[0]] + t[1..];
    }
  }

  // ---------------------------------------------------------------- the index

  datatype StrPtr = StrPtr(off: nat, newOff: nat, used: bool)

  /** One entry per string, in the order of the section. */
  ghost predicate Index(d: seq<char>, ptrs: seq<StrPtr>) {
    && |d| > 0 && d[|d| - 1] == NUL
    && (forall p: nat :: IsStart(d, p) ==> Listed(ptrs, p))
    && (forall i :: 0 <= i < |ptrs| ==> IsStart(d, ptrs[i].off))
    && Ascending(ptrs)
  }

  ghost predicate Listed(ptrs: seq<StrPtr>, p: nat) {
    exists i :: 0 <= i < |ptrs| && ptrs[i].off == p
  }

  ghost predicate Ascending(ptrs: seq<StrPtr>) {
    forall i, j :: 0 <= i < j < |ptrs| ==> ptrs[i].off < ptrs[j].off
  }

  /** Characters that the listed strings take up, terminators included. */
  ghost function Weight(d: seq<char>, ptrs: seq<StrPtr>): nat
    requires |d| > 0 && d[|d| - 1] == NUL && forall i :: 0 <= i < |ptrs| ==> ptrs[i].off < |d|
  {
    if ptrs == [] then 0 else StrLen(d, ptrs[0].off) + 1 + Weight(d, ptrs[1..])
  }

  method BuildIndex(d: seq<char>) returns (ptrs: seq<StrPtr>)
    requires Section(d)
    ensures Index(d, ptrs) && ptrs != [] && ptrs[0].off == 0
    ensures forall i :: 0 <= i < |ptrs| ==> !ptrs[i].used
    ensures Weight(d, ptrs) == |d|
  {
    hide IndexUpTo, StrLen;
    ptrs := [];
    var p := 0;
    IndexStart(d);
    while p < |d|
      invariant IndexUpTo(d, ptrs, p)
    {
      IndexStep(d, ptrs, p);
      ptrs, p := ptrs + [StrPtr(p, 0, false)], p + StrLen(d, p) + 1;
    }
    IndexEnd(d, ptrs, p);
  }

  /** The index of the strings that start before p. */
  ghost predicate IndexUpTo(d: seq<char>, ptrs: seq<StrPtr>, p: nat) {
    && |d| > 0 && d[|d| - 1] == NUL && p <= |d| && (p == |d| || IsStart(d, p))
    && StartsListed(d, ptrs, p)
    && ListedStart(d, ptrs, p)
    && Ascending(ptrs)
    && (ptrs == [] <==> p == 0) && (ptrs != [] ==> ptrs[0].off == 0)
    && Weight(d, ptrs) == p
  }

  ghost predicate StartsListed(d: seq<char>, ptrs: seq<StrPtr>, p: nat) {
    forall q: nat :: IsStart(d, q) && q < p ==> Listed(ptrs, q)
  }

  ghost predicate ListedStart(d: seq<char>, ptrs: seq<StrPtr>, p: nat) {
    forall i :: 0 <= i < |ptrs| ==> IsStart(d, ptrs[i].off) && ptrs[i].off < p && !ptrs[i].used
  }

  lemma IndexStart(d: seq<char>)
    requires Section(d)
    ensures IndexUpTo(d, [], 0)
  {
  }

  lemma IndexEnd(d: seq<char>, ptrs: seq<StrPtr>, p: nat)
    requires IndexUpTo(d, ptrs, p) && p >= |d|
    ensures Index(d, ptrs) && ptrs != [] && ptrs[0].off == 0 && Weight(d, ptrs) == |d|
    ensures forall i :: 0 <= i < |ptrs| ==> !ptrs[i].used
  {
  }

  lemma IndexStep(d: seq<char>, ptrs: seq<StrPtr>, p: nat)
    requires IndexUpTo(d, ptrs, p) && p < |d|
    ensures IndexUpTo(d, ptrs + [StrPtr(p, 0, false)], p + StrLen(d, p) + 1)
  {
    hide IsStart, Weight, StrLen, Text, Ascending, StartsListed, ListedStart;
    var x := StrPtr(p, 0, false);
    StartsThere(d, p);
    OffsetsInside(d, ptrs, p);
    WeightAppend(d, ptrs, x);
    TextLength(d, p);
    AscendingPush(d, ptrs, p);
    ListedPush(d, ptrs, p, p + StrLen(d, p) + 1);
    assert (ptrs + [x])[0] == if ptrs == [] then x else ptrs[0];
  }

  lemma OffsetsInside(d: seq<char>, ptrs: seq<StrPtr>, p: nat)
    requires ListedStart(d, ptrs, p) && p <= |d|
    ensures forall i :: 0 <= i < |ptrs| ==> ptrs[i].off < |d|
  {
    hide IsStart;
  }

  /** The string at p joins the index, and is the only one before the next. */
  lemma ListedPush(d: seq<char>, ptrs: seq<StrPtr>, p: nat, next: nat)
    requires StartsListed(d, ptrs, p) && ListedStart(d, ptrs, p) && IsStart(d, p) && p < next
    requires forall q: nat :: IsStart(d, q) && p < q ==> q >= next
    ensures StartsListed(d, ptrs + [StrPtr(p, 0, false)], next) && ListedStart(d, ptrs + [StrPtr(p, 0, false)], next)
  {
    hide IsStart, Listed;
    forall q: nat | IsStart(d, q) && q < next
      ensures Listed(ptrs + [StrPtr(p, 0, false)], q)
    {
      ListedMore(ptrs, p, q);
    }
  }

  lemma AscendingPush(d: seq<char>, ptrs: seq<StrPtr>, p: nat)
    requires Ascending(ptrs) && ListedStart(d, ptrs, p)
    ensures Ascending(ptrs + [StrPtr(p, 0, false)])
  {
  }

  lemma ListedMore(ptrs: seq<StrPtr>, p: nat, q: nat)
    requires Listed(ptrs, q) || q == p
    ensures Listed(ptrs + [StrPtr(p, 0, false)], q)
  {
    var after := ptrs + [StrPtr(p, 0, false)];
    if q == p {
      assert after[|ptrs|].off == q;
    } else {
      var i :| 0 <= i < |ptrs| && ptrs[i].off == q;
      assert after[i].off == q;
    }
  }

  lemma TextLength(d: seq<char>, p: nat)
    requires p < |d| && d[|d| - 1] == NUL
    ensures |Text(d, p)| == StrLen(d, p)
  {
  }

  /** After the string at p comes the next one, and none starts in between. */
  lemma StartsThere(d: seq<char>, p: nat)
    requires p < |d| && d[|d| - 1] == NUL && IsStart(d, p)
    ensures p + StrLen(d, p) < |d|
    ensures p + StrLen(d, p) + 1 == |d| || IsStart(d, p + StrLen(d, p) + 1)
    ensures forall q: nat :: IsStart(d, q) && p < q ==> q >= p + StrLen(d, p) + 1
  {
  }

  lemma {:induction false} WeightAppend(d: seq<char>, ptrs: seq<StrPtr>, x: StrPtr)
    requires |d| > 0 && d[|d| - 1] == NUL && (forall i :: 0 <= i < |ptrs| ==> ptrs[i].off < |d|) && x.off < |d|
    ensures Weight(d, ptrs + [x]) == Weight(d, ptrs) + StrLen(d, x.off) + 1
  {
    if ptrs != [] {
      assert (ptrs + [x])[1..] == ptrs[1..] + [x];
      WeightAppend(d, ptrs[1..], x);
    }
  }

  /** bsearch over the offset-sorted index. */
  method Search(ptrs: seq<StrPtr>, off: nat) returns (i: int)
    requires Ascending(ptrs)
    ensures i == -1 ==> !Listed(ptrs, off)
    ensures i != -1 ==> 0 <= i < |ptrs| && ptrs[i].off == off
  {
    var lo, hi := 0, |ptrs|;
    while lo < hi
      invariant 0 <= lo <= hi <= |ptrs|
      invariant forall j :: 0 <= j < lo ==> ptrs[j].off < off
      invariant forall j :: hi <= j < |ptrs| ==> off < ptrs[j].off
    {
      var mid := lo + (hi - lo) / 2;
      if ptrs[mid].off == off {
        return mid;
      } else if ptrs[mid].off < off {
        lo := mid + 1;
      } else {
        hi := mid;
      }
    }
    i := -1;
  }

  ghost predicate SameOffsets(a: seq<StrPtr>, b: seq<StrPtr>) {
    |a| == |b| && forall i :: 0 <= i < |a| ==> a[i].off == b[i].off
  }

  /** Every non-zero reference is the start of a string. */
  ghost predicate RefsOk(d: seq<char>, refs: seq<nat>) {
    forall k :: 0 <= k < |refs| && refs[k] != 0 ==> IsStart(d, refs[k])
  }

  /** btf_str_mark_as_used over all references. */
  method MarkUsed(d: seq<char>, start: seq<StrPtr>, refs: seq<nat>) returns (err: int, ptrs: seq<StrPtr>)
    requires Index(d, start) && start != [] && start[0].off == 0
    requires forall i :: 0 <= i < |start| ==> !start[i].used
    ensures err == 0 <==> RefsOk(d, refs)
    ensures SameOffsets(start, ptrs)
    ensures err == 0 ==> ptrs[0].used
    ensures err == 0 ==> forall i :: 0 <= i < |ptrs| && ptrs[i].off in refs ==> ptrs[i].used
    ensures forall i :: 0 <= i < |ptrs| && ptrs[i].used ==> ptrs[i].off == 0 || ptrs[i].off in refs
  {
    ptrs := start[0 := start[0].(used := true)];
    for k := 0 to |refs|
      invariant SameOffsets(start, ptrs) && ptrs[0].used
      invariant RefsOk(d, refs[..k])
      invariant forall i :: 0 <= i < |ptrs| && ptrs[i].off in refs[..k] ==> ptrs[i].used
      invariant forall i :: 0 <= i < |ptrs| && ptrs[i].used ==> ptrs[i].off == 0 || ptrs[i].off in refs
    {
      if refs[k] != 0 {
        var i := Search(ptrs, refs[k]);
        if i == -1 {
          assert !Listed(start, refs[k]);
          return EINVAL, ptrs;
        }
        ptrs := ptrs[i := ptrs[i].(used := true)];
      }
      assert refs[..k + 1] == refs[..k] + [refs[k]];
    }
    assert refs[..|refs|] == refs;
    err := 0;
  }

  // ---------------------------------------------------------------- grouping

  ghost predicate Offsets(d: seq<char>, ptrs: seq<StrPtr>) {
    |d| > 0 && d[|d| - 1] == NUL && forall i :: 0 <= i < |ptrs| ==> ptrs[i].off < |d|
  }

  function TextOf(d: seq<char>, ptrs: seq<StrPtr>, i: nat): seq<char>
    requires i < |ptrs| && ptrs[i].off < |d| && d[|d| - 1] == NUL
  {
    Text(d, ptrs[i].off)
  }

  ghost predicate SortedByContent(d: seq<char>, ptrs: seq<StrPtr>)
    requires Offsets(d, ptrs)
  {
    forall i, j :: 0 <= i < j < |ptrs| ==> Leq(TextOf(d, ptrs, i), TextOf(d, ptrs, j))
  }

  /** Some string with the same text is referenced. */
  ghost predicate GroupUsed(d: seq<char>, ptrs: seq<StrPtr>, i: nat)
    requires Offsets(d, ptrs) && i < |ptrs|
  {
    exists j :: 0 <= j < |ptrs| && ptrs[j].used && TextOf(d, ptrs, j) == TextOf(d, ptrs, i)
  }

  ghost predicate Closed(out: seq<char>) {
    out == [] || out[|out| - 1] == NUL
  }

  /** Where a referenced string went: it reads the same there. */
  ghost predicate Stored(d: seq<char>, ptrs: seq<StrPtr>, out: seq<char>, i: nat, newOff: nat)
    requires Offsets(d, ptrs) && i < |ptrs|
  {
    IsStart(out, newOff) && out[|out| - 1] == NUL && Text(out, newOff) == TextOf(d, ptrs, i)
  }

  /** The result for the first m sorted entries. */
  ghost predicate Grouped(d: seq<char>, ptrs: seq<StrPtr>, res: seq<StrPtr>, out: seq<char>, m: nat)
    requires Offsets(d, ptrs) && m <= |ptrs|
  {
    && |res| == |ptrs| && Closed(out)
    && (forall i :: 0 <= i < |ptrs| ==> res[i].off == ptrs[i].off && res[i].used == ptrs[i].used)
    && (forall i :: 0 <= i < m && GroupUsed(d, ptrs, i) ==> Stored(d, ptrs, out, i, res[i].newOff))
    && (forall i, j :: 0 <= i < m && 0 <= j < m && TextOf(d, ptrs, i) == TextOf(d, ptrs, j) && GroupUsed(d, ptrs, i) ==>
          res[i].newOff == res[j].newOff)
    && (forall p: nat :: IsStart(out, p) ==> Source(d, ptrs, res, m, p))
    && (m > 0 && GroupUsed(d, ptrs, 0) ==> res[0].newOff == 0)
  }

  /** A string of the new section is a referenced string of the old one. */
  ghost predicate Source(d: seq<char>, ptrs: seq<StrPtr>, res: seq<StrPtr>, m: nat, p: nat)
    requires Offsets(d, ptrs) && m <= |ptrs| == |res|
  {
    exists i :: 0 <= i < m && GroupUsed(d, ptrs, i) && res[i].newOff == p
  }

  /** A maximal run of equal strings. */
  ghost predicate IsGroup(d: seq<char>, ptrs: seq<StrPtr>, lo: nat, hi: nat)
    requires Offsets(d, ptrs)
  {
    && lo < hi <= |ptrs|
    && (forall i :: lo <= i < hi ==> TextOf(d, ptrs, i) == TextOf(d, ptrs, lo))
    && (forall i :: 0 <= i < |ptrs| && (i < lo || hi <= i) ==> TextOf(d, ptrs, i) != TextOf(d, ptrs, lo))
  }

  method SetRange(res: seq<StrPtr>, lo: nat, hi: nat, newOff: nat) returns (r: seq<StrPtr>)
    requires lo <= hi <= |res|
    ensures |r| == |res|
    ensures forall i :: 0 <= i < |r| ==> r[i] == if lo <= i < hi then res[i].(newOff := newOff) else res[i]
  {
    r := res;
    for j := lo to hi
      invariant |r| == |res|
      invariant forall i :: 0 <= i < |r| ==> r[i] == if lo <= i < j then res[i].(newOff := newOff) else res[i]
    {
      r := r[j := r[j].(newOff := newOff)];
    }
  }

  ghost predicate AnyUsed(ptrs: seq<StrPtr>, lo: nat, hi: nat) {
    exists j :: lo <= j < hi && j < |ptrs| && ptrs[j].used
  }

  lemma GroupUsedIff(d: seq<char>, ptrs: seq<StrPtr>, lo: nat, hi: nat, i: nat)
    requires Offsets(d, ptrs) && IsGroup(d, ptrs, lo, hi) && lo <= i < hi
    ensures GroupUsed(d, ptrs, i) <==> AnyUsed(ptrs, lo, hi)
  {
    if GroupUsed(d, ptrs, i) {
      var j :| 0 <= j < |ptrs| && ptrs[j].used && TextOf(d, ptrs, j) == TextOf(d, ptrs, i);
      assert lo <= j < hi;
    }
    if AnyUsed(ptrs, lo, hi) {
      var j :| lo <= j < hi && ptrs[j].used;
      assert TextOf(d, ptrs, j) == TextOf(d, ptrs, i);
    }
  }

  /** Writing out one referenced group. */
  lemma EmitGroup(d: seq<char>, ptrs: seq<StrPtr>, res: seq<StrPtr>, out: seq<char>, lo: nat, hi: nat,
                  res': seq<StrPtr>)
    requires Offsets(d, ptrs) && IsGroup(d, ptrs, lo, hi) && Grouped(d, ptrs, res, out, lo) && AnyUsed(ptrs, lo, hi)
    requires |res'| == |res|
    requires forall i :: 0 <= i < |res| ==> res'[i] == if lo <= i < hi then res[i].(newOff := |out|) else res[i]
    requires lo == 0 ==> out == []
    ensures Grouped(d, ptrs, res', out + TextOf(d, ptrs, lo) + [NUL], hi)
  {
    hide GroupUsed, Stored, Source, Text, IsStart;
    var out' := out + TextOf(d, ptrs, lo) + [NUL];
    forall i | 0 <= i < hi && GroupUsed(d, ptrs, i)
      ensures Stored(d, ptrs, out', i, res'[i].newOff)
    {
      EmitStored(d, ptrs, out, lo, hi, i, res[i].newOff);
    }
    forall p: nat | IsStart(out', p)
      ensures Source(d, ptrs, res', hi, p)
    {
      EmitSource(d, ptrs, res, out, lo, hi, res', p);
    }
    forall i, j | 0 <= i < hi && 0 <= j < hi && TextOf(d, ptrs, i) == TextOf(d, ptrs, j) && GroupUsed(d, ptrs, i)
      ensures res'[i].newOff == res'[j].newOff
    {
      assert i < lo <==> j < lo;
    }
  }

  lemma EmitStored(d: seq<char>, ptrs: seq<StrPtr>, out: seq<char>, lo: nat, hi: nat, i: nat, newOff: nat)
    requires Offsets(d, ptrs) && IsGroup(d, ptrs, lo, hi) && i < hi && Closed(out)
    requires i < lo ==> Stored(d, ptrs, out, i, newOff)
    ensures Stored(d, ptrs, out + TextOf(d, ptrs, lo) + [NUL], i, if i < lo then newOff else |out|)
  {
    var s := TextOf(d, ptrs, lo);
    TextHasNoNul(d, ptrs[lo].off);
    TextAtEnd(out, s);
    if i < lo {
      TextAppend(out, s + [NUL], newOff);
      assert out + (s + [NUL]) == out + s + [NUL];
    }
  }

  lemma EmitSource(d: seq<char>, ptrs: seq<StrPtr>, res: seq<StrPtr>, out: seq<char>, lo: nat, hi: nat,
                   res': seq<StrPtr>, p: nat)
    requires Offsets(d, ptrs) && IsGroup(d, ptrs, lo, hi) && AnyUsed(ptrs, lo, hi) && |res'| == |res| == |ptrs|
    requires forall q: nat :: IsStart(out, q) ==> Source(d, ptrs, res, lo, q)
    requires forall i :: 0 <= i < |res| ==> res'[i] == if lo <= i < hi then res[i].(newOff := |out|) else res[i]
    requires IsStart(out + TextOf(d, ptrs, lo) + [NUL], p)
    ensures Source(d, ptrs, res', hi, p)
  {
    var s := TextOf(d, ptrs, lo);
    TextHasNoNul(d, ptrs[lo].off);
    if p < |out| {
      assert IsStart(out, p);
      var i :| 0 <= i < lo && GroupUsed(d, ptrs, i) && res[i].newOff == p;
      assert res'[i].newOff == p;
    } else {
      StartAtEnd(out, s, p);
      GroupUsedIff(d, ptrs, lo, hi, lo);
      assert res'[lo].newOff == p;
    }
  }

  lemma StartAtEnd(out: seq<char>, s: seq<char>, p: nat)
    requires NUL !in s && |out| <= p && IsStart(out + s + [NUL], p)
    ensures p == |out|
  {
    var e := out + s + [NUL];
    assert forall i :: |out| <= i < |out| + |s| ==> e[i] == s[i - |out|];
  }

  /** Leaving out an unreferenced group. */
  lemma SkipGroup(d: seq<char>, ptrs: seq<StrPtr>, res: seq<StrPtr>, out: seq<char>, lo: nat, hi: nat)
    requires Offsets(d, ptrs) && IsGroup(d, ptrs, lo, hi) && Grouped(d, ptrs, res, out, lo) && !AnyUsed(ptrs, lo, hi)
    ensures Grouped(d, ptrs, res, out, hi)
  {
    forall i | lo <= i < hi
      ensures !GroupUsed(d, ptrs, i)
    {
      GroupUsedIff(d, ptrs, lo, hi, i);
    }
    forall p: nat | IsStart(out, p)
      ensures Source(d, ptrs, res, hi, p)
    {
      var i :| 0 <= i < lo && GroupUsed(d, ptrs, i) && res[i].newOff == p;
    }
  }

  /** Walk the sorted entries group by group and write every referenced group once. */
  method Group(d: seq<char>, ptrs: seq<StrPtr>) returns (out: seq<char>, res: seq<StrPtr>)
    requires Offsets(d, ptrs) && SortedByContent(d, ptrs) && ptrs != []
    ensures Grouped(d, ptrs, res, out, |ptrs|)
    ensures |out| <= Weight(d, ptrs)
  {
    hide Text, Grouped, Weight, GroupUsed;
    out, res := [], ptrs;
    var n, grp, used := |ptrs|, 0, ptrs[0].used;
    NothingGrouped(d, ptrs);
    assert ptrs[..0] == [] && Weight(d, []) == 0 by { WeightNone(d); }
    for i := 1 to n + 1
      invariant 0 <= grp < n && |res| == n && (i <= n ==> grp < i)
      invariant i <= n ==> Grouped(d, ptrs, res, out, grp) && |out| <= Weight(d, ptrs[..grp])
      invariant i <= n && grp == 0 ==> out == []
      invariant i <= n ==> Run(d, ptrs, grp, i) && (used <==> AnyUsed(ptrs, grp, i))
      invariant i == n + 1 ==> Grouped(d, ptrs, res, out, n) && |out| <= Weight(d, ptrs)
    {
      if i < n && TextOf(d, ptrs, i) == TextOf(d, ptrs, grp) {
        used := used || ptrs[i].used;
        RunMore(d, ptrs, grp, i);
      } else {
        RunEnds(d, ptrs, grp, i);
        WeightGrows(d, ptrs, grp, i);
        if used {
          var res' := SetRange(res, grp, i, |out|);
          EmitGroup(d, ptrs, res, out, grp, i, res');
          res, out := res', out + TextOf(d, ptrs, grp) + [NUL];
        } else {
          SkipGroup(d, ptrs, res, out, grp, i);
        }
        if i < n {
          grp := i;
          used := ptrs[i].used;
        }
      }
    }
  }

  /** The entries lo..i read the same, and what comes before lo does not. */
  ghost predicate Run(d: seq<char>, ptrs: seq<StrPtr>, lo: nat, i: nat)
    requires Offsets(d, ptrs)
  {
    && lo < i <= |ptrs|
    && (forall j :: lo <= j < i ==> TextOf(d, ptrs, j) == TextOf(d, ptrs, lo))
    && (forall a, b :: 0 <= a < lo <= b < |ptrs| ==> TextOf(d, ptrs, a) != TextOf(d, ptrs, b))
  }

  lemma NothingGrouped(d: seq<char>, ptrs: seq<StrPtr>)
    requires Offsets(d, ptrs)
    ensures Grouped(d, ptrs, ptrs, [], 0)
  {
  }

  lemma WeightNone(d: seq<char>)
    requires |d| > 0 && d[|d| - 1] == NUL
    ensures Weight(d, []) == 0
  {
  }

  lemma RunMore(d: seq<char>, ptrs: seq<StrPtr>, lo: nat, i: nat)
    requires Offsets(d, ptrs) && Run(d, ptrs, lo, i) && i < |ptrs|
    ensures TextOf(d, ptrs, i) == TextOf(d, ptrs, lo) ==> Run(d, ptrs, lo, i + 1)
    ensures AnyUsed(ptrs, lo, i + 1) <==> AnyUsed(ptrs, lo, i) || ptrs[i].used
  {
    hide Text;
  }

  /** At the end of a run stands a whole group, and a new run begins. */
  lemma RunEnds(d: seq<char>, ptrs: seq<StrPtr>, lo: nat, i: nat)
    requires Offsets(d, ptrs) && SortedByContent(d, ptrs) && Run(d, ptrs, lo, i)
    requires i < |ptrs| ==> TextOf(d, ptrs, i) != TextOf(d, ptrs, lo)
    ensures IsGroup(d, ptrs, lo, i)
    ensures i < |ptrs| ==> Run(d, ptrs, i, i + 1) && (AnyUsed(ptrs, i, i + 1) <==> ptrs[i].used)
  {
    hide Text;
    forall a, b | 0 <= a < i <= b < |ptrs|
      ensures TextOf(d, ptrs, a) != TextOf(d, ptrs, b)
    {
      if lo <= a && TextOf(d, ptrs, a) == TextOf(d, ptrs, b) && i < b {
        LeqAntisymmetric(TextOf(d, ptrs, lo), TextOf(d, ptrs, i));
      }
    }
  }

  /** A group weighs at least as much as its first string. */
  lemma WeightGrows(d: seq<char>, ptrs: seq<StrPtr>, lo: nat, i: nat)
    requires Offsets(d, ptrs) && lo < i <= |ptrs|
    ensures Weight(d, ptrs[..lo]) + |TextOf(d, ptrs, lo)| + 1 <= Weight(d, ptrs[..i])
    ensures i == |ptrs| ==> ptrs[..i] == ptrs
    decreases i - lo
  {
    assert ptrs[..i] == ptrs[..i - 1] + [ptrs[i - 1]];
    WeightAppend(d, ptrs[..i - 1], ptrs[i - 1]);
    if lo < i - 1 {
      WeightGrows(d, ptrs, lo, i - 1);
    }
  }

  // ---------------------------------------------------------------- permutations

  lemma {:induction false} WeightRemove(d: seq<char>, ptrs: seq<StrPtr>, k: nat)
    requires Offsets(d, ptrs) && k < |ptrs|
    ensures Offsets(d, ptrs[..k] + ptrs[k + 1..])
    ensures Weight(d, ptrs) == StrLen(d, ptrs[k].off) + 1 + Weight(d, ptrs[..k] + ptrs[k + 1..])
  {
    var rest := ptrs[..k] + ptrs[k + 1..];
    if k == 0 {
      assert rest == ptrs[1..];
    } else {
      WeightRemove(d, ptrs[1..], k - 1);
      assert rest[1..] == ptrs[1..][..k - 1] + ptrs[1..][k..];
      assert rest[0] == ptrs[0];
    }
  }

  lemma RemoveEqual(a: seq<StrPtr>, b: seq<StrPtr>, k: nat)
    requires a != [] && k < |b| && b[k] == a[0] && multiset(a) == multiset(b)
    ensures multiset(a[1..]) == multiset(b[..k] + b[k + 1..])
  {
    assert a == [a[0]] + a[1..];
    assert b == b[..k] + [b[k]] + b[k + 1..];
    assert multiset(a[1..]) == multiset(a) - multiset{a[0]};
    assert multiset(b[..k] + b[k + 1..]) == multiset(b) - multiset{a[0]};
  }

  lemma {:induction false} WeightPermuted(d: seq<char>, a: seq<StrPtr>, b: seq<StrPtr>)
    requires Offsets(d, a) && Offsets(d, b) && multiset(a) == multiset(b)
    ensures Weight(d, a) == Weight(d, b)
    decreases |a|
  {
    if a == [] {
      assert |b| == |multiset(b)| == |multiset(a)| == 0;
    } else {
      assert a[0] in multiset(b);
      var k :| 0 <= k < |b| && b[k] == a[0];
      var rest := b[..k] + b[k + 1..];
      RemoveEqual(a, b, k);
      WeightRemove(d, b, k);
      WeightPermuted(d, a[1..], rest);
    }
  }

  /** A permutation of entries with distinct offsets has distinct offsets. */
  lemma PermutedDistinct(a: seq<StrPtr>, b: seq<StrPtr>)
    requires DistinctOffsets(a) && multiset(a) == multiset(b)
    ensures DistinctOffsets(b)
  {
    forall i, j | 0 <= i < j < |b|
      ensures b[i].off != b[j].off
    {
      PermutedDiffer(a, b, i, j);
    }
  }

  ghost predicate DistinctOffsets(ptrs: seq<StrPtr>) {
    forall i, j :: 0 <= i < j < |ptrs| ==> ptrs[i].off != ptrs[j].off
  }

  lemma PermutedDiffer(a: seq<StrPtr>, b: seq<StrPtr>, i: nat, j: nat)
    requires DistinctOffsets(a) && multiset(a) == multiset(b) && i < j < |b|
    ensures b[i].off != b[j].off
  {
    assert b[i] in multiset(b) && b[j] in multiset(b);
    var k :| 0 <= k < |a| && a[k] == b[i];
    var l :| 0 <= l < |a| && a[l] == b[j];
    OneCopy(a, k);
    TwoCopies(b, i, j);
  }

  lemma OneCopy(a: seq<StrPtr>, k: nat)
    requires DistinctOffsets(a) && k < |a|
    ensures multiset(a)[a[k]] == 1
  {
    assert a == a[..k] + [a[k]] + a[k + 1..];
    assert a[k] !in a[..k] && a[k] !in a[k + 1..];
  }

  lemma TwoCopies(b: seq<StrPtr>, i: nat, j: nat)
    requires i < j < |b|
    ensures b[i] == b[j] ==> multiset(b)[b[i]] >= 2
  {
    assert b == b[..j] + [b[j]] + b[j + 1..];
    assert b[i] in b[..j];
    assert multiset(b[..j])[b[i]] >= 1;
  }

  // ---------------------------------------------------------------- the pass

  /** A library sort: some permutation, in the given order. */
  ghost predicate SortsByContent(sort: seq<StrPtr> -> seq<StrPtr>, d: seq<char>) {
    forall s {:trigger sort(s)} :: Offsets(d, s) ==>
      multiset(sort(s)) == multiset(s) && Offsets(d, sort(s)) && SortedByContent(d, sort(s))
  }

  ghost predicate SortsByOffset(sort: seq<StrPtr> -> seq<StrPtr>) {
    forall s {:trigger sort(s)} :: multiset(sort(s)) == multiset(s)
      && forall i, j :: 0 <= i < j < |sort(s)| ==> sort(s)[i].off <= sort(s)[j].off
  }

  ghost predicate Distinct(out: seq<char>)
    requires |out| > 0 && out[|out| - 1] == NUL
  {
    forall p: nat, q: nat :: IsStart(out, p) && IsStart(out, q) && Text(out, p) == Text(out, q) ==> p == q
  }

  /** A reference reads the same before and after. */
  ghost predicate ReadsSame(d: seq<char>, out: seq<char>, off: nat, off': nat)
    requires |d| > 0 && d[|d| - 1] == NUL && |out| > 0 && out[|out| - 1] == NUL
  {
    off < |d| && off' < |out| && Text(out, off') == Text(d, off)
  }

  /** What the pass promises about the new section and the new offset of every reference. */
  ghost predicate Exact(d: seq<char>, refs: seq<nat>, out: seq<char>, rho: map<nat, nat>) {
    && Section(d) && Section(out) && |out| <= |d| && Distinct(out)
    && 0 in rho && rho[0] == 0
    && (forall k :: 0 <= k < |refs| ==> refs[k] in rho)
    && (forall a :: a in rho ==> ReadsSame(d, out, a, rho[a]) && IsStart(out, rho[a]))
    && (forall p: nat :: IsStart(out, p) ==> Needed(d, refs, out, p))
  }

  /** A string of the new section is the empty one or one that is referenced. */
  ghost predicate Needed(d: seq<char>, refs: seq<nat>, out: seq<char>, p: nat)
    requires |d| > 0 && d[|d| - 1] == NUL && p < |out| && out[|out| - 1] == NUL
  {
    || Text(out, p) == []
    || exists a :: a in refs && a < |d| && Text(d, a) == Text(out, p)
  }

  /** Offsets agree exactly when the strings do. */
  lemma EqualOffsetsIffEqualStrings(d: seq<char>, refs: seq<nat>, out: seq<char>, rho: map<nat, nat>, a: nat, b: nat)
    requires Exact(d, refs, out, rho) && a in rho && b in rho
    ensures a < |d| && b < |d| && (rho[a] == rho[b] <==> Text(d, a) == Text(d, b))
  {
    hide Text, IsStart;
    assert ReadsSame(d, out, a, rho[a]) && ReadsSame(d, out, b, rho[b]);
  }

  /** The sorted and grouped entries, looked at as a new section. */
  lemma GroupedSection(d: seq<char>, ptrs: seq<StrPtr>, refs: seq<nat>, res: seq<StrPtr>, out: seq<char>)
    requires Section(d) && Offsets(d, ptrs) && SortedByContent(d, ptrs) && Grouped(d, ptrs, res, out, |ptrs|)
    requires Marked(ptrs, refs)
    ensures Section(out) && Distinct(out) && Text(out, 0) == []
    ensures forall p: nat :: IsStart(out, p) ==> Needed(d, refs, out, p)
  {
    hide SortedByContent;
    EmptyFirst(d, ptrs);
    assert Stored(d, ptrs, out, 0, 0);
    assert Text(out, 0) == [] && out[0] == NUL;
    forall p: nat, q: nat | IsStart(out, p) && IsStart(out, q) && Text(out, p) == Text(out, q)
      ensures p == q
    {
      assert Source(d, ptrs, res, |ptrs|, p) && Source(d, ptrs, res, |ptrs|, q);
      var i :| 0 <= i < |ptrs| && GroupUsed(d, ptrs, i) && res[i].newOff == p;
      var j :| 0 <= j < |ptrs| && GroupUsed(d, ptrs, j) && res[j].newOff == q;
      assert Stored(d, ptrs, out, i, p) && Stored(d, ptrs, out, j, q);
    }
    forall p: nat | IsStart(out, p)
      ensures Needed(d, refs, out, p)
    {
      assert Source(d, ptrs, res, |ptrs|, p);
      var i :| 0 <= i < |ptrs| && GroupUsed(d, ptrs, i) && res[i].newOff == p;
      assert Stored(d, ptrs, out, i, p);
      var j :| 0 <= j < |ptrs| && ptrs[j].used && TextOf(d, ptrs, j) == TextOf(d, ptrs, i);
      assert Text(d, 0) == [];
    }
  }

  lemma EmptyFirst(d: seq<char>, ptrs: seq<StrPtr>)
    requires Section(d) && Offsets(d, ptrs) && SortedByContent(d, ptrs)
    requires HasUsed(ptrs, 0)
    ensures ptrs != [] && TextOf(d, ptrs, 0) == [] && GroupUsed(d, ptrs, 0)
  {
    var i :| 0 <= i < |ptrs| && ptrs[i].off == 0 && ptrs[i].used;
    assert TextOf(d, ptrs, i) == [];
    if i > 0 {
      assert Leq(TextOf(d, ptrs, 0), TextOf(d, ptrs, i));
    }
  }

  /** btf_str_remap_offset over all references. */
  method RemapOffsets(d: seq<char>, ptrs: seq<StrPtr>, res: seq<StrPtr>, out: seq<char>, byOff: seq<StrPtr>,
                      refs: seq<nat>)
    returns (rho: map<nat, nat>)
    requires Section(d) && Offsets(d, ptrs) && Grouped(d, ptrs, res, out, |ptrs|) && Section(out) && Text(out, 0) == []
    requires Ascending(byOff) && multiset(byOff) == multiset(res)
    requires Marked(ptrs, refs)
    ensures 0 in rho && rho[0] == 0 && forall k :: 0 <= k < |refs| ==> refs[k] in rho
    ensures forall a :: a in rho ==> ReadsSame(d, out, a, rho[a]) && IsStart(out, rho[a])
  {
    hide Grouped, Text, IsStart, ReadsSame, Offsets, StrLen, HasUsed;
    rho := map[0 := 0];
    ZeroReads(d, out);
    for k := 0 to |refs|
      invariant 0 in rho && rho[0] == 0 && forall j :: 0 <= j < k ==> refs[j] in rho
      invariant forall a :: a in rho ==> ReadsSame(d, out, a, rho[a]) && IsStart(out, rho[a])
    {
      if refs[k] != 0 {
        var j := Search(byOff, refs[k]);
        FoundAgain(d, ptrs, res, out, byOff, refs[k], j);
        rho := rho[refs[k] := byOff[j].newOff];
      }
    }
  }

  lemma ZeroReads(d: seq<char>, out: seq<char>)
    requires Section(d) && Section(out)
    ensures ReadsSame(d, out, 0, 0) && IsStart(out, 0)
  {
  }

  lemma FoundAgain(d: seq<char>, ptrs: seq<StrPtr>, res: seq<StrPtr>, out: seq<char>, byOff: seq<StrPtr>, off: nat,
                   j: int)
    requires Section(d) && Section(out) && Offsets(d, ptrs) && Grouped(d, ptrs, res, out, |ptrs|)
    requires multiset(byOff) == multiset(res)
    requires HasUsed(ptrs, off)
    requires j == -1 ==> !Listed(byOff, off)
    requires j != -1 ==> 0 <= j < |byOff| && byOff[j].off == off
    ensures 0 <= j < |byOff| && ReadsSame(d, out, off, byOff[j].newOff) && IsStart(out, byOff[j].newOff)
  {
    var i :| 0 <= i < |ptrs| && ptrs[i].off == off && ptrs[i].used;
    assert res[i] in multiset(byOff);
    var l :| 0 <= l < |byOff| && byOff[l] == res[i];
    assert byOff[l].off == off;
    assert Listed(byOff, off);
    assert byOff[j] in multiset(res);
    var m :| 0 <= m < |res| && res[m] == byOff[j];
    assert TextOf(d, ptrs, i) == TextOf(d, ptrs, m);
    assert GroupUsed(d, ptrs, m);
    assert Stored(d, ptrs, out, m, res[m].newOff);
  }

  ghost predicate HasUsed(ptrs: seq<StrPtr>, off: nat) {
    exists i :: 0 <= i < |ptrs| && ptrs[i].off == off && ptrs[i].used
  }

  /** Exactly the referenced strings and the first one are marked. */
  ghost predicate Marked(ptrs: seq<StrPtr>, refs: seq<nat>) {
    && HasUsed(ptrs, 0)
    && (forall k :: 0 <= k < |refs| && refs[k] != 0 ==> HasUsed(ptrs, refs[k]))
    && (forall i :: 0 <= i < |ptrs| && ptrs[i].used ==> ptrs[i].off == 0 || ptrs[i].off in refs)
  }

  lemma IndexOffsets(d: seq<char>, index: seq<StrPtr>, ptrs: seq<StrPtr>, refs: seq<nat>)
    requires Index(d, index) && SameOffsets(index, ptrs) && RefsOk(d, refs)
    requires ptrs != [] && ptrs[0].off == 0 && ptrs[0].used
    requires forall i :: 0 <= i < |ptrs| && ptrs[i].off in refs ==> ptrs[i].used
    requires forall i :: 0 <= i < |ptrs| && ptrs[i].used ==> ptrs[i].off == 0 || ptrs[i].off in refs
    ensures Offsets(d, ptrs) && Offsets(d, index) && DistinctOffsets(ptrs) && Marked(ptrs, refs)
  {
    assert forall i :: 0 <= i < |ptrs| ==> IsStart(d, index[i].off);
    forall k | 0 <= k < |refs| && refs[k] != 0
      ensures HasUsed(ptrs, refs[k])
    {
      assert IsStart(d, refs[k]) && Listed(index, refs[k]);
      var i :| 0 <= i < |index| && index[i].off == refs[k];
      assert ptrs[i].off in refs;
    }
  }

  lemma SortedFacts(ptrs: seq<StrPtr>, sorted: seq<StrPtr>, refs: seq<nat>)
    requires Marked(ptrs, refs) && multiset(sorted) == multiset(ptrs)
    ensures Marked(sorted, refs) && sorted != []
  {
    forall off | HasUsed(ptrs, off)
      ensures HasUsed(sorted, off)
    {
      var i :| 0 <= i < |ptrs| && ptrs[i].off == off && ptrs[i].used;
      assert ptrs[i] in multiset(sorted);
    }
    forall i | 0 <= i < |sorted| && sorted[i].used
      ensures sorted[i].off == 0 || sorted[i].off in refs
    {
      assert sorted[i] in multiset(ptrs);
    }
  }

  lemma GroupedOffsets(d: seq<char>, sorted: seq<StrPtr>, res: seq<StrPtr>, out: seq<char>)
    requires Offsets(d, sorted) && Grouped(d, sorted, res, out, |sorted|) && DistinctOffsets(sorted)
    ensures DistinctOffsets(res)
  {
  }

  lemma {:induction false} SameWeight(d: seq<char>, a: seq<StrPtr>, b: seq<StrPtr>)
    requires Offsets(d, a) && Offsets(d, b) && SameOffsets(a, b)
    ensures Weight(d, a) == Weight(d, b)
  {
    if a != [] {
      SameWeight(d, a[1..], b[1..]);
    }
  }

  /** btf_dedup_strings: fails exactly when a reference is not the start of a string. */
  method DedupStrings(d: seq<char>, refs: seq<nat>,
                      byContent: seq<StrPtr> -> seq<StrPtr>, byOffset: seq<StrPtr> -> seq<StrPtr>)
    returns (err: int, out: seq<char>, rho: map<nat, nat>)
    requires Section(d) && SortsByContent(byContent, d) && SortsByOffset(byOffset)
    ensures err == 0 <==> RefsOk(d, refs)
    ensures err == 0 ==> Exact(d, refs, out, rho)
  {
    hide Text, IsStart, Grouped, Weight, SortedByContent, Needed, Distinct, ReadsSame;
    out, rho := [], map[];
    var index := BuildIndex(d);
    var ptrs;
    err, ptrs := MarkUsed(d, index, refs);
    if err != 0 {
      return;
    }
    IndexOffsets(d, index, ptrs, refs);
    var sorted := byContent(ptrs);
    PermutedDistinct(ptrs, sorted);
    SortedFacts(ptrs, sorted, refs);
    var res;
    out, res := Group(d, sorted);
    GroupedOffsets(d, sorted, res, out);
    GroupedSection(d, sorted, refs, res, out);
    WeightPermuted(d, ptrs, sorted);
    SameWeight(d, index, ptrs);
    var back := byOffset(res);
    PermutedDistinct(res, back);
    rho := RemapOffsets(d, sorted, res, out, back, refs);
  }
}
