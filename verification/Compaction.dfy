/** Renumbering of the canonical types: compaction and remapping, on values
    (lib/libbpf/src/btf.c:2683-2863). */
module Compaction {
  import opened Btf
  import opened RecordCompare
  import opened Forest
  import opened Equivalence
  import opened DedupState

  predicate Canonical(canon: seq<nat>, i: nat)
    requires i < |canon|
  {
    canon[i] == i
  }

  /** How many of the ids 1..i are canonical. */
  ghost function Count(canon: seq<nat>, i: nat): nat
    requires i < |canon|
  {
    if i == 0 then 0 else Count(canon, i - 1) + (if Canonical(canon, i) then 1 else 0)
  }

  /** The records and the renumbering that compaction leaves. */
  ghost predicate Compacted(T: seq<BtfType>, canon: seq<nat>, T': seq<BtfType>, nu: seq<nat>) {
    && 0 < |T| == |canon| == |nu|
    && |T'| == Count(canon, |T| - 1) + 1
    && T'[0] == T[0] && nu[0] == 0
    && forall i :: 0 < i < |T| ==>
         if Canonical(canon, i) then nu[i] == Count(canon, i) && nu[i] < |T'| && T'[nu[i]] == T[i]
         else nu[i] == UNPROCESSED
  }

  /** The state of the compaction loop before id i. */
  ghost predicate Halfway(T: seq<BtfType>, canon: seq<nat>, T': seq<BtfType>, nu: seq<nat>, i: nat) {
    && 0 < i <= |T| == |T'| == |canon| == |nu|
    && T'[0] == T[0] && nu[0] == 0 && Count(canon, i - 1) < i
    && (forall j :: i <= j < |T| ==> T'[j] == T[j] && nu[j] == UNPROCESSED)
    && (forall j :: 0 < j < i ==> Placed(T, canon, T', nu, j))
  }

  ghost predicate Placed(T: seq<BtfType>, canon: seq<nat>, T': seq<BtfType>, nu: seq<nat>, j: nat)
    requires j < |T| == |T'| == |canon| == |nu|
  {
    if Canonical(canon, j) then nu[j] == Count(canon, j) && nu[j] < |T'| && T'[nu[j]] == T[j]
    else nu[j] == UNPROCESSED
  }

  lemma SkipOne(T: seq<BtfType>, canon: seq<nat>, T': seq<BtfType>, nu: seq<nat>, i: nat)
    requires Halfway(T, canon, T', nu, i) && i < |T| && !Canonical(canon, i)
    ensures Halfway(T, canon, T', nu, i + 1)
  {
  }

  lemma MoveOne(T: seq<BtfType>, canon: seq<nat>, T': seq<BtfType>, nu: seq<nat>, i: nat, next: nat)
    requires Halfway(T, canon, T', nu, i) && i < |T| && Canonical(canon, i) && next == Count(canon, i - 1) + 1
    ensures Halfway(T, canon, T'[next := T'[i]], nu[i := next], i + 1)
  {
    hide Canonical;
    var U, mu := T'[next := T'[i]], nu[i := next];
    forall j | 0 < j < i
      ensures Placed(T, canon, U, mu, j)
    {
      assert Placed(T, canon, T', nu, j);
      CountBound(canon, j, i - 1);
    }
  }

  lemma AllMoved(T: seq<BtfType>, canon: seq<nat>, T': seq<BtfType>, nu: seq<nat>)
    requires Halfway(T, canon, T', nu, |T|)
    ensures Compacted(T, canon, T'[..Count(canon, |T| - 1) + 1], nu)
  {
    hide Canonical;
    var n := Count(canon, |T| - 1) + 1;
    forall j | 0 < j < |T|
      ensures if Canonical(canon, j) then nu[j] == Count(canon, j) && nu[j] < n && T'[..n][nu[j]] == T[j]
              else nu[j] == UNPROCESSED
    {
      assert Placed(T, canon, T', nu, j);
      CountBound(canon, j, |T| - 1);
    }
  }

  lemma CountStep(canon: seq<nat>, i: nat)
    requires i < |canon|
    ensures Count(canon, i) == if i == 0 then 0 else Count(canon, i - 1) + (if Canonical(canon, i) then 1 else 0)
  {
  }

  lemma {:induction false} CountBound(canon: seq<nat>, i: nat, j: nat)
    requires i <= j < |canon|
    ensures Count(canon, i) <= Count(canon, j) <= Count(canon, i) + (j - i)
    ensures i < j && Canonical(canon, j) ==> Count(canon, i) < Count(canon, j)
    decreases j
  {
    if i < j {
      CountBound(canon, i, j - 1);
    }
  }

  /** Every new id comes from a canonical id. */
  lemma {:induction false} CountOnto(canon: seq<nat>, i: nat, c: nat) returns (j: nat)
    requires i < |canon| && 0 < c <= Count(canon, i)
    ensures 0 < j <= i && Canonical(canon, j) && Count(canon, j) == c
  {
    if Canonical(canon, i) && Count(canon, i) == c {
      j := i;
    } else {
      j := CountOnto(canon, i - 1, c);
    }
  }

  ghost predicate Taken(canon: seq<nat>, nu: seq<nat>, c: nat)
    requires |nu| == |canon|
  {
    exists i :: 0 < i < |canon| && Canonical(canon, i) && nu[i] == c
  }

  /** The renumbering is an order-preserving bijection from canonical ids to 1..k. */
  lemma Renumbering(T: seq<BtfType>, canon: seq<nat>, T': seq<BtfType>, nu: seq<nat>)
    requires Compacted(T, canon, T', nu)
    ensures forall i, j :: 0 <= i < j < |T| && (i == 0 || Canonical(canon, i)) && Canonical(canon, j) ==> nu[i] < nu[j]
    ensures forall c :: 0 < c < |T'| ==> Taken(canon, nu, c)
  {
    forall i, j | 0 <= i < j < |T| && (i == 0 || Canonical(canon, i)) && Canonical(canon, j)
      ensures nu[i] < nu[j]
    {
      CountBound(canon, i, j);
    }
    forall c | 0 < c < |T'|
      ensures Taken(canon, nu, c)
    {
      var i := CountOnto(canon, |T| - 1, c);
      assert nu[i] == c;
    }
  }

  // ---------------------------------------------------------------- remapping

  /** Everything is mapped, so following the map ends at canonical ids. */
  ghost predicate Finished(orig: seq<BtfType>, g: View, listed: set<nat>) {
    && Core(orig, g, listed) && LinksMapped(g.canon) && RefCanon(g.types, g.canon) && RootsKept(orig, g)
    && forall i :: 0 <= i < |g.canon| ==> Mapped(g.canon, i)
  }

  /** The final id of an input id. */
  ghost function Final(g: View, nu: seq<nat>, i: nat): nat
    requires ViewOk(g) && |nu| == |g.types| && i < |g.types|
  {
    nu[Root(g.canon, g.rank, i)]
  }

  ghost function FinalRefs(g: View, nu: seq<nat>, rs: seq<nat>): (r: seq<nat>)
    requires ViewOk(g) && |nu| == |g.types| && forall k :: 0 <= k < |rs| ==> rs[k] < |g.types|
    ensures |r| == |rs|
  {
    seq(|rs|, k requires 0 <= k < |rs| => Final(g, nu, rs[k]))
  }

  ghost predicate RefsIn(n: nat, t: BtfType) {
    WellFormed(t) && forall k :: 0 <= k < |Refs(t)| ==> Refs(t)[k] < n
  }

  /** What remapping makes of the compacted records. */
  ghost predicate Remapped(g: View, nu: seq<nat>, T: seq<BtfType>, T': seq<BtfType>)
    requires ViewOk(g) && |nu| == |g.types|
  {
    && |T| == |T'| > 0 && T'[0] == T[0]
    && forall j :: 0 < j < |T| ==> RefsIn(|g.types|, T[j]) && T'[j] == WithRefs(T[j], FinalRefs(g, nu, Refs(T[j])))
  }

  lemma FinalInRange(orig: seq<BtfType>, g: View, listed: set<nat>, T: seq<BtfType>, nu: seq<nat>, i: nat)
    requires Finished(orig, g, listed) && Compacted(g.types, g.canon, T, nu) && i < |g.types|
    ensures Canonical(g.canon, Root(g.canon, g.rank, i)) && Final(g, nu, i) < |T|
    ensures Final(g, nu, i) <= MAX_NR_TYPES
  {
    hide Core, Graph, RefCanon, LinksMapped, Count, RootsKept, Root, WellFormed, Shape, Refs;
    CoreFacts(orig, g, listed);
    RootMapped(g.canon, g.rank, i);
    CountStep(g.canon, 0);
    CountBound(g.canon, 0, |g.types| - 1);
    GraphSize(g.types);
  }

  /** The record that an input id ends up with. */
  lemma FinalRecord(orig: seq<BtfType>, g: View, listed: set<nat>, T1: seq<BtfType>, nu: seq<nat>, T2: seq<BtfType>,
                    i: nat)
    requires Finished(orig, g, listed) && Compacted(g.types, g.canon, T1, nu) && Remapped(g, nu, T1, T2)
    requires i < |g.types|
    ensures var r, f := Root(g.canon, g.rank, i), Final(g, nu, i);
            && f < |T2| && WellFormed(T2[f]) && Shape(T2[f]) == Shape(g.types[r])
            && |Refs(T2[f])| == |Refs(g.types[r])|
            && forall k :: 0 <= k < |Refs(T2[f])| ==>
                 Refs(g.types[r])[k] < |g.types| && Refs(T2[f])[k] == Final(g, nu, Refs(g.types[r])[k])
  {
    hide Core, RefCanon, LinksMapped, RootsKept;
    CoreFacts(orig, g, listed);
    var r, f := Root(g.canon, g.rank, i), Final(g, nu, i);
    FinalInRange(orig, g, listed, T1, nu, i);
    if r != 0 {
      assert T1[f] == g.types[r] && f > 0 by { CountBound(g.canon, 0, r); }
      WithRefsLaws(T1[f], FinalRefs(g, nu, Refs(T1[f])));
    }
  }

  // ---------------------------------------------------------------- the theorems

  /** The output is again a type table. */
  lemma OutputGraph(orig: seq<BtfType>, g: View, listed: set<nat>, T1: seq<BtfType>, nu: seq<nat>, T2: seq<BtfType>)
    requires Finished(orig, g, listed) && Compacted(g.types, g.canon, T1, nu) && Remapped(g, nu, T1, T2)
    ensures Graph(T2)
  {
    hide Finished, Remapped, Compacted, Refs, WellFormed;
    assert ViewOk(g) by { FinishedView(orig, g, listed); }
    OutputSize(g, T1, nu, T2);
    forall j | 0 < j < |T2|
      ensures WellFormed(T2[j]) && T2[j].info.kind != KUnkn && RefsIn(|T2|, T2[j])
    {
      OutputRecord(orig, g, listed, T1, nu, T2, j);
    }
    VoidRecord(|T2|);
  }

  lemma FinishedView(orig: seq<BtfType>, g: View, listed: set<nat>)
    requires Finished(orig, g, listed)
    ensures ViewOk(g)
  {
  }

  lemma VoidRecord(n: nat)
    ensures WellFormed(VOID) && RefsIn(n, VOID)
  {
  }

  lemma OutputRecord(orig: seq<BtfType>, g: View, listed: set<nat>, T1: seq<BtfType>, nu: seq<nat>, T2: seq<BtfType>,
                     j: nat)
    requires Finished(orig, g, listed) && Compacted(g.types, g.canon, T1, nu) && Remapped(g, nu, T1, T2)
    requires 0 < j < |T2|
    ensures WellFormed(T2[j]) && T2[j].info.kind != KUnkn && RefsIn(|T2|, T2[j])
  {
    hide Core, RefCanon, LinksMapped, RootsKept, Remapped, Compacted, Final, Refs, Graph, WellFormed, Shape;
    CoreFacts(orig, g, listed);
    OutputSize(g, T1, nu, T2);
    var i := Source(g, T1, nu, j);
    RootOfCanonical(g, i);
    FinalOf(g, nu, i);
    FinalRecord(orig, g, listed, T1, nu, T2, i);
    ShapeAndRefs(T2[j], g.types[i]);
    forall k | 0 <= k < |Refs(T2[j])|
      ensures Refs(T2[j])[k] < |T2|
    {
      FinalInRange(orig, g, listed, T1, nu, Refs(g.types[i])[k]);
    }
  }

  lemma OutputSize(g: View, T1: seq<BtfType>, nu: seq<nat>, T2: seq<BtfType>)
    requires ViewOk(g) && Compacted(g.types, g.canon, T1, nu) && Remapped(g, nu, T1, T2)
    ensures 1 <= |T2| == |T1| <= MAX_NR_TYPES + 1 && T2[0] == VOID
  {
    CountBound(g.canon, 0, |g.types| - 1);
  }

  lemma Source(g: View, T1: seq<BtfType>, nu: seq<nat>, j: nat) returns (i: nat)
    requires ViewOk(g) && Compacted(g.types, g.canon, T1, nu) && 0 < j < |T1|
    ensures 0 < i < |g.types| == |nu| && Canonical(g.canon, i) && nu[i] == j
  {
    Renumbering(g.types, g.canon, T1, nu);
    assert Taken(g.canon, nu, j);
    i :| 0 < i < |g.canon| && Canonical(g.canon, i) && nu[i] == j;
  }

  lemma RootOfCanonical(g: View, i: nat)
    requires ViewOk(g) && i < |g.types| && Canonical(g.canon, i)
    ensures Root(g.canon, g.rank, i) == i
  {
  }

  lemma FinalOf(g: View, nu: seq<nat>, i: nat)
    requires ViewOk(g) && i < |g.types| && Canonical(g.canon, i) && |nu| == |g.types|
    ensures Final(g, nu, i) == nu[i]
  {
  }

  /** Deduplication without FWD resolution preserves meaning, to every depth. */
  lemma {:induction false} MeaningPreserved(orig: seq<BtfType>, g: View, listed: set<nat>,
                                            T1: seq<BtfType>, nu: seq<nat>, T2: seq<BtfType>, i: nat, n: nat)
    requires Finished(orig, g, listed) && Compacted(g.types, g.canon, T1, nu) && Remapped(g, nu, T1, T2)
    requires g.noFwds && i < |g.types| && Graph(T2)
    ensures Final(g, nu, i) < |T2| && Unfold(T2, Final(g, nu, i), n) == Unfold(orig, i, n)
    decreases n
  {
    hide RefCanon, LinksMapped, RootsKept, Remapped, Count, Final, Unfold, Same, Shape, Refs, Graph, Core;
    CoreFacts(orig, g, listed);
    CoreMapSound(orig, g, listed);
    var r, f := Root(g.canon, g.rank, i), Final(g, nu, i);
    FinalRecord(orig, g, listed, T1, nu, T2, i);
    RootSame(orig, g.canon, g.rank, i);
    if n == 0 {
      UnfoldNothing(T2, f, orig, i);
    } else {
      KidsInRange(T2, f);
      CoreKids(orig, g, listed, r);
      forall k | 0 <= k < |Refs(T2[f])|
        ensures Unfold(T2, Refs(T2[f])[k], n - 1) == Unfold(orig, Refs(orig[r])[k], n - 1)
      {
        var x := Refs(g.types[r])[k];
        MeaningPreserved(orig, g, listed, T1, nu, T2, x, n - 1);
        SameAt(orig, x, Refs(orig[r])[k], n - 1);
      }
      UnfoldCongruence(T2, f, orig, r, n);
      SameAt(orig, i, r, n);
    }
  }

  lemma KidsInRange(T: seq<BtfType>, i: nat)
    requires Graph(T) && i < |T|
    ensures forall k :: 0 <= k < |Refs(T[i])| ==> Refs(T[i])[k] < |T|
  {
  }

  /** A record's references mean what they meant originally. */
  lemma CoreKids(orig: seq<BtfType>, g: View, listed: set<nat>, r: nat)
    requires Core(orig, g, listed) && g.noFwds && r < |g.types|
    ensures Shape(g.types[r]) == Shape(orig[r]) && |Refs(g.types[r])| == |Refs(orig[r])|
    ensures forall k :: 0 <= k < |Refs(orig[r])| ==>
              && Refs(g.types[r])[k] < |orig| && Refs(orig[r])[k] < |orig|
              && Same(orig, Refs(g.types[r])[k], Refs(orig[r])[k])
  {
    hide Same, Shape, Refs;
    KidsInRange(g.types, r);
    KidsInRange(orig, r);
    assert RefSound(orig, g.types, r);
  }

  lemma UnfoldNothing(T: seq<BtfType>, i: nat, U: seq<BtfType>, j: nat)
    requires Graph(T) && Graph(U) && i < |T| && j < |U|
    ensures Unfold(T, i, 0) == Unfold(U, j, 0)
  {
  }

  lemma SameAt(T: seq<BtfType>, i: nat, j: nat, n: nat)
    requires Graph(T) && i < |T| && j < |T| && Same(T, i, j)
    ensures Unfold(T, i, n) == Unfold(T, j, n)
  {
  }

  /** The output holds no two equal records of an exactly compared kind. */
  lemma OutputDistinct(orig: seq<BtfType>, g: View, listed: set<nat>, T1: seq<BtfType>, nu: seq<nat>, T2: seq<BtfType>,
                       a: nat, b: nat)
    requires Finished(orig, g, listed) && Compacted(g.types, g.canon, T1, nu) && Remapped(g, nu, T1, T2)
    requires 0 < a < b < |T2| && ExactKind(T2[a].info.kind)
    ensures T2[a] != T2[b]
  {
    hide LinksMapped, Remapped, Compacted, Final, Same, Shape, Refs, Graph, ListedOk, Slots, RefCanon, Distinct,
         Meaning, RootsKept;
    CoreFacts(orig, g, listed);
    OutputSize(g, T1, nu, T2);
    var i := Source(g, T1, nu, a);
    var j := Source(g, T1, nu, b);
    RootOfCanonical(g, i);
    RootOfCanonical(g, j);
    FinalOf(g, nu, i);
    FinalOf(g, nu, j);
    FinalRecord(orig, g, listed, T1, nu, T2, i);
    FinalRecord(orig, g, listed, T1, nu, T2, j);
    ShapeAndRefs(T2[a], g.types[i]);
    DistinctAt(g, i, j);
    if T2[a] == T2[b] {
      SourcesEqual(orig, g, listed, T1, nu, T2[a], i, j);
    }
  }

  lemma DistinctAt(g: View, i: nat, j: nat)
    requires Distinct(g.types, g.canon) && 0 < i < |g.types| && 0 < j < |g.types| && i != j
    requires Canonical(g.canon, i) && Canonical(g.canon, j) && ExactKind(g.types[i].info.kind)
    ensures g.types[i] != g.types[j]
  {
    if j < i && ExactKind(g.types[j].info.kind) {
      assert g.types[j] != g.types[i];
    }
  }

  /** Canonical ids whose output records agree carried equal records before. */
  lemma SourcesEqual(orig: seq<BtfType>, g: View, listed: set<nat>, T1: seq<BtfType>, nu: seq<nat>, t: BtfType, i: nat,
                     j: nat)
    requires Finished(orig, g, listed) && Compacted(g.types, g.canon, T1, nu)
    requires i < |g.types| && j < |g.types| && Canonical(g.canon, i) && Canonical(g.canon, j)
    requires WellFormed(t) && ExactKind(t.info.kind) && Shape(t) == Shape(g.types[i]) == Shape(g.types[j])
    requires |Refs(t)| == |Refs(g.types[i])| == |Refs(g.types[j])|
    requires forall k :: 0 <= k < |Refs(t)| ==>
               && Refs(g.types[i])[k] < |g.types| && Refs(t)[k] == Final(g, nu, Refs(g.types[i])[k])
               && Refs(g.types[j])[k] < |g.types| && Refs(t)[k] == Final(g, nu, Refs(g.types[j])[k])
    ensures g.types[i] == g.types[j]
  {
    hide Core, LinksMapped, RootsKept, Compacted, Final, Same, Shape, Graph, Refs, WellFormed;
    CoreFacts(orig, g, listed);
    ShapeAndRefs(t, g.types[i]);
    ShapeAndRefs(t, g.types[j]);
    forall k | 0 <= k < |Refs(t)|
      ensures Refs(g.types[i])[k] == Refs(g.types[j])[k]
    {
      ExactWithRefs(g.types[i]);
      SameNumber(orig, g, listed, T1, nu, Refs(g.types[i])[k], Refs(g.types[j])[k]);
    }
    assert Refs(g.types[i]) == Refs(g.types[j]);
    ShapeAndRefs(g.types[i], g.types[j]);
  }

  lemma ExactWithRefs(t: BtfType)
    requires WellFormed(t) && ExactKind(t.info.kind) && |Refs(t)| > 0
    ensures RefKind(t.info.kind)
  {
  }

  /** The renumbering is injective on canonical ids. */
  lemma SameNumber(orig: seq<BtfType>, g: View, listed: set<nat>, T1: seq<BtfType>, nu: seq<nat>, x: nat, y: nat)
    requires Finished(orig, g, listed) && Compacted(g.types, g.canon, T1, nu)
    requires x < |g.types| && y < |g.types| && Canonical(g.canon, x) && Canonical(g.canon, y)
    requires Final(g, nu, x) == Final(g, nu, y)
    ensures x == y
  {
    hide Core, LinksMapped, RootsKept, RefCanon, Final, Graph, Count;
    CoreFacts(orig, g, listed);
    FinalOf(g, nu, x);
    FinalOf(g, nu, y);
    Renumbering(g.types, g.canon, T1, nu);
  }

  /** Before remapping: records are in range, and no remap can fail. */
  lemma CompactedRefs(orig: seq<BtfType>, g: View, listed: set<nat>, T1: seq<BtfType>, nu: seq<nat>)
    requires Finished(orig, g, listed) && Compacted(g.types, g.canon, T1, nu)
    ensures |T1| > 0 && |nu| == |g.types| && ViewOk(g)
    ensures forall j :: 0 < j < |T1| ==> RefsIn(|g.types|, T1[j])
    ensures forall i :: 0 <= i < |g.types| ==> Final(g, nu, i) <= MAX_NR_TYPES
  {
    hide Core, RefCanon, LinksMapped, RootsKept, Final, Refs, Count;
    CoreFacts(orig, g, listed);
    forall j | 0 < j < |T1|
      ensures RefsIn(|g.types|, T1[j])
    {
      var i := Source(g, T1, nu, j);
      KidsInRange(g.types, i);
    }
    forall i | 0 <= i < |g.types|
      ensures Final(g, nu, i) <= MAX_NR_TYPES
    {
      FinalInRange(orig, g, listed, T1, nu, i);
    }
  }
}
