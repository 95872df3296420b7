/** The canonical map as a forest, and what the hypothetical map of btf_dedup_is_equiv has to
    satisfy (lib/libbpf/src/btf.c:2087-2361). */
module Forest {
  import opened Btf

  predicate Mapped(m: seq<nat>, i: nat)
    requires i < |m|
  {
    m[i] <= MAX_NR_TYPES
  }

  predicate IsRoot(m: seq<nat>, i: nat)
    requires i < |m|
  {
    !Mapped(m, i) || m[i] == i
  }

  /** Every link goes to a smaller rank, so following links never cycles. */
  ghost predicate Ranked(m: seq<nat>, rank: seq<nat>) {
    && |m| == |rank|
    && forall i :: 0 <= i < |m| && !IsRoot(m, i) ==> m[i] < |m| && rank[m[i]] < rank[i]
  }

  /** Where following links ends. */
  ghost function Root(m: seq<nat>, rank: seq<nat>, i: nat): (r: nat)
    requires Ranked(m, rank) && i < |m|
    ensures r < |m| && IsRoot(m, r)
    decreases rank[i]
  {
    if IsRoot(m, i) then i else Root(m, rank, m[i])
  }

  ghost function Lift(rank: seq<nat>, y: nat): (r: seq<nat>)
    ensures |r| == |rank|
  {
    seq(|rank|, i requires 0 <= i < |rank| => if i == y then 0 else rank[i] + 1)
  }

  /** Linking anything to a root other than itself keeps the forest. */
  lemma LinkToRoot(m: seq<nat>, rank: seq<nat>, x: nat, y: nat)
    requires Ranked(m, rank) && x < |m| && y < |m| && x != y && IsRoot(m, y)
    ensures Ranked(m[x := y], Lift(rank, y))
  {
  }

  /** Linking a node that nothing points to keeps the forest, whatever the target. */
  lemma LinkLeaf(m: seq<nat>, rank: seq<nat>, x: nat, y: nat)
    requires Ranked(m, rank) && x < |m| && y < |m| && x != y
    requires forall i :: 0 <= i < |m| && !IsRoot(m, i) ==> m[i] != x
    ensures Ranked(m[x := y], rank[x := rank[y] + 1])
  {
  }

  /** Linking one root to another redirects exactly the ids below it. */
  lemma {:induction false} LinkRoots(m: seq<nat>, rank: seq<nat>, x: nat, y: nat, i: nat)
    requires Ranked(m, rank) && x < |m| && y < |m| && i < |m| && x != y && IsRoot(m, x) && IsRoot(m, y)
    requires y <= MAX_NR_TYPES
    requires Ranked(m[x := y], Lift(rank, y))
    ensures Root(m[x := y], Lift(rank, y), i) == if Root(m, rank, i) == x then y else Root(m, rank, i)
    decreases rank[i]
  {
    if i != x && !IsRoot(m, i) {
      LinkRoots(m, rank, x, y, m[i]);
    }
  }
}

module Equivalence {
  import opened Btf
  import opened Fields
  import opened RecordCompare
  import opened Forest

  /** The part of the dedup state that an equivalence check reads. */
  datatype View = View(types: seq<BtfType>, canon: seq<nat>, rank: seq<nat>, noFwds: bool)

  ghost predicate ViewOk(g: View) {
    && Graph(g.types)
    && |g.canon| == |g.types|
    && Ranked(g.canon, g.rank)
  }

  /** The id itself, unless it is a FWD whose root is no FWD. */
  ghost function FwdTarget(g: View, c: nat): (r: nat)
    requires ViewOk(g) && c < |g.types|
    ensures r < |g.types|
  {
    if g.types[c].info.kind == KFwd && g.types[Root(g.canon, g.rank, c)].info.kind != KFwd
    then Root(g.canon, g.rank, c) else c
  }

  ghost predicate SameRoot(g: View, x: nat, c: nat)
    requires ViewOk(g) && x < |g.types| && c < |g.types|
  {
    Root(g.canon, g.rank, x) == Root(g.canon, g.rank, c)
  }

  /** Same representative, or paired by the hypothetical map. */
  ghost predicate Related(g: View, hyp: seq<nat>, x: nat, c: nat)
    requires ViewOk(g) && |hyp| == |g.types| && x < |g.types| && c < |g.types|
  {
    SameRoot(g, x, c) || hyp[FwdTarget(g, c)] == x
  }

  ghost predicate KidsRelated(g: View, hyp: seq<nat>, x: nat, c: nat)
    requires ViewOk(g) && |hyp| == |g.types| && x < |g.types| && c < |g.types|
  {
    && |Refs(g.types[x])| == |Refs(g.types[c])|
    && forall k :: 0 <= k < |Refs(g.types[x])| ==> Related(g, hyp, Refs(g.types[x])[k], Refs(g.types[c])[k])
  }

  /** A pair is fine if its records agree locally and their references are again related. */
  ghost predicate PairOk(g: View, hyp: seq<nat>, x: nat, c: nat)
    requires ViewOk(g) && |hyp| == |g.types| && x < |g.types| && c < |g.types|
  {
    match Compare(g.noFwds, g.types[x], g.types[c])
    case Leaf => true
    case Descend => KidsRelated(g, hyp, x, c)
    case _ => false
  }

  ghost predicate Entries(n: nat, hyp: seq<nat>) {
    |hyp| == n && forall c :: 0 <= c < |hyp| && Mapped(hyp, c) ==> hyp[c] < n
  }

  /** A bisimulation between canonical ids and candidate ids. */
  ghost predicate Witness(g: View, hyp: seq<nat>)
    requires ViewOk(g)
  {
    && Entries(|g.types|, hyp)
    && forall c :: 0 <= c < |hyp| && Mapped(hyp, c) ==> PairOk(g, hyp, hyp[c], c)
  }

  ghost predicate Extends(hyp: seq<nat>, hyp': seq<nat>) {
    |hyp| == |hyp'| && forall c :: 0 <= c < |hyp| && Mapped(hyp, c) ==> hyp'[c] == hyp[c]
  }

  /** Everything recorded since `hyp` is fine with respect to `hyp'`. */
  ghost predicate NewOk(g: View, hyp: seq<nat>, hyp': seq<nat>)
    requires ViewOk(g) && Entries(|g.types|, hyp') && |hyp| == |hyp'|
  {
    forall c :: 0 <= c < |hyp| && !Mapped(hyp, c) && Mapped(hyp', c) ==> PairOk(g, hyp', hyp'[c], c)
  }

  ghost function Free(hyp: seq<nat>): set<nat> {
    set c: nat | c < |hyp| && !Mapped(hyp, c)
  }

  lemma KidInRange(T: seq<BtfType>, i: nat, k: nat)
    requires Graph(T) && i < |T| && k < |Refs(T[i])|
    ensures Refs(T[i])[k] < |T|
  {
  }

  lemma RelatedMonotone(g: View, hyp: seq<nat>, hyp': seq<nat>, x: nat, c: nat)
    requires ViewOk(g) && Entries(|g.types|, hyp) && Entries(|g.types|, hyp') && x < |g.types| && c < |g.types|
    requires Extends(hyp, hyp') && Related(g, hyp, x, c)
    ensures Related(g, hyp', x, c)
  {
    assert x <= MAX_NR_TYPES;
  }

  lemma PairOkMonotone(g: View, hyp: seq<nat>, hyp': seq<nat>, x: nat, c: nat)
    requires ViewOk(g) && Entries(|g.types|, hyp) && Entries(|g.types|, hyp') && x < |g.types| && c < |g.types|
    requires Extends(hyp, hyp') && PairOk(g, hyp, x, c)
    ensures PairOk(g, hyp', x, c)
  {
    if Compare(g.noFwds, g.types[x], g.types[c]) == Descend {
      forall k | 0 <= k < |Refs(g.types[x])|
        ensures Related(g, hyp', Refs(g.types[x])[k], Refs(g.types[c])[k])
      {
        RelatedMonotone(g, hyp, hyp', Refs(g.types[x])[k], Refs(g.types[c])[k]);
      }
    }
  }

  lemma NewOkStart(g: View, hyp: seq<nat>)
    requires ViewOk(g) && Entries(|g.types|, hyp)
    ensures NewOk(g, hyp, hyp)
  {
  }

  lemma NewOkTrans(g: View, h0: seq<nat>, h1: seq<nat>, h2: seq<nat>)
    requires ViewOk(g) && Entries(|g.types|, h1) && Entries(|g.types|, h2)
    requires Extends(h0, h1) && Extends(h1, h2)
    requires NewOk(g, h0, h1) && NewOk(g, h1, h2)
    ensures NewOk(g, h0, h2)
  {
    forall c | 0 <= c < |h0| && !Mapped(h0, c) && Mapped(h2, c)
      ensures PairOk(g, h2, h2[c], c)
    {
      if Mapped(h1, c) {
        PairOkMonotone(g, h1, h2, h1[c], c);
      }
    }
  }

  /** Starting from a cleared map, a positive answer leaves a bisimulation. */
  lemma FreshWitness(g: View, h0: seq<nat>, h1: seq<nat>)
    requires ViewOk(g) && Entries(|g.types|, h1) && |h0| == |h1|
    requires forall c :: 0 <= c < |h0| ==> h0[c] == UNPROCESSED
    requires NewOk(g, h0, h1)
    ensures Witness(g, h1)
  {
    assert forall c :: 0 <= c < |h0| ==> !Mapped(h0, c);
  }

  // ---------------------------------------------------------------- soundness

  ghost predicate MapSound(T: seq<BtfType>, m: seq<nat>)
    requires Graph(T)
  {
    |m| == |T| && forall i :: 0 <= i < |m| && Mapped(m, i) ==> m[i] < |T| && Same(T, i, m[i])
  }

  lemma {:induction false} RootSame(T: seq<BtfType>, m: seq<nat>, rank: seq<nat>, i: nat)
    requires Graph(T) && Ranked(m, rank) && MapSound(T, m) && i < |m|
    ensures Same(T, i, Root(m, rank, i))
    decreases rank[i]
  {
    if !IsRoot(m, i) {
      RootSame(T, m, rank, m[i]);
      assert Same(T, i, m[i]);
    }
  }

  lemma FwdTargetStays(g: View, c: nat)
    requires ViewOk(g) && MapSound(g.types, g.canon) && c < |g.types|
    ensures FwdTarget(g, c) == c
  {
    RootSame(g.types, g.canon, g.rank, c);
    SameShape(g.types, c, Root(g.canon, g.rank, c));
  }

  /** Related ids of a bisimulation unfold alike, to every depth. */
  lemma {:induction false} RelatedUnfold(g: View, hyp: seq<nat>, x: nat, c: nat, n: nat)
    requires ViewOk(g) && g.noFwds && MapSound(g.types, g.canon) && Witness(g, hyp)
    requires x < |g.types| && c < |g.types| && Related(g, hyp, x, c)
    ensures Unfold(g.types, x, n) == Unfold(g.types, c, n)
    decreases n
  {
    if SameRoot(g, x, c) {
      RootSame(g.types, g.canon, g.rank, x);
      RootSame(g.types, g.canon, g.rank, c);
      assert Unfold(g.types, x, n) == Unfold(g.types, Root(g.canon, g.rank, x), n);
      assert Unfold(g.types, c, n) == Unfold(g.types, Root(g.canon, g.rank, c), n);
    } else {
      FwdTargetStays(g, c);
      assert PairOk(g, hyp, x, c);
      CompareMeaning(g.noFwds, g.types[x], g.types[c]);
      PairUnfold(g, hyp, x, c, n);
    }
  }

  lemma UnfoldZero(T: seq<BtfType>, x: nat, c: nat)
    requires Graph(T) && x < |T| && c < |T|
    ensures Unfold(T, x, 0) == Unfold(T, c, 0)
  {
  }

  lemma {:induction false} PairUnfold(g: View, hyp: seq<nat>, x: nat, c: nat, n: nat)
    requires ViewOk(g) && g.noFwds && MapSound(g.types, g.canon) && Witness(g, hyp)
    requires x < |g.types| && c < |g.types|
    requires g.types[x] == g.types[c]
          || (Shape(g.types[x]) == Shape(g.types[c]) && KidsRelated(g, hyp, x, c))
    ensures Unfold(g.types, x, n) == Unfold(g.types, c, n)
    decreases n, 0
  {
    hide Unfold, Witness, MapSound, Shape, Refs;
    if n == 0 {
      UnfoldZero(g.types, x, c);
    } else {
      if g.types[x] == g.types[c] {
        UnfoldCongruence(g.types, x, g.types, c, n);
      } else {
        assert |Refs(g.types[x])| == |Refs(g.types[c])|;
        forall k | 0 <= k < |Refs(g.types[x])|
          ensures Unfold(g.types, Refs(g.types[x])[k], n - 1) == Unfold(g.types, Refs(g.types[c])[k], n - 1)
        {
          RelatedUnfold(g, hyp, Refs(g.types[x])[k], Refs(g.types[c])[k], n - 1);
        }
        UnfoldCongruence(g.types, x, g.types, c, n);
      }
    }
  }

  /** Soundness: what a bisimulation relates means the same. */
  lemma RelatedSame(g: View, hyp: seq<nat>, x: nat, c: nat)
    requires ViewOk(g) && g.noFwds && MapSound(g.types, g.canon) && Witness(g, hyp)
    requires x < |g.types| && c < |g.types| && Related(g, hyp, x, c)
    ensures Same(g.types, x, c)
  {
    forall n: nat
      ensures Unfold(g.types, x, n) == Unfold(g.types, c, n)
    {
      RelatedUnfold(g, hyp, x, c, n);
    }
  }

  lemma RecordedSame(g: View, hyp: seq<nat>, c: nat)
    requires ViewOk(g) && g.noFwds && MapSound(g.types, g.canon) && Witness(g, hyp)
    requires c < |g.types| && Mapped(hyp, c)
    ensures Same(g.types, hyp[c], c)
  {
    FwdTargetStays(g, c);
    RelatedSame(g, hyp, hyp[c], c);
  }

  // ---------------------------------------------------------------- what equivalence means, with or without FWDs

  /** Side by side down to depth n, in kinds and fields: ids of one representative; or a pair that answers
      for each other, the canonical side being what its FWD has been resolved to; or equal records but for
      the type ids, which again match in pairs. */
  ghost predicate MatchDown(g: View, x: nat, c: nat, n: nat)
    requires ViewOk(g)
    decreases n
  {
    && x < |g.types| && c < |g.types|
    && (n == 0 || Root(g.canon, g.rank, x) == Root(g.canon, g.rank, c)
        || var root := Root(g.canon, g.rank, c);
           var d := if g.types[c].info.kind == KFwd && g.types[root].info.kind != KFwd then root else c;
           || AnswersFor(g.noFwds, g.types[x], g.types[d])
           || (&& g.types[x].info.kind !in {KUnkn, KInt, KEnum, KFwd, KVar, KDatasec}
               && SameFields((a, b) => a == b, g.types[x], g.types[d])
               && forall a: nat, b: nat :: Paired(g.types[x], g.types[d], a, b) ==> MatchDown(g, a, b, n - 1)))
  }

  /** What a bisimulation relates matches at every depth, FWD resolution on or off. */
  lemma {:induction false} RelatedMatches(g: View, hyp: seq<nat>, x: nat, c: nat, n: nat)
    requires ViewOk(g) && Witness(g, hyp) && x < |g.types| && c < |g.types| && Related(g, hyp, x, c)
    ensures MatchDown(g, x, c, n)
    decreases n
  {
    hide Graph, Refs, Shape, SameFields, Paired, WellFormed, Compare, AnswersFor, PairOk;
    if n > 0 && !SameRoot(g, x, c) {
      var d := FwdTarget(g, c);
      RecordedPairOk(g, hyp, x, d);
      VerdictIff(g.noFwds, g.types[x], g.types[d]);
      if !AnswersFor(g.noFwds, g.types[x], g.types[d]) {
        PairKids(g, hyp, x, d);
        forall a: nat, b: nat | Paired(g.types[x], g.types[d], a, b)
          ensures MatchDown(g, a, b, n - 1)
        {
          PairedIff(g.types[x], g.types[d], a, b);
          var k :| 0 <= k < |Refs(g.types[x])| && Refs(g.types[x])[k] == a && Refs(g.types[d])[k] == b;
          RelatedMatches(g, hyp, a, b, n - 1);
        }
      }
    }
  }

  /** A positive answer from a cleared map. */
  lemma PositiveMatches(g: View, h0: seq<nat>, h1: seq<nat>, x: nat, c: nat)
    requires ViewOk(g) && Entries(|g.types|, h1) && |h0| == |h1| && x < |g.types| && c < |g.types|
    requires NewOk(g, h0, h1) && Related(g, h1, x, c)
    ensures Cleared(h0) ==> forall n: nat :: MatchDown(g, x, c, n)
  {
    hide NewOk, MatchDown, Related, Witness;
    if Cleared(h0) {
      FreshWitness(g, h0, h1);
      forall n: nat
        ensures MatchDown(g, x, c, n)
      {
        RelatedMatches(g, h1, x, c, n);
      }
    }
  }

  ghost predicate Cleared(hyp: seq<nat>) {
    forall c :: 0 <= c < |hyp| ==> hyp[c] == UNPROCESSED
  }

  lemma RecordedPairOk(g: View, hyp: seq<nat>, x: nat, d: nat)
    requires ViewOk(g) && Witness(g, hyp) && x < |g.types| && d < |g.types| && hyp[d] == x
    ensures PairOk(g, hyp, x, d) && WellFormed(g.types[x]) && WellFormed(g.types[d])
    ensures Compare(g.noFwds, g.types[x], g.types[d]) == Leaf || Compare(g.noFwds, g.types[x], g.types[d]) == Descend
  {
    hide Compare, KidsRelated;
    assert |g.types| <= MAX_NR_TYPES + 1;
    assert Mapped(hyp, d);
  }

  lemma PairKids(g: View, hyp: seq<nat>, x: nat, d: nat)
    requires ViewOk(g) && |hyp| == |g.types| && x < |g.types| && d < |g.types| && PairOk(g, hyp, x, d)
    requires Compare(g.noFwds, g.types[x], g.types[d]) == Descend
    ensures g.types[x].info == g.types[d].info && |Refs(g.types[x])| == |Refs(g.types[d])|
    ensures forall k :: 0 <= k < |Refs(g.types[x])| ==>
              && Refs(g.types[x])[k] < |g.types| && Refs(g.types[d])[k] < |g.types|
              && Related(g, hyp, Refs(g.types[x])[k], Refs(g.types[d])[k])
  {
    hide Refs, Compare;
    CompareMeaning(g.noFwds, g.types[x], g.types[d]);
  }
}
