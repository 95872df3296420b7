/** What every step of the dedup passes keeps, on values. */
module DedupState {
  import opened Btf
  import opened Fields
  import opened RecordCompare
  import opened Forest
  import opened Equivalence

  /** Kinds that some pass enters into the candidate table. */
  predicate TableKind(k: Kind) {
    k != KUnkn && k != KVar && k != KDatasec
  }

  /** Records whose canonical choice is final: everything but FWDs and enum forward declarations. */
  predicate Settled(t: BtfType) {
    t.info.kind != KFwd && !IsEnumFwd(t)
  }

  ghost predicate Slots(canon: seq<nat>) {
    && forall i :: 0 <= i < |canon| ==> Mapped(canon, i) || canon[i] == UNPROCESSED || canon[i] == IN_PROGRESS
  }

  /** The table lists exactly the canonical ids, and perhaps forward declarations resolved since. */
  ghost predicate ListedOk(T: seq<BtfType>, canon: seq<nat>, listed: set<nat>) {
    && |canon| == |T|
    && (forall v :: v in listed ==> 0 < v < |T| && Mapped(canon, v) && TableKind(T[v].info.kind))
    && (forall v :: v in listed && Settled(T[v]) ==> canon[v] == v)
    && (forall v :: 0 < v < |T| && canon[v] == v && TableKind(T[v].info.kind) ==> v in listed)
  }

  /** No two canonical ids of an exactly compared kind carry the same record. */
  ghost predicate Distinct(T: seq<BtfType>, canon: seq<nat>) {
    && |canon| == |T|
    && forall a, b :: 0 < a < b < |T| && canon[a] == a && canon[b] == b && ExactKind(T[a].info.kind) ==> T[a] != T[b]
  }

  ghost predicate ShapesKept(orig: seq<BtfType>, T: seq<BtfType>)
    requires Graph(orig) && Graph(T)
  {
    |orig| == |T| && forall i :: 0 <= i < |T| ==> Shape(T[i]) == Shape(orig[i]) && |Refs(T[i])| == |Refs(orig[i])|
  }

  ghost predicate RefSound(orig: seq<BtfType>, T: seq<BtfType>, i: nat)
    requires Graph(orig) && Graph(T) && ShapesKept(orig, T) && i < |T|
  {
    forall k :: 0 <= k < |Refs(T[i])| ==> Same(orig, Refs(T[i])[k], Refs(orig[i])[k])
  }

  /** References may have been replaced by ids of the same meaning. */
  ghost predicate RefsSound(orig: seq<BtfType>, T: seq<BtfType>)
    requires Graph(orig) && Graph(T) && ShapesKept(orig, T)
  {
    forall i :: 0 <= i < |T| ==> RefSound(orig, T, i)
  }

  ghost predicate Meaning(orig: seq<BtfType>, T: seq<BtfType>, canon: seq<nat>)
    requires Graph(orig) && Graph(T) && ShapesKept(orig, T)
  {
    RefsSound(orig, T) && MapSound(orig, canon)
  }

  /** What may represent a record of this kind, whatever FWD resolution does. */
  ghost predicate Stays(t: BtfType, u: BtfType) {
    StandsIn((a, b) => a == b, t, u)
  }

  /** Every id is mapped to a record that may stand for its own. */
  ghost predicate Kin(orig: seq<BtfType>, canon: seq<nat>) {
    && |canon| == |orig|
    && forall i :: 0 <= i < |canon| && Mapped(canon, i) ==> canon[i] < |orig| && Stays(orig[i], orig[canon[i]])
  }

  lemma {:induction false} KinRoot(orig: seq<BtfType>, canon: seq<nat>, rank: seq<nat>, i: nat)
    requires Kin(orig, canon) && Ranked(canon, rank) && i < |canon|
    ensures Stays(orig[i], orig[Root(canon, rank, i)])
    decreases rank[i]
  {
    StandsForItself(orig[i]);
    if !IsRoot(canon, i) {
      KinRoot(orig, canon, rank, canon[i]);
      StandsTrans(orig[i], orig[canon[i]], orig[Root(canon, rank, i)]);
    }
  }

  /** One name, and one kind when a FWD counts as what it announces. */
  ghost predicate Akin(t: BtfType, u: BtfType) {
    t.name == u.name && Announced(t) == Announced(u)
  }

  function Announced(t: BtfType): Kind {
    if t.info.kind != KFwd then t.info.kind else if t.info.kflag then KUnion else KStruct
  }

  lemma StaysAkin(t: BtfType, u: BtfType)
    requires Stays(t, u)
    ensures Akin(t, u)
  {
    hide SameTail;
  }

  lemma AkinStays(t: BtfType, u: BtfType)
    requires Akin(t, u) && u.info.kind != KFwd && (t.info.kind == KFwd || IsComposite(t.info.kind))
    ensures Stays(t, u)
  {
    hide SameTail;
  }

  /** Records that the equivalence check accepts as a pair. */
  lemma PairAkin(noFwds: bool, t: BtfType, u: BtfType)
    requires WellFormed(t) && WellFormed(u)
    requires Compare(noFwds, t, u) == Leaf || Compare(noFwds, t, u) == Descend
    ensures Akin(t, u)
  {
    hide Compare, SameTail;
    VerdictIff(noFwds, t, u);
  }

  lemma RootsAkin(orig: seq<BtfType>, canon: seq<nat>, rank: seq<nat>, t: nat, c: nat)
    requires Kin(orig, canon) && Ranked(canon, rank) && t < |canon| && c < |canon| && Akin(orig[t], orig[c])
    ensures Akin(orig[Root(canon, rank, t)], orig[Root(canon, rank, c)])
    ensures Akin(orig[Root(canon, rank, c)], orig[Root(canon, rank, t)])
  {
    hide Stays;
    KinRoot(orig, canon, rank, t);
    KinRoot(orig, canon, rank, c);
    StaysAkin(orig[t], orig[Root(canon, rank, t)]);
    StaysAkin(orig[c], orig[Root(canon, rank, c)]);
  }

  lemma EnumStays(t: BtfType, u: BtfType)
    requires WellFormed(t) && WellFormed(u) && t.info.kind == KEnum && CompatEnum(t, u) && IsEnumFwd(t)
    ensures Stays(t, u)
  {
  }

  lemma StructStays(t: BtfType, u: BtfType)
    requires WellFormed(t) && WellFormed(u) && IsComposite(t.info.kind) && ShallowEqualStruct(t, u)
    ensures Stays(t, u)
  {
  }

  lemma KinUpdate(orig: seq<BtfType>, canon: seq<nat>, x: nat, y: nat)
    requires Kin(orig, canon) && x < |orig| && y < |orig| && Stays(orig[x], orig[y])
    ensures Kin(orig, canon[x := y])
  {
    hide Stays;
  }

  lemma KinPromote(orig: seq<BtfType>, canon: seq<nat>, x: nat)
    requires Kin(orig, canon) && x < |orig|
    ensures Kin(orig, canon[x := x])
  {
    hide StandsIn;
    StandsForItself(orig[x]);
  }

  lemma KinBusy(orig: seq<BtfType>, canon: seq<nat>, x: nat)
    requires Kin(orig, canon) && x < |orig|
    ensures Kin(orig, canon[x := IN_PROGRESS])
  {
    hide Stays;
  }

  /** The invariant of all passes. */
  ghost predicate Core(orig: seq<BtfType>, g: View, listed: set<nat>) {
    && Graph(orig) && ViewOk(g) && ShapesKept(orig, g.types)
    && g.canon[0] == 0 && Slots(g.canon)
    && ListedOk(g.types, g.canon, listed)
    && Distinct(g.types, g.canon) && Kin(orig, g.canon)
    && (g.noFwds ==> Meaning(orig, g.types, g.canon))
  }

  /** Consequences of the invariant that the passes use. */
  lemma CoreFacts(orig: seq<BtfType>, g: View, listed: set<nat>)
    requires Core(orig, g, listed)
    ensures Graph(orig) && Graph(g.types) && ViewOk(g)
    ensures 1 <= |g.types| <= MAX_NR_TYPES + 1 && |g.types| == |g.canon| == |g.rank| == |orig|
    ensures forall i :: 0 <= i < |g.types| ==> WellFormed(g.types[i]) && WellFormed(orig[i])
    ensures forall i :: 0 <= i < |g.types| ==> (g.types[i].info.kind == KUnkn <==> i == 0)
    ensures forall v :: v in listed ==> 0 < v < |g.types| && Mapped(g.canon, v)
    ensures forall v :: v in listed && Settled(g.types[v]) ==> g.canon[v] == v
  {
  }

  lemma CoreAt(orig: seq<BtfType>, g: View, listed: set<nat>, v: nat)
    requires Core(orig, g, listed)
    ensures |g.canon| == |g.types| && (v in listed ==> v < |g.types| && Mapped(g.canon, v))
    ensures v < |g.types| ==> WellFormed(g.types[v])
  {
  }

  lemma CoreShapesKept(orig: seq<BtfType>, g: View, listed: set<nat>)
    requires Core(orig, g, listed)
    ensures ViewOk(g) && Graph(orig) && ShapesKept(orig, g.types)
  {
  }

  lemma CoreKin(orig: seq<BtfType>, g: View, listed: set<nat>)
    requires Core(orig, g, listed)
    ensures Kin(orig, g.canon) && ViewOk(g) && |orig| == |g.types|
  {
  }

  lemma CoreSlots(orig: seq<BtfType>, g: View, listed: set<nat>)
    requires Core(orig, g, listed)
    ensures |g.canon| > 0 && g.canon[0] == 0 && Slots(g.canon)
  {
  }

  lemma CoreShapes(orig: seq<BtfType>, g: View, listed: set<nat>)
    requires Core(orig, g, listed)
    ensures forall i :: 0 <= i < |g.types| ==> g.types[i].info == orig[i].info && |Refs(g.types[i])| == |Refs(orig[i])|
  {
    hide Slots;
    forall i | 0 <= i < |g.types|
      ensures g.types[i].info == orig[i].info
    {
      ShapeAndRefs(g.types[i], orig[i]);
    }
  }

  /** Nothing is mapped to an id that is not mapped itself. */
  ghost predicate LinksMapped(canon: seq<nat>) {
    forall i :: 0 <= i < |canon| && Mapped(canon, i) ==> canon[i] < |canon| && Mapped(canon, canon[i])
  }

  /** What is mapped stays mapped. */
  ghost predicate Grows(c0: seq<nat>, c1: seq<nat>) {
    |c0| == |c1| && forall i :: 0 <= i < |c0| && Mapped(c0, i) ==> Mapped(c1, i)
  }

  /** Among the unmapped ids only `id` changes. */
  ghost predicate OnlyMaps(c0: seq<nat>, c1: seq<nat>, id: nat) {
    |c0| == |c1| && forall i :: 0 <= i < |c0| && i != id && !Mapped(c0, i) ==> c1[i] == c0[i]
  }

  /** One write that links a root to a different root; the linked root is a FWD or was not mapped. */
  ghost predicate RootLink(T: seq<BtfType>, c0: seq<nat>, c1: seq<nat>, x: nat, y: nat) {
    && x < |c0| == |T| && y < |c0| && x != y && c1 == c0[x := y]
    && IsRoot(c0, x) && IsRoot(c0, y)
    && (T[x].info.kind == KFwd || !Mapped(c0, x))
  }

  /** Canonical records other than FWDs stay canonical. */
  ghost predicate KeepsCanonical(T: seq<BtfType>, c0: seq<nat>, c1: seq<nat>) {
    && |c0| == |c1| == |T|
    && forall i :: 0 <= i < |c0| && Mapped(c0, i) && c0[i] == i && T[i].info.kind != KFwd ==> c1[i] == i
  }

  /** A full enum takes over listed forward declarations, and nothing else changes. */
  ghost predicate TakenOver(T: seq<BtfType>, c0: seq<nat>, c1: seq<nat>, listed: set<nat>, id: nat) {
    && |c0| == |c1| == |T|
    && forall i :: 0 <= i < |c0| && c1[i] != c0[i] ==> i in listed && IsEnumFwd(T[i]) && c1[i] == id
  }

  lemma NothingTaken(T: seq<BtfType>, canon: seq<nat>, listed: set<nat>, id: nat)
    requires |canon| == |T|
    ensures TakenOver(T, canon, canon, listed, id)
  {
  }

  lemma TakenMore(T: seq<BtfType>, c0: seq<nat>, c1: seq<nat>, c2: seq<nat>, listed: set<nat>, id: nat)
    requires TakenOver(T, c0, c1, listed, id) && TakenOver(T, c1, c2, listed, id)
    ensures TakenOver(T, c0, c2, listed, id)
  {
  }

  lemma PrimNothing(T: seq<BtfType>, canon: seq<nat>, id: nat)
    ensures OnlyMaps(canon, canon, id)
  {
  }

  /** A primitive step: some mapped ids are redirected to `id`, then `id` itself is mapped. */
  lemma PrimLinks(T: seq<BtfType>, listed: set<nat>, c0: seq<nat>, c1: seq<nat>, id: nat, target: nat)
    requires LinksMapped(c0) && |c0| == |c1| <= MAX_NR_TYPES + 1 && id < |c0| && target < |c0|
    requires !Mapped(c0, id) && !Mapped(c1, id) && (target == id || Mapped(c0, target))
    requires TakenOver(T, c0, c1, listed, id) && forall v :: v in listed ==> v < |c0| && Mapped(c0, v)
    ensures LinksMapped(c1[id := target]) && Grows(c0, c1[id := target]) && OnlyMaps(c0, c1[id := target], id)
    ensures c1 == c0 ==> forall i :: 0 <= i < |c1| && !IsRoot(c1, i) ==> c1[i] != id
  {
    PrimGrows(T, listed, c0, c1, id, target);
    PrimMapped(T, listed, c0, c1, id, target);
    hide Grows, OnlyMaps, TakenOver;
  }

  lemma PrimMapped(T: seq<BtfType>, listed: set<nat>, c0: seq<nat>, c1: seq<nat>, id: nat, target: nat)
    requires LinksMapped(c0) && |c0| == |c1| <= MAX_NR_TYPES + 1 && id < |c0| && target < |c0|
    requires !Mapped(c0, id) && !Mapped(c1, id) && (target == id || Mapped(c0, target))
    requires TakenOver(T, c0, c1, listed, id) && forall v :: v in listed ==> v < |c0| && Mapped(c0, v)
    ensures LinksMapped(c1[id := target])
  {
    hide IsEnumFwd;
    var c2 := c1[id := target];
    forall i | 0 <= i < |c2| && Mapped(c2, i)
      ensures c2[i] < |c2| && Mapped(c2, c2[i])
    {
      assert i != id && c1[i] == c0[i] ==> Mapped(c0, c0[i]);
    }
  }

  lemma PrimGrows(T: seq<BtfType>, listed: set<nat>, c0: seq<nat>, c1: seq<nat>, id: nat, target: nat)
    requires |c0| == |c1| <= MAX_NR_TYPES + 1 && id < |c0| && target < |c0|
    requires !Mapped(c0, id) && !Mapped(c1, id) && (target == id || Mapped(c0, target))
    requires TakenOver(T, c0, c1, listed, id) && forall v :: v in listed ==> v < |c0| && Mapped(c0, v)
    ensures Grows(c0, c1[id := target]) && OnlyMaps(c0, c1[id := target], id)
  {
  }

  /** An id with no equal among the listed ones becomes canonical. */
  lemma Promote(orig: seq<BtfType>, g: View, listed: set<nat>, id: nat)
    requires Core(orig, g, listed) && 0 < id < |g.types| && !Mapped(g.canon, id)
    requires TableKind(g.types[id].info.kind)
    requires ExactKind(g.types[id].info.kind) ==> forall v :: v in listed ==> g.types[v] != g.types[id]
    ensures Core(orig, g.(canon := g.canon[id := id]), listed + {id})
  {
    hide Graph, Same, RefsSound, ListedOk, Distinct, Kin, Stays;
    GraphSize(g.types);
    KinPromote(orig, g.canon, id);
    PromoteListed(g.types, g.canon, listed, id);
    if g.noFwds {
      SameReflexive(orig, id);
      MapSoundUpdate(orig, g.canon, id, id);
    }
  }

  lemma PromoteListed(T: seq<BtfType>, canon: seq<nat>, listed: set<nat>, id: nat)
    requires ListedOk(T, canon, listed) && Distinct(T, canon) && |T| <= MAX_NR_TYPES + 1
    requires 0 < id < |T| && TableKind(T[id].info.kind)
    requires !Mapped(canon, id)
    requires ExactKind(T[id].info.kind) ==> forall v :: v in listed ==> T[v] != T[id]
    ensures ListedOk(T, canon[id := id], listed + {id}) && Distinct(T, canon[id := id])
  {
    var c := canon[id := id];
    forall a, b | 0 < a < b < |T| && c[a] == a && c[b] == b && ExactKind(T[a].info.kind)
      ensures T[a] != T[b]
    {
      assert a != id ==> a in listed;
      assert b != id && TableKind(T[b].info.kind) ==> b in listed;
    }
  }

  lemma SameReflexive(T: seq<BtfType>, i: nat)
    requires Graph(T) && i < |T|
    ensures Same(T, i, i)
  {
  }

  lemma SameTrans(T: seq<BtfType>, i: nat, j: nat, k: nat)
    requires Graph(T) && i < |T| && j < |T| && k < |T| && Same(T, i, j) && Same(T, j, k)
    ensures Same(T, i, k) && Same(T, k, i) && Same(T, j, i)
  {
    forall n: nat
      ensures Unfold(T, i, n) == Unfold(T, k, n)
    {
      assert Unfold(T, i, n) == Unfold(T, j, n);
    }
  }

  lemma MapSoundUpdate(T: seq<BtfType>, m: seq<nat>, x: nat, y: nat)
    requires Graph(T) && MapSound(T, m) && x < |T| && y < |T| && Same(T, x, y)
    ensures MapSound(T, m[x := y])
  {
  }

  /** An id that is not canonical is mapped to one that is. */
  lemma Redirect(orig: seq<BtfType>, g: View, listed: set<nat>, x: nat, y: nat)
    requires Core(orig, g, listed) && 0 < x < |g.types| && y < |g.types| && x != y
    requires IsRoot(g.canon, y)
    requires x in listed ==> !Settled(g.types[x])
    requires x < |orig| && y < |orig| && Stays(orig[x], orig[y])
    requires g.noFwds ==> Same(orig, x, y)
    ensures Core(orig, g.(canon := g.canon[x := y], rank := Lift(g.rank, y)), listed)
  {
    hide Graph, Same, RefsSound, Kin, Stays, ShapesKept;
    var c := g.canon[x := y];
    KinUpdate(orig, g.canon, x, y);
    LinkToRoot(g.canon, g.rank, x, y);
    assert y <= MAX_NR_TYPES by { assert Graph(g.types); GraphSize(g.types); }
    assert ListedOk(g.types, c, listed);
    if g.noFwds {
      MapSoundUpdate(orig, g.canon, x, y);
    }
  }

  /** The same for an id nothing points to yet, and any target. */
  lemma RedirectLeaf(orig: seq<BtfType>, g: View, listed: set<nat>, x: nat, y: nat)
    requires Core(orig, g, listed) && 0 < x < |g.types| && y < |g.types| && x != y && !Mapped(g.canon, x)
    requires forall i :: 0 <= i < |g.canon| && !IsRoot(g.canon, i) ==> g.canon[i] != x
    requires x < |orig| && y < |orig| && Stays(orig[x], orig[y])
    requires g.noFwds ==> Same(orig, x, y)
    ensures Core(orig, g.(canon := g.canon[x := y], rank := g.rank[x := g.rank[y] + 1]), listed)
  {
    hide Graph, Same, RefsSound, Kin, Stays, ShapesKept;
    var c := g.canon[x := y];
    KinUpdate(orig, g.canon, x, y);
    LinkLeaf(g.canon, g.rank, x, y);
    GraphSize(g.types);
    assert ListedOk(g.types, c, listed);
    if g.noFwds {
      MapSoundUpdate(orig, g.canon, x, y);
    }
  }

  lemma GraphSize(T: seq<BtfType>)
    requires Graph(T)
    ensures 1 <= |T| <= MAX_NR_TYPES + 1
  {
  }

  /** Equal records, as the passes see them, have the same original meaning. */
  lemma EqualRecordsSame(orig: seq<BtfType>, T: seq<BtfType>, x: nat, y: nat)
    requires Graph(orig) && Graph(T) && ShapesKept(orig, T) && x < |T| && y < |T|
    requires RefSound(orig, T, x) && RefSound(orig, T, y)
    requires T[x] == T[y]
    ensures Same(orig, x, y)
  {
    hide Same, Shape, Refs;
    forall k | 0 <= k < |Refs(orig[x])|
      ensures Same(orig, Refs(orig[x])[k], Refs(orig[y])[k])
    {
      KidInRange(T, x, k);
      KidInRange(orig, x, k);
      KidInRange(orig, y, k);
      SameSymmetric(orig, Refs(T[x])[k], Refs(orig[x])[k]);
      SameTrans(orig, Refs(orig[x])[k], Refs(T[x])[k], Refs(orig[y])[k]);
    }
    SameFromKids(orig, x, y);
  }

  /** Equal records, whatever was written into them, come from records that stand for each other. */
  lemma CoreEqualStays(orig: seq<BtfType>, g: View, listed: set<nat>, x: nat, y: nat)
    requires Core(orig, g, listed) && x < |g.types| && y < |g.types| && g.types[x] == g.types[y]
    ensures x < |orig| && y < |orig| && Stays(orig[x], orig[y])
  {
    hide Same, Shape, Refs, Kin, ListedOk, Distinct, Slots, Ranked, Meaning;
    ShapeIff(orig[x], orig[y]);
    ShapesStay(orig[x], orig[y]);
  }

  lemma ShapesStay(t: BtfType, u: BtfType)
    requires SameFields((a, b) => a == b, t, u)
    ensures Stays(t, u)
  {
  }

  lemma CoreEqualSame(orig: seq<BtfType>, g: View, listed: set<nat>, x: nat, y: nat)
    requires Core(orig, g, listed) && g.noFwds && x < |g.types| && y < |g.types| && g.types[x] == g.types[y]
    ensures Same(orig, x, y)
  {
    hide Same, Graph;
    EqualRecordsSame(orig, g.types, x, y);
  }

  lemma SameSymmetric(T: seq<BtfType>, i: nat, j: nat)
    requires Graph(T) && i < |T| && j < |T| && Same(T, i, j)
    ensures Same(T, j, i)
  {
    forall n: nat
      ensures Unfold(T, j, n) == Unfold(T, i, n)
    {
      assert Unfold(T, i, n) == Unfold(T, j, n);
    }
  }

  lemma CoreMapSound(orig: seq<BtfType>, g: View, listed: set<nat>)
    requires Core(orig, g, listed) && g.noFwds
    ensures Graph(orig) && MapSound(orig, g.canon)
  {
  }

  /** Ids of equal meaning have representatives of equal meaning. */
  lemma CoreRootsSame(orig: seq<BtfType>, g: View, listed: set<nat>, t: nat, c: nat)
    requires Core(orig, g, listed) && g.noFwds && t < |g.types| && c < |g.types| && Same(orig, t, c)
    ensures Same(orig, Root(g.canon, g.rank, t), Root(g.canon, g.rank, c))
    ensures Same(orig, Root(g.canon, g.rank, c), Root(g.canon, g.rank, t))
  {
    hide Same, Graph;
    RootSame(orig, g.canon, g.rank, t);
    RootSame(orig, g.canon, g.rank, c);
    var rt, rc := Root(g.canon, g.rank, t), Root(g.canon, g.rank, c);
    SameSymmetric(orig, t, rt);
    SameTrans(orig, rt, t, c);
    SameTrans(orig, rt, c, rc);
  }

  // ---------------------------------------------------------------- before the reference pass

  /** Kinds that the reference pass handles. */
  predicate RefKind(k: Kind) {
    DescendKind(k) && !IsComposite(k)
  }

  /** Until the reference pass, reference types are untouched and nothing is mapped to one. */
  ghost predicate Early(T: seq<BtfType>, canon: seq<nat>) {
    && |canon| == |T|
    && forall i :: 0 <= i < |T| ==>
         if RefKind(T[i].info.kind) then canon[i] == UNPROCESSED
         else Mapped(canon, i) ==> canon[i] < |T| && !RefKind(T[canon[i]].info.kind)
  }

  lemma EarlyLink(T: seq<BtfType>, canon: seq<nat>, x: nat, y: nat)
    requires Early(T, canon) && x < |T| && y < |T| && !RefKind(T[x].info.kind) && !RefKind(T[y].info.kind)
    ensures Early(T, canon[x := y])
  {
  }

  lemma PrimEarly(T: seq<BtfType>, c0: seq<nat>, c1: seq<nat>, listed: set<nat>, id: nat, target: nat)
    requires Early(T, c0) && TakenOver(T, c0, c1, listed, id) && id < |T| && target < |T|
    requires !RefKind(T[id].info.kind) && !RefKind(T[target].info.kind)
    ensures Early(T, c1[id := target])
  {
  }

  /** Recorded pairs have one name, and one kind up to FWDs. */
  lemma PairKinds(g: View, hyp: seq<nat>, c: nat)
    requires ViewOk(g) && Witness(g, hyp) && c < |hyp| && Mapped(hyp, c)
    ensures Akin(g.types[hyp[c]], g.types[c])
  {
    hide Compare, Akin, KidsRelated;
    assert PairOk(g, hyp, hyp[c], c);
    PairAkin(g.noFwds, g.types[hyp[c]], g.types[c]);
  }

  // ---------------------------------------------------------------- the reference pass

  /** Canonical reference types refer to canonical ids. */
  ghost predicate RefCanon(T: seq<BtfType>, canon: seq<nat>)
    requires Graph(T) && |canon| == |T|
  {
    forall i, k :: 0 <= i < |T| && RefKind(T[i].info.kind) && canon[i] == i && 0 <= k < |Refs(T[i])| ==>
      canon[Refs(T[i])[k]] == Refs(T[i])[k]
  }

  ghost predicate Late(orig: seq<BtfType>, T: seq<BtfType>, canon: seq<nat>)
    requires Graph(T) && |canon| == |T| == |orig|
  {
    && LinksMapped(canon)
    && (forall i :: 0 <= i < |T| && !RefKind(T[i].info.kind) ==> Mapped(canon, i))
    && (forall i :: 0 <= i < |T| && canon[i] == UNPROCESSED ==> T[i] == orig[i])
    && RefCanon(T, canon)
  }

  /** A reference step leaves alone what was mapped or in progress; the rest is either
      untouched or now mapped. */
  ghost predicate RefStep(T0: seq<BtfType>, c0: seq<nat>, T1: seq<BtfType>, c1: seq<nat>) {
    && |T0| == |T1| == |c0| == |c1|
    && (forall i :: 0 <= i < |c0| && c0[i] != UNPROCESSED ==> c1[i] == c0[i] && T1[i] == T0[i])
    && (forall i :: 0 <= i < |c0| && c0[i] == UNPROCESSED ==> c1[i] == UNPROCESSED || Mapped(c1, i))
  }

  ghost function Unseen(canon: seq<nat>): set<nat> {
    set i: nat | i < |canon| && canon[i] == UNPROCESSED
  }

  /** References between reference types go down: no cycle avoids a struct or union. */
  ghost predicate Layered(T: seq<BtfType>, depth: seq<nat>)
    requires Graph(T)
  {
    && |depth| == |T|
    && forall i, k :: 0 <= i < |T| && RefKind(T[i].info.kind) && 0 <= k < |Refs(T[i])| ==>
         (RefKind(T[Refs(T[i])[k]].info.kind) ==> depth[Refs(T[i])[k]] < depth[i])
  }

  ghost predicate BusyAbove(canon: seq<nat>, depth: seq<nat>, d: nat) {
    |depth| == |canon| && forall i :: 0 <= i < |canon| && canon[i] == IN_PROGRESS ==> depth[i] > d
  }

  lemma {:induction false} RootMapped(canon: seq<nat>, rank: seq<nat>, i: nat)
    requires Ranked(canon, rank) && LinksMapped(canon) && i < |canon| && Mapped(canon, i)
    ensures canon[Root(canon, rank, i)] == Root(canon, rank, i)
    decreases rank[i]
  {
    if !IsRoot(canon, i) {
      RootMapped(canon, rank, canon[i]);
    }
  }

  /** Marking an id as in progress. */
  lemma MarkBusy(orig: seq<BtfType>, g: View, listed: set<nat>, id: nat)
    requires Core(orig, g, listed) && Late(orig, g.types, g.canon) && 0 < id < |g.types| && g.canon[id] == UNPROCESSED
    ensures Core(orig, g.(canon := g.canon[id := IN_PROGRESS]), listed)
    ensures Late(orig, g.types, g.canon[id := IN_PROGRESS])
  {
    hide Graph, Same, RefsSound, ListedOk, Distinct, Late, MapSound, Kin;
    GraphSize(g.types);
    KinBusy(orig, g.canon, id);
    BusyListed(g.types, g.canon, listed, id);
    BusyLate(orig, g.types, g.canon, id);
    if g.noFwds {
      BusySound(orig, g.canon, id);
    }
  }

  lemma BusyListed(T: seq<BtfType>, canon: seq<nat>, listed: set<nat>, id: nat)
    requires ListedOk(T, canon, listed) && Distinct(T, canon) && |T| <= MAX_NR_TYPES + 1
    requires id < |T| && !Mapped(canon, id)
    ensures ListedOk(T, canon[id := IN_PROGRESS], listed) && Distinct(T, canon[id := IN_PROGRESS])
  {
  }

  lemma BusyLate(orig: seq<BtfType>, T: seq<BtfType>, canon: seq<nat>, id: nat)
    requires Graph(T) && |canon| == |T| == |orig| && Late(orig, T, canon) && id < |T| && !Mapped(canon, id)
    ensures Late(orig, T, canon[id := IN_PROGRESS])
  {
    BusyCanon(T, canon, id);
    BusyLinks(canon, id);
    hide RefCanon, Graph, LinksMapped, RefKind;
  }

  lemma BusyLinks(canon: seq<nat>, id: nat)
    requires LinksMapped(canon) && id < |canon| && !Mapped(canon, id)
    ensures LinksMapped(canon[id := IN_PROGRESS])
  {
  }

  lemma BusyCanon(T: seq<BtfType>, canon: seq<nat>, id: nat)
    requires Graph(T) && |canon| == |T| && RefCanon(T, canon) && LinksMapped(canon) && id < |T| && !Mapped(canon, id)
    ensures RefCanon(T, canon[id := IN_PROGRESS])
  {
    hide Refs;
  }

  lemma BusySound(T: seq<BtfType>, canon: seq<nat>, id: nat)
    requires Graph(T) && MapSound(T, canon) && id < |T|
    ensures MapSound(T, canon[id := IN_PROGRESS])
  {
    hide Same, Graph;
  }

  /** Writing one resolved reference into the record in progress. */
  lemma WriteRef(orig: seq<BtfType>, g: View, listed: set<nat>, id: nat, k: nat, r: nat)
    requires Core(orig, g, listed) && Late(orig, g.types, g.canon) && 0 < id < |g.types| && g.canon[id] == IN_PROGRESS
    requires k < |Refs(g.types[id])| && r < |g.types|
    requires g.noFwds ==> Same(orig, r, Refs(orig[id])[k])
    ensures Core(orig, g.(types := g.types[id := SetRef(g.types[id], k, r)]), listed)
    ensures Late(orig, g.types[id := SetRef(g.types[id], k, r)], g.canon)
  {
    CoreAt(orig, g, listed, id);
    hide Late, ListedOk, Distinct, RefsSound, MapSound, Refs, WithRefs, Shape, Same, RefKind, ShapesKept, Graph,
         Ranked, Slots, Kin;
    var t := SetRef(g.types[id], k, r);
    WriteRefShapes(orig, g.types, id, t, k, r);
    WithRefsLaws(g.types[id], Refs(g.types[id])[k := r]);
    WriteRefGraph(g.types, id, t, k, r);
    WriteRefListed(g.types, g.canon, listed, id, t);
    WriteRefLate(orig, g.types, g.canon, id, t);
    if g.noFwds {
      WriteRefMeaning(orig, g.types, id, t, k, r);
    }
  }

  lemma WriteRefShapes(orig: seq<BtfType>, T: seq<BtfType>, id: nat, t: BtfType, k: nat, r: nat)
    requires Graph(orig) && Graph(T) && ShapesKept(orig, T) && 0 < id < |T| && k < |Refs(T[id])| && r < |T|
    requires t == SetRef(T[id], k, r)
    ensures Graph(T[id := t]) && ShapesKept(orig, T[id := t])
  {
    WithRefsLaws(T[id], Refs(T[id])[k := r]);
    WriteRefGraph(T, id, t, k, r);
    hide Refs, Shape, WithRefs, Graph;
  }

  lemma WriteRefGraph(T: seq<BtfType>, id: nat, t: BtfType, k: nat, r: nat)
    requires Graph(T) && 0 < id < |T| && WellFormed(t) && k < |Refs(T[id])| && r < |T|
    requires t.info == T[id].info && Refs(t) == Refs(T[id])[k := r]
    ensures Graph(T[id := t])
  {
  }

  lemma WriteRefListed(T: seq<BtfType>, canon: seq<nat>, listed: set<nat>, id: nat, t: BtfType)
    requires ListedOk(T, canon, listed) && Distinct(T, canon) && id < |T| && t.info == T[id].info && !Mapped(canon, id)
    requires |T| <= MAX_NR_TYPES + 1
    ensures ListedOk(T[id := t], canon, listed) && Distinct(T[id := t], canon)
  {
  }

  lemma WriteRefLate(orig: seq<BtfType>, T: seq<BtfType>, canon: seq<nat>, id: nat, t: BtfType)
    requires Graph(T) && |canon| == |T| == |orig| && id < |T| && t.info == T[id].info && Graph(T[id := t])
    requires Late(orig, T, canon) && canon[id] == IN_PROGRESS
    ensures Late(orig, T[id := t], canon)
  {
    hide Graph, LinksMapped;
    GraphSize(T);
  }

  lemma WriteRefMeaning(orig: seq<BtfType>, T: seq<BtfType>, id: nat, t: BtfType, k: nat, r: nat)
    requires Graph(orig) && Graph(T) && ShapesKept(orig, T) && RefsSound(orig, T)
    requires id < |T| && WellFormed(t) && k < |Refs(T[id])| && r < |T|
    requires Refs(t) == Refs(T[id])[k := r] && Shape(t) == Shape(T[id]) && Graph(T[id := t])
    requires Same(orig, r, Refs(orig[id])[k])
    ensures ShapesKept(orig, T[id := t]) && RefsSound(orig, T[id := t])
  {
    hide Same, Shape, Refs;
    var T' := T[id := t];
    assert ShapesKept(orig, T');
    forall i | 0 <= i < |T'|
      ensures RefSound(orig, T', i)
    {
      assert RefSound(orig, T, i);
    }
  }

  /** The first k references of a record are canonical ids. */
  ghost predicate RefsDone(T: seq<BtfType>, canon: seq<nat>, id: nat, k: nat) {
    && id < |T| == |canon| && WellFormed(T[id]) && k <= |Refs(T[id])|
    && forall j :: 0 <= j < k ==> Refs(T[id])[j] < |T| && canon[Refs(T[id])[j]] == Refs(T[id])[j]
  }

  /** The state of the record in progress before its k-th reference is handled. */
  ghost predicate RefProgress(orig: seq<BtfType>, T: seq<BtfType>, canon: seq<nat>, id: nat, n: nat, k: nat) {
    && RefsDone(T, canon, id, k) && |orig| == |T| && WellFormed(orig[id])
    && |Refs(T[id])| == n == |Refs(orig[id])| && RefKind(T[id].info.kind)
    && forall j :: k <= j < n ==> Refs(T[id])[j] == Refs(orig[id])[j]
  }

  lemma LateFacts(orig: seq<BtfType>, T: seq<BtfType>, canon: seq<nat>, id: nat)
    requires Graph(T) && |canon| == |T| == |orig| && Late(orig, T, canon) && id < |T| && canon[id] == UNPROCESSED
    ensures RefKind(T[id].info.kind) && T[id] == orig[id]
  {
  }

  /** With nothing in progress before a step, nothing is afterwards. */
  lemma RefStepIdle(T0: seq<BtfType>, c0: seq<nat>, T1: seq<BtfType>, c1: seq<nat>)
    requires RefStep(T0, c0, T1, c1) && forall j :: 0 <= j < |c0| ==> c0[j] != IN_PROGRESS
    ensures |T1| == |T0| == |c1| && (forall j :: 0 <= j < |c1| ==> c1[j] != IN_PROGRESS) && Grows(c0, c1)
  {
  }

  lemma LateParts(orig: seq<BtfType>, T: seq<BtfType>, canon: seq<nat>)
    requires Graph(T) && |canon| == |T| == |orig| && Late(orig, T, canon)
    ensures LinksMapped(canon) && RefCanon(T, canon)
  {
  }

  lemma BusySmaller(canon: seq<nat>, id: nat, depth: seq<nat>)
    requires id < |canon| && canon[id] == UNPROCESSED
    ensures Unseen(canon[id := IN_PROGRESS]) < Unseen(canon)
    ensures canon[id := IN_PROGRESS][id := UNPROCESSED] == canon
  {
    assert id in Unseen(canon) && id !in Unseen(canon[id := IN_PROGRESS]);
  }

  lemma RefStepStart(T: seq<BtfType>, canon: seq<nat>, id: nat)
    requires |T| == |canon| && id < |T|
    ensures RefStep(T[id := T[id]], canon, T, canon)
  {
  }

  lemma RefsStart(orig: seq<BtfType>, T: seq<BtfType>, canon: seq<nat>, id: nat)
    requires id < |T| == |canon| == |orig| && T[id] == orig[id] && WellFormed(T[id]) && RefKind(T[id].info.kind)
    ensures RefProgress(orig, T, canon, id, |Refs(T[id])|, 0)
  {
  }

  /** The k-th reference before it is handled: original, in range, and below what is in progress. */
  lemma KidFacts(orig: seq<BtfType>, T: seq<BtfType>, canon: seq<nat>, id: nat, n: nat, k: nat, depth: seq<nat>)
    requires Graph(orig) && Graph(T) && |T| == |orig| == |canon| && RefProgress(orig, T, canon, id, n, k) && k < n
    requires forall i :: 0 <= i < |T| ==> T[i].info == orig[i].info
    requires Late(orig, T, canon) && canon[id] == IN_PROGRESS
    ensures k < |Refs(T[id])| && k < |Refs(orig[id])| && Refs(T[id])[k] < |T| && Refs(T[id])[k] == Refs(orig[id])[k]
    ensures Layered(orig, depth) && BusyAbove(canon[id := UNPROCESSED], depth, depth[id]) ==>
              Mapped(canon, Refs(T[id])[k]) || BusyAbove(canon, depth, depth[Refs(T[id])[k]])
  {
    KidInRange(T, id, k);
    var x := Refs(T[id])[k];
    if Layered(orig, depth) && BusyAbove(canon[id := UNPROCESSED], depth, depth[id]) && !Mapped(canon, x) {
      assert RefKind(T[x].info.kind);
      assert depth[x] < depth[id];
      forall i | 0 <= i < |canon| && canon[i] == IN_PROGRESS
        ensures depth[i] > depth[x]
      {
        assert i != id ==> canon[id := UNPROCESSED][i] == IN_PROGRESS;
      }
    }
  }

  /** What is in progress now was in progress then. */
  ghost predicate RefStepBusy(c0: seq<nat>, c1: seq<nat>) {
    |c0| == |c1| && forall i :: 0 <= i < |c0| && c1[i] == IN_PROGRESS ==> c0[i] == IN_PROGRESS
  }

  /** Two consecutive steps around the record in progress. */
  lemma RefStepJoin(T0: seq<BtfType>, c0: seq<nat>, T1: seq<BtfType>, c1: seq<nat>, T2: seq<BtfType>, c2: seq<nat>,
                    id: nat)
    requires id < |T0| == |T1| == |T2| == |c1|
    requires RefStep(T0[id := T1[id]], c0, T1, c1) && RefStep(T1[id := T2[id]], c1, T2, c2)
    ensures RefStep(T0[id := T2[id]], c0, T2, c2)
    ensures Unseen(c2) <= Unseen(c1) && RefStepBusy(c0, c2)
  {
  }

  lemma RefStepBusyId(T0: seq<BtfType>, c0: seq<nat>, T1: seq<BtfType>, c1: seq<nat>, id: nat)
    requires RefStep(T0, c0, T1, c1) && id < |c0| && c0[id] == IN_PROGRESS
    ensures T1[id] == T0[id] && c1[id] == IN_PROGRESS
  {
  }

  lemma RefStepPatch(T0: seq<BtfType>, c0: seq<nat>, T1: seq<BtfType>, c1: seq<nat>, id: nat, t: BtfType)
    requires RefStep(T0, c0, T1, c1) && id < |T0|
    ensures RefStep(T0[id := t], c0, T1[id := t], c1)
  {
  }

  lemma RefProgressKeep(orig: seq<BtfType>, T: seq<BtfType>, c: seq<nat>, T': seq<BtfType>, c': seq<nat>, id: nat,
                        n: nat, k: nat)
    requires RefProgress(orig, T, c, id, n, k) && RefStep(T, c, T', c') && T'[id] == T[id] && |T| <= MAX_NR_TYPES + 1
    ensures RefProgress(orig, T', c', id, n, k)
  {
    hide Refs;
  }

  lemma RefProgressNext(orig: seq<BtfType>, T: seq<BtfType>, canon: seq<nat>, id: nat, n: nat, k: nat, r: nat)
    requires RefProgress(orig, T, canon, id, n, k) && k < n && r < |T| && canon[r] == r
    ensures k < |Refs(T[id])| && RefProgress(orig, T[id := SetRef(T[id], k, r)], canon, id, n, k + 1)
  {
    WithRefsLaws(T[id], Refs(T[id])[k := r]);
    hide Refs;
  }

  lemma FinishLate(orig: seq<BtfType>, T: seq<BtfType>, canon: seq<nat>, id: nat, r: nat)
    requires Graph(T) && |canon| == |T| == |orig| && Late(orig, T, canon) && id < |T| && r < |T|
    requires canon[id] == IN_PROGRESS
    requires r == id || canon[r] == r
    requires RefsDone(T, canon, id, |Refs(T[id])|)
    ensures Late(orig, T, canon[id := r])
  {
    GraphSize(T);
    FinishLinks(canon, id, r);
    FinishCanon(T, canon, id, r);
    hide Refs, Graph, LinksMapped, RefCanon, RefsDone, RefKind;
  }

  lemma FinishLinks(canon: seq<nat>, id: nat, r: nat)
    requires LinksMapped(canon) && id < |canon| <= MAX_NR_TYPES + 1 && r < |canon| && (r == id || canon[r] == r)
    ensures LinksMapped(canon[id := r])
  {
  }

  lemma FinishCanon(T: seq<BtfType>, canon: seq<nat>, id: nat, r: nat)
    requires Graph(T) && |canon| == |T| && RefCanon(T, canon) && id < |T| && canon[id] == IN_PROGRESS
    requires RefsDone(T, canon, id, |Refs(T[id])|)
    ensures RefCanon(T, canon[id := r])
  {
    hide Refs;
    GraphSize(T);
    var c := canon[id := r];
    forall i, k | 0 <= i < |T| && RefKind(T[i].info.kind) && c[i] == i && 0 <= k < |Refs(T[i])|
      ensures c[Refs(T[i])[k]] == Refs(T[i])[k]
    {
      assert canon[Refs(T[i])[k]] == Refs(T[i])[k];
    }
  }

  lemma FinishStep(T0: seq<BtfType>, c0: seq<nat>, T1: seq<BtfType>, c1: seq<nat>, id: nat, r: nat)
    requires |T0| == |c0| == |T1| && |T0| <= MAX_NR_TYPES + 1 && id < |T0| && c0[id] == UNPROCESSED
    requires RefStep(T0[id := T1[id]], c0[id := IN_PROGRESS], T1, c1) && r < |T0|
    ensures RefStep(T0, c0, T1, c1[id := r])
  {
  }

  // ---------------------------------------------------------------- where references lead

  /** Whatever was written into a record leads where the original reference leads. */
  ghost predicate RootsKept(orig: seq<BtfType>, g: View) {
    && ViewOk(g) && Graph(orig) && ShapesKept(orig, g.types)
    && forall i :: 0 <= i < |orig| ==> RootsKeptAt(orig, g, i)
  }

  ghost predicate RootsKeptAt(orig: seq<BtfType>, g: View, i: nat)
    requires ViewOk(g) && Graph(orig) && ShapesKept(orig, g.types) && i < |orig|
  {
    forall k :: 0 <= k < |Refs(orig[i])| ==> SameRoot(g, Refs(g.types[i])[k], Refs(orig[i])[k])
  }

  lemma KeptStart(g: View)
    requires ViewOk(g)
    ensures RootsKept(g.types, g)
  {
    hide Shape, Refs;
    assert forall i :: 0 <= i < |g.types| ==> RootsKeptAt(g.types, g, i);
  }

  /** A change of the map that splits no class. */
  lemma KeptCoarser(orig: seq<BtfType>, g: View, h: View)
    requires RootsKept(orig, g) && ViewOk(h) && h.types == g.types
    requires forall a: nat, b: nat :: a < |g.types| && b < |g.types| && SameRoot(g, a, b) ==> SameRoot(h, a, b)
    ensures RootsKept(orig, h)
  {
    hide Shape, Refs, SameRoot;
    forall i | 0 <= i < |orig|
      ensures RootsKeptAt(orig, h, i)
    {
      assert RootsKeptAt(orig, g, i);
      KidsInside(g.types, i);
      KidsInside(orig, i);
    }
  }

  lemma KidsInside(T: seq<BtfType>, i: nat)
    requires Graph(T) && i < |T|
    ensures forall k :: 0 <= k < |Refs(T[i])| ==> Refs(T[i])[k] < |T|
  {
  }

  /** A root that stays a root moves nothing. */
  lemma {:induction false} RootUnmoved(m: seq<nat>, rank: seq<nat>, x: nat, y: nat, i: nat)
    requires Ranked(m, rank) && x < |m| && i < |m| && IsRoot(m, x) && (y == x || y > MAX_NR_TYPES)
    ensures Ranked(m[x := y], rank) && Root(m[x := y], rank, i) == Root(m, rank, i)
    decreases rank[i]
  {
    if !IsRoot(m, i) {
      RootUnmoved(m, rank, x, y, m[i]);
    }
  }

  lemma KeptUnmoved(orig: seq<BtfType>, g: View, x: nat, y: nat)
    requires RootsKept(orig, g) && x < |g.types| && IsRoot(g.canon, x) && (y == x || y > MAX_NR_TYPES)
    ensures RootsKept(orig, g.(canon := g.canon[x := y]))
  {
    hide Graph, ShapesKept, RootsKeptAt;
    RootUnmoved(g.canon, g.rank, x, y, x);
    var h := g.(canon := g.canon[x := y]);
    forall a: nat, b: nat | a < |g.types| && b < |g.types| && SameRoot(g, a, b)
      ensures SameRoot(h, a, b)
    {
      RootUnmoved(g.canon, g.rank, x, y, a);
      RootUnmoved(g.canon, g.rank, x, y, b);
    }
    KeptCoarser(orig, g, h);
  }

  lemma KeptLink(orig: seq<BtfType>, g: View, x: nat, y: nat)
    requires RootsKept(orig, g) && x < |g.types| && y < |g.types| && x != y
    requires IsRoot(g.canon, x) && IsRoot(g.canon, y) && y <= MAX_NR_TYPES
    ensures RootsKept(orig, g.(canon := g.canon[x := y], rank := Lift(g.rank, y)))
  {
    hide Graph, ShapesKept, RootsKeptAt;
    LinkToRoot(g.canon, g.rank, x, y);
    var h := g.(canon := g.canon[x := y], rank := Lift(g.rank, y));
    forall a: nat, b: nat | a < |g.types| && b < |g.types| && SameRoot(g, a, b)
      ensures SameRoot(h, a, b)
    {
      LinkRoots(g.canon, g.rank, x, y, a);
      LinkRoots(g.canon, g.rank, x, y, b);
    }
    KeptCoarser(orig, g, h);
  }

  lemma KeptWrite(orig: seq<BtfType>, g: View, id: nat, k: nat, r: nat)
    requires RootsKept(orig, g) && 0 < id < |g.types| && k < |Refs(g.types[id])| && r < |g.types|
    requires k < |Refs(orig[id])| && Refs(orig[id])[k] < |g.types| && SameRoot(g, r, Refs(orig[id])[k])
    requires var h := g.(types := g.types[id := SetRef(g.types[id], k, r)]); ViewOk(h) && ShapesKept(orig, h.types)
    ensures RootsKept(orig, g.(types := g.types[id := SetRef(g.types[id], k, r)]))
  {
    hide Shape, Ranked, Root;
    var h := g.(types := g.types[id := SetRef(g.types[id], k, r)]);
    WithRefsLaws(g.types[id], Refs(g.types[id])[k := r]);
    hide Refs, Graph;
    forall i | 0 <= i < |orig|
      ensures RootsKeptAt(orig, h, i)
    {
      assert RootsKeptAt(orig, g, i);
    }
  }

  // ---------------------------------------------------------------- between passes

  /** The freshly made state satisfies the invariant. */
  lemma StartOk(T: seq<BtfType>, canon: seq<nat>, rank: seq<nat>, noFwds: bool)
    requires Graph(T) && |canon| == |T| == |rank| && canon[0] == 0
    requires forall i :: 1 <= i < |T| ==>
               canon[i] == if T[i].info.kind == KVar || T[i].info.kind == KDatasec then i else UNPROCESSED
    ensures Core(T, View(T, canon, rank, noFwds), {}) && LinksMapped(canon) && Early(T, canon)
  {
    hide Same, Meaning, Graph, ListedOk, Distinct, Early, LinksMapped, Kin;
    GraphSize(T);
    StartMeaning(T, canon);
    StartKin(T, canon);
    StartShapes(T);
    StartListed(T, canon);
  }

  lemma StartListed(T: seq<BtfType>, canon: seq<nat>)
    requires 0 < |canon| == |T| <= MAX_NR_TYPES + 1 && canon[0] == 0
    requires forall i :: 1 <= i < |T| ==>
               canon[i] == if T[i].info.kind == KVar || T[i].info.kind == KDatasec then i else UNPROCESSED
    requires T[0].info.kind == KUnkn
    ensures ListedOk(T, canon, {}) && Distinct(T, canon) && Early(T, canon) && LinksMapped(canon) && Slots(canon)
  {
    StartDistinct(T, canon);
    StartEarly(T, canon);
    hide Distinct, Early, LinksMapped;
  }

  lemma StartEarly(T: seq<BtfType>, canon: seq<nat>)
    requires 0 < |canon| == |T| <= MAX_NR_TYPES + 1 && canon[0] == 0
    requires forall i :: 1 <= i < |T| ==>
               canon[i] == if T[i].info.kind == KVar || T[i].info.kind == KDatasec then i else UNPROCESSED
    requires T[0].info.kind == KUnkn
    ensures Early(T, canon) && LinksMapped(canon)
  {
  }

  lemma StartDistinct(T: seq<BtfType>, canon: seq<nat>)
    requires 0 < |canon| == |T| <= MAX_NR_TYPES + 1 && canon[0] == 0
    requires forall i :: 1 <= i < |T| ==>
               canon[i] == if T[i].info.kind == KVar || T[i].info.kind == KDatasec then i else UNPROCESSED
    ensures Distinct(T, canon)
  {
  }

  lemma StartKin(T: seq<BtfType>, canon: seq<nat>)
    requires |canon| == |T| <= MAX_NR_TYPES + 1
    requires forall i :: 0 <= i < |T| ==> canon[i] == i || canon[i] == UNPROCESSED
    ensures Kin(T, canon)
  {
    hide StandsIn;
    forall i | 0 <= i < |T|
      ensures Stays(T[i], T[i])
    {
      StandsForItself(T[i]);
    }
  }

  lemma StartShapes(T: seq<BtfType>)
    requires Graph(T)
    ensures ShapesKept(T, T) && T[0].info.kind == KUnkn
  {
  }

  lemma StartMeaning(T: seq<BtfType>, canon: seq<nat>)
    requires Graph(T) && |canon| == |T|
    requires forall i :: 0 <= i < |T| ==> canon[i] == i || canon[i] == UNPROCESSED
    ensures ShapesKept(T, T) && Meaning(T, T, canon)
  {
    hide Same, Refs;
    forall i | 0 <= i < |T|
      ensures Same(T, i, i) && RefSound(T, T, i)
    {
      SameReflexive(T, i);
      forall k | 0 <= k < |Refs(T[i])|
        ensures Same(T, Refs(T[i])[k], Refs(T[i])[k])
      {
        KidInRange(T, i, k);
        SameReflexive(T, Refs(T[i])[k]);
      }
    }
  }

  /** After the struct pass everything but the reference types is mapped. */
  lemma EnterLate(T: seq<BtfType>, canon: seq<nat>)
    requires Graph(T) && |canon| == |T| && Early(T, canon)
    requires forall i :: 0 <= i < |T| && !RefKind(T[i].info.kind) ==> Mapped(canon, i)
    ensures Late(T, T, canon) && forall i :: 0 <= i < |T| ==> canon[i] != IN_PROGRESS
  {
    hide Refs;
    GraphSize(T);
  }
}
