/** BTF deduplication: struct btf_dedup and the passes of btf__dedup
    (lib/libbpf/src/btf.c:1224-2863). */
module BtfDedup {
  import opened Btf
  import opened Fields
  import opened RecordCompare
  import opened Forest
  import opened Equivalence
  import opened DedupState
  import opened Compaction
  import HM = HashMap
  import Basics

  const EINVAL: int := -22
  const ENOMEM: int := -12
  const ELOOP: int := -40

  class Dedup {
    var types: seq<BtfType>
    /** d->map */
    var canon: seq<nat>
    var hypotMap: seq<nat>
    var hypotList: seq<nat>
    const table: HM.HashMap<nat, nat>
    const noFwds: bool
    ghost const orig: seq<BtfType>
    ghost var rank: seq<nat>
    /** The ids that the candidate table holds. */
    ghost var listed: set<nat>

    /** btf_dedup_new; `collide` asks for the constant hash. */
    constructor (types: seq<BtfType>, noFwds: bool, collide: bool)
      requires Graph(types)
      ensures this.types == types && orig == types && this.noFwds == noFwds
      ensures |canon| == |types| && canon[0] == 0
      ensures forall i :: 1 <= i < |types| ==>
                canon[i] == if types[i].info.kind == KVar || types[i].info.kind == KDatasec then i else UNPROCESSED
      ensures |rank| == |types|
      ensures |hypotMap| == |types| && hypotList == []
      ensures forall i :: 0 <= i < |types| ==> hypotMap[i] == UNPROCESSED
      ensures fresh(table) && listed == {} && TableHolds() && HypotOk()
    {
      this.types, this.orig, this.noFwds := types, types, noFwds;
      canon := seq(|types|, i requires 0 <= i < |types| =>
        if i == 0 || types[i].info.kind == KVar || types[i].info.kind == KDatasec then i else UNPROCESSED);
      hypotMap := seq(|types|, _ => UNPROCESSED);
      hypotList := [];
      rank := seq(|types|, _ => 0);
      listed := {};
      table := new HM.HashMap<nat, nat>(if collide then (_ => 0) else (key => key));
    }

    ghost function Here(): View
      reads this`types, this`canon, this`rank
    {
      View(types, canon, rank, noFwds)
    }

    /** The list names every entry that has to be cleared again. */
    ghost predicate HypotOk()
      reads this`types, this`hypotMap, this`hypotList
    {
      && Entries(|types|, hypotMap)
      && (forall c :: 0 <= c < |hypotMap| && hypotMap[c] != UNPROCESSED ==> c in hypotList)
      && (forall c :: c in hypotList ==> c < |hypotMap| && Mapped(hypotMap, c))
    }

    lemma HypotLength()
      requires HypotOk()
      ensures |hypotMap| == |types|
    {
    }

    /** The candidate table is a multimap from signature hashes to the listed ids. */
    ghost predicate TableHolds()
      reads this`types, this`listed, table
    {
      && table.Valid() && table.sz == |listed|
      && (forall v :: v in listed ==> v < |types| && WellFormed(types[v]))
      && forall h: nat, v: nat :: v in table.Values(h) <==> v in listed && Hash(types[v]) == h
    }

    ghost predicate Valid()
      reads this, table
    {
      Core(orig, Here(), listed) && HypotOk() && TableHolds()
    }

    method ResolveTypeId(id: nat) returns (r: nat)
      requires Ranked(canon, rank) && id < |canon|
      ensures r == Root(canon, rank, id)
    {
      r := id;
      while Mapped(canon, r) && canon[r] != r
        invariant r < |canon| && Root(canon, rank, r) == Root(canon, rank, id)
        decreases rank[r]
      {
        r := canon[r];
      }
    }

    method ResolveFwdId(id: nat) returns (r: nat)
      requires ViewOk(Here()) && id < |types|
      ensures r == FwdTarget(Here(), id)
    {
      if types[id].info.kind != KFwd {
        return id;
      }
      r := ResolveTypeId(id);
      if types[r].info.kind != KFwd {
        return r;
      }
      r := id;
    }

    method HypotMapAdd(from: nat, to: nat)
      requires ViewOk(Here()) && HypotOk() && from < |types| && to < |types|
      modifies this`hypotMap, this`hypotList
      ensures HypotOk() && hypotMap == old(hypotMap)[from := to]
      ensures hypotList == old(hypotList) + [from]
    {
      hypotList := hypotList + [from];
      hypotMap := hypotMap[from := to];
    }

    /** Clearing restores the empty hypothetical map exactly. */
    method ClearHypotMap()
      requires HypotOk()
      modifies this`hypotMap, this`hypotList
      ensures HypotOk() && hypotList == [] && |hypotMap| == |old(hypotMap)|
      ensures forall c :: 0 <= c < |hypotMap| ==> hypotMap[c] == UNPROCESSED
    {
      for i := 0 to |hypotList|
        invariant hypotList == old(hypotList) && |hypotMap| == |old(hypotMap)|
        invariant forall c :: 0 <= c < |hypotMap| && hypotMap[c] != UNPROCESSED ==>
                    c in hypotList[i..] && hypotMap[c] == old(hypotMap)[c]
      {
        assert hypotList[i] in hypotList;
        assert hypotList[i..] == [hypotList[i]] + hypotList[i + 1..];
        hypotMap := hypotMap[hypotList[i] := UNPROCESSED];
      }
      hypotList := [];
    }

    /** Side-by-side walk of two type graphs.  A positive answer leaves a hypothetical map whose new
        pairs are all justified; a negative one means that no bisimulation extending the map on
        entry relates the two ids. */
    method IsEquiv(cand: nat, canonId: nat) returns (eq: int)
      requires ViewOk(Here()) && HypotOk() && cand < |types| && canonId < |types|
      modifies this`hypotMap, this`hypotList
      ensures HypotOk() && Extends(old(hypotMap), hypotMap)
      ensures eq == 1 || eq == 0 || eq == EINVAL
      ensures eq == 1 ==> Related(Here(), hypotMap, cand, canonId) && NewOk(Here(), old(hypotMap), hypotMap)
      ensures forall phi ::
                Witness(Here(), phi) && Extends(old(hypotMap), phi) && Related(Here(), phi, cand, canonId) ==>
                eq != 0 && (eq == 1 ==> Extends(hypotMap, phi))
      ensures eq == 1 && Cleared(old(hypotMap)) ==> forall n: nat :: MatchDown(Here(), cand, canonId, n)
      ensures NoVarRefs(types) && !IsVarKind(types[cand].info.kind) ==> eq != EINVAL
      decreases Free(hypotMap), 0
    {
      hide Graph, WellFormed, NoVarRefs, PairOk, Ranked, MatchDown;
      var r0 := ResolveTypeId(cand);
      var r1 := ResolveTypeId(canonId);
      if r0 == r1 {
        PositiveMatches(Here(), hypotMap, hypotMap, cand, canonId);
        return 1;
      }
      var c := ResolveFwdId(canonId);
      FwdTargetRoot(Here(), canonId);
      if hypotMap[c] <= MAX_NR_TYPES {
        return if hypotMap[c] == cand then 1 else 0;
      }
      HypotMapAdd(c, cand);
      assert c in Free(old(hypotMap)) && c !in Free(hypotMap) && Free(hypotMap) <= Free(old(hypotMap));
      eq := EquivKids(cand, c, old(hypotMap));
      if eq == 1 {
        PositiveMatches(Here(), old(hypotMap), hypotMap, cand, canonId);
      }
    }

    /** The part of the walk below a freshly recorded pair. */
    method EquivKids(cand: nat, c: nat, ghost before: seq<nat>) returns (eq: int)
      requires ViewOk(Here()) && HypotOk() && cand < |types| && c < |types|
      requires |before| == |types| && !Mapped(before, c) && hypotMap == before[c := cand] && cand != c
      modifies this`hypotMap, this`hypotList
      ensures HypotOk() && Extends(old(hypotMap), hypotMap)
      ensures eq == 1 || eq == 0 || eq == EINVAL
      ensures eq == 1 ==> NewOk(Here(), before, hypotMap)
      ensures forall phi :: Witness(Here(), phi) && Extends(old(hypotMap), phi) ==>
                eq != 0 && (eq == 1 ==> Extends(hypotMap, phi))
      ensures NoVarRefs(types) && !IsVarKind(types[cand].info.kind) ==> eq != EINVAL
      decreases Free(hypotMap), 2
    {
      forall phi | Witness(Here(), phi) && Extends(hypotMap, phi)
        ensures PairOk(Here(), phi, cand, c)
      {
        assert Mapped(hypotMap, c) && phi[c] == cand;
      }
      match Compare(noFwds, types[cand], types[c])
      case Differ => return 0;
      case Leaf => return 1;
      case Invalid => return EINVAL;
      case Descend =>
        CompareMeaning(noFwds, types[cand], types[c]);
        NoVarKids(types, cand);
        ghost var h1 := hypotMap;
        eq := EquivEach(Refs(types[cand]), Refs(types[c]), types[cand].info.kind == KArray);
        if eq == 1 {
          AddedOk(Here(), before, h1, hypotMap, cand, c);
        }
    }

    /** Walk the referenced ids of a pair in turn. */
    method EquivEach(xs: seq<nat>, cs: seq<nat>, swap: bool) returns (eq: int)
      requires ViewOk(Here()) && HypotOk() && |xs| == |cs| && (swap ==> |xs| == 2)
      requires forall j :: 0 <= j < |xs| ==> xs[j] < |types| && cs[j] < |types|
      requires forall phi :: Witness(Here(), phi) && Extends(hypotMap, phi) ==> AllRelated(Here(), phi, xs, cs)
      modifies this`hypotMap, this`hypotList
      ensures HypotOk() && Extends(old(hypotMap), hypotMap)
      ensures eq == 1 || eq == 0 || eq == EINVAL
      ensures eq == 1 ==> NewOk(Here(), old(hypotMap), hypotMap) && AllRelated(Here(), hypotMap, xs, cs)
      ensures forall phi :: Witness(Here(), phi) && Extends(old(hypotMap), phi) ==>
                eq != 0 && (eq == 1 ==> Extends(hypotMap, phi))
      ensures NoVarRefs(types) && NoVarIn(types, xs) ==> eq != EINVAL
      decreases Free(hypotMap), 1
    {
      hide Witness, Related, PairOk, NoVarRefs, Graph, NewOk, Ranked;
      ghost var g, h1 := Here(), hypotMap;
      NewOkStart(g, h1);
      for k := 0 to |xs|
        invariant Here() == g && HypotOk() && Extends(h1, hypotMap) && NewOk(g, h1, hypotMap)
        invariant forall j :: 0 <= j < k ==> Related(g, hypotMap, xs[Position(swap, j)], cs[Position(swap, j)])
        invariant forall phi :: Witness(g, phi) && Extends(h1, phi) ==> Extends(hypotMap, phi)
        invariant Free(hypotMap) <= Free(h1)
      {
        ghost var h2 := hypotMap;
        var p := Position(swap, k);
        eq := IsEquiv(xs[p], cs[p]);
        if eq != 1 {
          return eq;
        }
        NewOkTrans(g, h1, h2, hypotMap);
        forall j | 0 <= j < k
          ensures Related(g, hypotMap, xs[Position(swap, j)], cs[Position(swap, j)])
        {
          RelatedMonotone(g, h2, hypotMap, xs[Position(swap, j)], cs[Position(swap, j)]);
        }
      }
      eq := 1;
      forall j | 0 <= j < |xs|
        ensures Related(g, hypotMap, xs[j], cs[j])
      {
        assert j == Position(swap, Position(swap, j));
      }
    }

    // ------------------------------------------------------------ primitive types

    /** btf_dedup_table_add */
    method TableAdd(id: nat)
      requires TableHolds() && id < |types| && WellFormed(types[id]) && id !in listed
      requires |types| <= MAX_NR_TYPES + 1
      modifies table, this`listed
      ensures TableHolds() && listed == old(listed) + {id}
    {
      hide HM.HashBits, HM.Lookup, HM.PlacedIn, HM.Total, Basics.Pow2, Hash, WellFormed;
      ListedSize(listed, |types|);
      CapBound(table);
      var _ := table.AppendValue(Hash(types[id]), id, true, true);
      listed := listed + {id};
    }

    /** for_each_dedup_cand: the listed ids whose records have the same signature hash. */
    method Candidates(id: nat) returns (vs: seq<nat>)
      requires TableHolds() && id < |types| && WellFormed(types[id])
      ensures forall v :: v in vs ==> v in listed && v < |types| && WellFormed(types[v])
      ensures forall v :: v in listed && Hash(types[v]) == Hash(types[id]) ==> v in vs
    {
      hide Hash;
      vs := table.KeyEntries(Hash(types[id]));
      assert forall v :: v in vs ==> v in table.Values(Hash(types[id]));
      assert forall v :: v in listed && Hash(types[v]) == Hash(types[id]) ==> v in table.Values(Hash(types[id]));
    }

    /** The loop over candidates with the same hash, looking for an equal record. */
    method FindEqual(id: nat) returns (newId: nat)
      requires TableHolds() && id < |types| && WellFormed(types[id]) && ExactKind(types[id].info.kind)
      requires id !in listed
      ensures newId == id || (newId in listed && types[newId] == types[id])
      ensures newId == id ==> forall v :: v in listed ==> types[v] != types[id]
    {
      var vs := Candidates(id);
      for i := 0 to |vs|
        invariant forall v :: v in vs ==> v in listed && v < |types| && WellFormed(types[v])
        invariant forall j :: 0 <= j < i ==> vs[j] < |types| && types[vs[j]] != types[id]
      {
        assert vs[i] in vs;
        EqualRecordIff(types[id], types[vs[i]]);
        if EqualRecord(types[id], types[vs[i]]) {
          return vs[i];
        }
      }
      newId := id;
    }

    /** The enum loop: as above, but with FWD resolution on, a forward declaration takes the first
        compatible enum, and a full enum takes over the forward declarations it meets. */
    method EnumCandidates(id: nat) returns (newId: nat)
      requires Valid() && types == orig && 0 < id < |types| && types[id].info.kind == KEnum
      requires canon[id] == UNPROCESSED
      modifies this`canon, this`rank
      ensures Valid() && canon[id] == UNPROCESSED
      ensures newId == id || newId in listed
      ensures newId != id ==> types[newId] == types[id] || (!noFwds && Settled(types[newId]))
      ensures newId != id ==> Stays(types[id], types[newId])
      ensures newId != id ==> types[newId].info.kind == types[id].info.kind
      ensures newId == id ==> forall v :: v in listed ==> types[v] != types[id]
      ensures noFwds || IsEnumFwd(types[id]) ==> canon == old(canon)
      ensures TakenOver(types, old(canon), canon, listed, id)
      ensures newId == id && !noFwds ==> forall v :: v in listed ==> Settles(types, canon, id, v)
    {
      hide Core, TableHolds, HypotOk, Graph, WellFormed, Hash, Settles, TakenOver, IsEnumFwd, Settled;
      CoreAt(orig, Here(), listed, id);
      NothingTaken(types, canon, listed, id);
      var vs := Candidates(id);
      for i := 0 to |vs|
        invariant forall v :: v in vs ==> v in listed
        invariant Core(orig, Here(), listed) && TakenOver(types, old(canon), canon, listed, id)
        invariant |canon| == |types| && canon[id] == UNPROCESSED
        invariant forall j :: 0 <= j < i ==> vs[j] < |types| && types[vs[j]] != types[id]
        invariant noFwds || IsEnumFwd(types[id]) ==> canon == old(canon)
        invariant !noFwds ==> forall j :: 0 <= j < i ==> Settles(types, canon, id, vs[j])
      {
        var cand := vs[i];
        assert cand in vs;
        CoreAt(orig, Here(), listed, cand);
        ghost var before := canon;
        var hit := EnumStep(id, cand);
        TakenMore(types, old(canon), before, canon, listed, id);
        CoreAt(orig, Here(), listed, cand);
        if hit {
          return cand;
        }
      }
      newId := id;
      NoneMissed(id, vs);
    }

    /** Every listed enum that is equal or compatible is among the candidates. */
    lemma NoneMissed(id: nat, vs: seq<nat>)
      requires TableHolds() && id < |types| == |canon| && types[id].info.kind == KEnum && WellFormed(types[id])
      requires forall v :: v in listed && Hash(types[v]) == Hash(types[id]) ==> v in vs
      requires forall j :: 0 <= j < |vs| ==> vs[j] < |types| && types[vs[j]] != types[id]
      requires !noFwds ==> forall j :: 0 <= j < |vs| ==> Settles(types, canon, id, vs[j])
      ensures forall v :: v in listed ==> v < |types| && types[v] != types[id]
      ensures !noFwds ==> forall v :: v in listed ==> Settles(types, canon, id, v)
    {
      hide Hash;
      forall v | v in listed
        ensures v < |types| && types[v] != types[id] && (!noFwds ==> Settles(types, canon, id, v))
      {
        ListedRecord(v);
        if Hash(types[v]) == Hash(types[id]) {
          assert v in vs;
        } else if CompatEnum(types[id], types[v]) {
          CompatHash(types[id], types[v]);
        }
      }
    }

    lemma ListedRecord(v: nat)
      requires TableHolds() && v in listed
      ensures v < |types| && WellFormed(types[v])
    {
    }

    /** One candidate of the enum loop. */
    method EnumStep(id: nat, cand: nat) returns (hit: bool)
      requires Core(orig, Here(), listed) && types == orig && 0 < id < |types| && types[id].info.kind == KEnum
      requires canon[id] == UNPROCESSED && cand in listed && cand < |types|
      modifies this`canon, this`rank
      ensures Core(orig, Here(), listed) && TakenOver(types, old(canon), canon, listed, id)
      ensures hit || noFwds || IsEnumFwd(types[id]) ==> canon == old(canon)
      ensures hit ==> types[cand] == types[id] || (!noFwds && Settled(types[cand]))
      ensures hit ==> Stays(types[id], types[cand])
      ensures hit ==> types[cand].info.kind == types[id].info.kind
      ensures !hit ==> types[cand] != types[id]
      ensures forall v :: Settles(types, old(canon), id, v) ==> Settles(types, canon, id, v)
      ensures !hit && !noFwds ==> Settles(types, canon, id, cand)
    {
      hide Core, TableHolds, HypotOk, Graph, Stays;
      CoreFacts(orig, Here(), listed);
      EqualRecordIff(types[id], types[cand]);
      if EqualEnum(types[id], types[cand]) {
        StaysItself(types[id]);
        return true;
      }
      if !noFwds && CompatEnum(types[id], types[cand]) {
        if IsEnumFwd(types[id]) {
          EnumStays(types[id], types[cand]);
          return true;
        }
        EnumStays(types[cand], types[id]);
        Redirect(orig, Here(), listed, cand, id);
        canon, rank := canon[cand := id], Lift(rank, id);
      }
      hit := false;
    }

    /** d->map[type_id] = new_id for a primitive type that is not canonical. */
    method RedirectPrim(id: nat, newId: nat)
      requires Valid() && types == orig && 0 < id < |types| && canon[id] == UNPROCESSED
      requires newId in listed && newId != id && newId < |types| && Stays(types[id], types[newId])
      requires types[newId] == types[id] || (!noFwds && Settled(types[newId]))
      requires !Settled(types[id]) ==> forall i :: 0 <= i < |canon| && !IsRoot(canon, i) ==> canon[i] != id
      modifies this`canon, this`rank
      ensures Valid() && canon == old(canon)[id := newId]
    {
      hide Core, TableHolds, HypotOk, Graph, Same, Stays;
      CoreFacts(orig, Here(), listed);
      if noFwds {
        CoreEqualSame(orig, Here(), listed, id, newId);
      }
      if Settled(types[newId]) {
        Redirect(orig, Here(), listed, id, newId);
        canon, rank := canon[id := newId], Lift(rank, newId);
      } else {
        RedirectLeaf(orig, Here(), listed, id, newId);
        canon, rank := canon[id := newId], rank[id := rank[newId] + 1];
      }
    }

    /** The switch over primitive kinds. */
    method PrimTarget(id: nat) returns (newId: nat)
      requires Valid() && types == orig && 0 < id < |types| && PrimKind(types[id].info.kind)
      requires canon[id] == UNPROCESSED
      modifies this`canon, this`rank
      ensures Valid() && canon[id] == UNPROCESSED
      ensures newId == id || newId in listed
      ensures newId != id ==> types[newId] == types[id] || (!noFwds && Settled(types[newId]))
      ensures newId != id ==> Stays(types[id], types[newId])
      ensures newId != id ==> types[newId].info.kind == types[id].info.kind
      ensures newId == id ==> forall v :: v in listed ==> types[v] != types[id]
      ensures noFwds || !Settled(types[id]) ==> canon == old(canon)
      ensures TakenOver(types, old(canon), canon, listed, id)
    {
      hide Core, TableHolds, HypotOk, Graph;
      CoreFacts(orig, Here(), listed);
      if types[id].info.kind == KEnum {
        newId := EnumCandidates(id);
      } else {
        newId := FindEqual(id);
        StaysItself(types[id]);
      }
    }

    method PrimType(id: nat) returns (err: int)
      requires Valid() && types == orig && 0 < id < |types| && LinksMapped(canon)
      requires PrimKind(types[id].info.kind) ==> canon[id] == UNPROCESSED
      requires Early(types, canon)
      modifies this`canon, this`rank, this`listed, table
      ensures err == 0 && Valid() && LinksMapped(canon) && Early(types, canon)
      ensures PrimKind(types[id].info.kind) ==> Mapped(canon, id)
      ensures Grows(old(canon), canon)
      ensures OnlyMaps(old(canon), canon, id)
    {
      hide Core, TableHolds, HypotOk, Graph, WellFormed, Early, LinksMapped, TakenOver, OnlyMaps;
      err := 0;
      if !PrimKind(types[id].info.kind) {
        PrimNothing(types, canon, id);
        return;
      }
      CoreFacts(orig, Here(), listed);
      var newId := PrimTarget(id);
      CoreFacts(orig, Here(), listed);
      PrimLinks(types, listed, old(canon), canon, id, newId);
      PrimEarly(types, old(canon), canon, listed, id, newId);
      if newId == id {
        BecomeCanonical(id);
      } else {
        RedirectPrim(id, newId);
      }
    }

    /** d->map[type_id] = type_id, and the entry in the candidate table. */
    method BecomeCanonical(id: nat)
      requires Valid() && 0 < id < |types| && !Mapped(canon, id) && TableKind(types[id].info.kind)
      requires ExactKind(types[id].info.kind) ==> forall v :: v in listed ==> types[v] != types[id]
      modifies this`canon, this`listed, table
      ensures Valid() && canon == old(canon)[id := id] && listed == old(listed) + {id}
    {
      hide Core, TableHolds, HypotOk, Graph;
      CoreFacts(orig, Here(), listed);
      Promote(orig, Here(), listed, id);
      canon := canon[id := id];
      TableAdd(id);
    }

    method PrimTypes() returns (err: int)
      requires Valid() && types == orig && LinksMapped(canon)
      requires forall i :: 0 < i < |types| && PrimKind(types[i].info.kind) ==> canon[i] == UNPROCESSED
      requires Early(types, canon)
      modifies this`canon, this`rank, this`listed, table
      ensures err == 0 && Valid() && Early(types, canon)
      ensures forall i :: 0 < i < |types| && PrimKind(types[i].info.kind) ==> Mapped(canon, i)
      ensures Grows(old(canon), canon)
    {
      hide Core, TableHolds, HypotOk, Graph, WellFormed, Early, LinksMapped;
      err := 0;
      CoreFacts(orig, Here(), listed);
      for i := 1 to |types|
        invariant Valid() && LinksMapped(canon) && Early(types, canon) && |canon| == |types|
        invariant forall j :: 0 < j < i && PrimKind(types[j].info.kind) ==> Mapped(canon, j)
        invariant forall j :: i <= j < |types| && PrimKind(types[j].info.kind) ==> canon[j] == UNPROCESSED
        invariant Grows(old(canon), canon)
      {
        var e := PrimType(i);
        CoreFacts(orig, Here(), listed);
      }
    }

    // ------------------------------------------------------------ structs and unions

    /** Turn a successful hypothetical map into canonical links.  Only roots are written, each linked to
        another root, and canonical records other than FWDs stay canonical.  `trace` holds the state
        before each recorded pair and after the last. */
    method MergeHypotMap() returns (ghost trace: seq<View>)
      requires Valid() && types == orig && ViewOk(Here()) && Witness(Here(), hypotMap) && Early(types, canon)
      modifies this`canon, this`rank
      ensures Valid() && Early(types, canon)
      ensures Grows(old(canon), canon)
      ensures KeepsCanonical(types, old(canon), canon)
      ensures |trace| == |hypotList| + 1 && trace[0] == old(Here()) && trace[|hypotList|] == Here()
      ensures forall i :: 0 <= i < |hypotList| ==> Merged(trace, i, hypotMap, hypotList)
    {
      hide Core, TableHolds, Graph, WellFormed, Witness, Same, Joined, Merged, Early, ViewOk, Grows, KeepsCanonical,
           RootLink, RefKind;
      CoreAt(orig, Here(), listed, 0);
      GrowsSelf(canon);
      KeepsSelf(types, canon);
      ghost var g := Here();
      trace := [g];
      for i := 0 to |hypotList|
        invariant Core(orig, Here(), listed) && Early(types, canon) && |canon| == |types|
        invariant Grows(old(canon), canon)
        invariant KeepsCanonical(types, old(canon), canon)
        invariant |trace| == i + 1 && trace[0] == g && trace[i] == Here()
        invariant forall j :: 0 <= j < i ==> Merged(trace, j, hypotMap, hypotList)
      {
        var c := hypotList[i];
        assert c in hypotList;
        RecordedPair(orig, g, listed, hypotMap, c);
        ghost var before := canon;
        MergePair(c, hypotMap[c]);
        CoreAt(orig, Here(), listed, 0);
        KeepsMore(types, old(canon), before, canon);
        MergedPush(trace, Here(), hypotMap, hypotList);
        trace := trace + [Here()];
      }
    }

    /** One round of the merge loop. */
    method MergePair(c: nat, t: nat)
      requires Core(orig, Here(), listed) && types == orig && c < |types| && t < |types| && Early(types, canon)
      requires noFwds ==> Same(orig, t, c)
      requires Akin(types[t], types[c])
      modifies this`canon, this`rank
      ensures Core(orig, Here(), listed) && Early(types, canon)
      ensures Grows(old(canon), canon)
      ensures canon == old(canon) || exists x, y :: RootLink(types, old(canon), canon, x, y)
      ensures Joined(old(Here()), Here(), t, c)
    {
      hide Core, Graph, WellFormed, Same, Joined, MustJoin, ViewOk, Early, Grows, RootLink, Stays, Akin, Kin;
      CoreFacts(orig, Here(), listed);
      CoreKin(orig, Here(), listed);
      GrowsSelf(canon);
      ghost var g := Here();
      var tId := ResolveTypeId(t);
      var cId := ResolveTypeId(c);
      if noFwds {
        CoreRootsSame(orig, g, listed, t, c);
      }
      RootsAkin(types, canon, rank, t, c);
      JoinedSelf(g, t, c);
      var tKind, cKind := types[tId].info.kind, types[cId].info.kind;
      if tKind != KFwd && cKind == KFwd {
        AkinStays(types[cId], types[tId]);
        LinkRoot(cId, tId, t, c);
      } else if tKind == KFwd && cKind != KFwd {
        AkinStays(types[tId], types[cId]);
        LinkRoot(tId, cId, t, c);
      }
      if IsComposite(tKind) && cKind != KFwd && Mapped(canon, cId) && !Mapped(canon, tId) {
        AkinStays(types[tId], types[cId]);
        LinkRoot(tId, cId, t, c);
      }
    }

    /** d->map[x] = y for the two roots of a pair. */
    method LinkRoot(x: nat, y: nat, ghost t: nat, ghost c: nat)
      requires Core(orig, Here(), listed) && types == orig && ViewOk(Here()) && Early(types, canon)
      requires t < |types| && c < |types| && 0 < x < |types| && y < |types| && x != y && MustJoin(Here(), t, c)
      requires var r, s := Root(canon, rank, t), Root(canon, rank, c); (x == r && y == s) || (x == s && y == r)
      requires y == Winner(Here(), t, c) && (types[x].info.kind == KFwd || !Mapped(canon, x))
      requires noFwds ==> Same(orig, x, y)
      requires Stays(types[x], types[y]) && (types[x].info.kind == KFwd || IsComposite(types[x].info.kind))
      modifies this`canon, this`rank
      ensures Core(orig, Here(), listed) && Early(types, canon) && Grows(old(canon), canon)
      ensures RootLink(types, old(canon), canon, x, y) && Joined(old(Here()), Here(), t, c)
    {
      hide Core, Graph, WellFormed, Same, Joined, MustJoin, Winner, Early, Stays;
      CoreFacts(orig, Here(), listed);
      LinkKinds(types[x], types[y]);
      Redirect(orig, Here(), listed, x, y);
      EarlyLink(types, canon, x, y);
      JoinedLink(Here(), t, c, x, y);
      canon, rank := canon[x := y], Lift(rank, y);
    }

    method StructType(id: nat) returns (err: int)
      requires Valid() && types == orig && 0 < id < |types| && Early(types, canon)
      modifies this`canon, this`rank, this`listed, this`hypotMap, this`hypotList, table
      ensures err == 0 || err == EINVAL
      ensures NoVarRefs(types) ==> err == 0
      ensures err == 0 ==> Valid() && Early(types, canon)
      ensures err == 0 ==> Grows(old(canon), canon)
      ensures err == 0 && IsComposite(types[id].info.kind) ==> Mapped(canon, id)
      ensures err == 0 && IsComposite(types[id].info.kind) && !old(Mapped(canon, id)) ==>
                Chosen(old(Here()), old(listed), id, canon[id])
    {
      hide Core, TableHolds, Graph, WellFormed, Witness, Same, Early, NoVarRefs, Related, Hash, Chosen, Alike,
           Stays;
      CoreFacts(orig, Here(), listed);
      if Mapped(canon, id) || !IsComposite(types[id].info.kind) {
        return 0;
      }
      ghost var g := Here();
      var vs := Candidates(id);
      for i := 0 to |vs|
        invariant Valid() && canon == old(canon) && listed == old(listed) && rank == old(rank)
        invariant forall v :: v in vs ==> v in listed && v < |types|
        invariant forall j :: 0 <= j < i ==> !Alike(g, id, vs[j])
      {
        var cand := vs[i];
        assert cand in vs;
        if ShallowEqualStruct(types[id], types[cand]) {
          ClearHypotMap();
          ghost var cleared := hypotMap;
          var eq := IsEquiv(id, cand);
          if eq < 0 {
            return eq;
          }
          if eq == 1 {
            FreshWitness(Here(), cleared, hypotMap);
            AlikeFound(g, listed, id, cand, hypotMap);
            StructStays(types[id], types[cand]);
            ghost var _ := AdoptStruct(id, cand);
            return 0;
          }
          NotAlike(g, id, cand, cleared);
        } else {
          ShallowFirst(g, id, cand);
        }
      }
      NoneAlike(id, vs);
      StructIsNoRef(types[id].info.kind);
      EarlyLink(types, canon, id, id);
      BecomeCanonical(id);
      err := 0;
    }

    /** Every listed struct that is alike is among the candidates. */
    lemma NoneAlike(id: nat, vs: seq<nat>)
      requires ViewOk(Here()) && TableHolds() && id < |types| && IsComposite(types[id].info.kind)
      requires forall v :: v in listed && Hash(types[v]) == Hash(types[id]) ==> v in vs
      requires forall j :: 0 <= j < |vs| ==> !Alike(Here(), id, vs[j])
      ensures Chosen(Here(), listed, id, id)
    {
      hide Hash, Equivalent;
      forall v | v in listed
        ensures v < |types| && !Alike(Here(), id, v)
      {
        ListedRecord(v);
        if Alike(Here(), id, v) {
          ShallowHash(types[id], types[v]);
        }
      }
    }

    /** The end of the struct step once an equivalent canonical struct is known. */
    method AdoptStruct(id: nat, cand: nat) returns (ghost trace: seq<View>)
      requires Valid() && types == orig && 0 < id < |types| && !Mapped(canon, id) && cand in listed
      requires types[cand].info.kind == types[id].info.kind && IsComposite(types[id].info.kind)
      requires cand < |types| && Stays(types[id], types[cand])
      requires Witness(Here(), hypotMap) && cand < |types| && Related(Here(), hypotMap, id, cand)
      requires Early(types, canon)
      modifies this`canon, this`rank
      ensures Valid() && Early(types, canon) && canon[id] == cand
      ensures Grows(old(canon), canon)
      ensures Adopted(old(Here()), trace, hypotMap, hypotList, canon, id, cand)
    {
      hide Core, TableHolds, Graph, WellFormed, Witness, Same, Related, Early, HypotOk, Merged, Stays;
      CoreFacts(orig, Here(), listed);
      if noFwds {
        CoreMapSound(orig, Here(), listed);
        RelatedSame(Here(), hypotMap, id, cand);
      }
      trace := MergeHypotMap();
      CoreFacts(orig, Here(), listed);
      StructIsNoRef(types[id].info.kind);
      Redirect(orig, Here(), listed, id, cand);
      EarlyLink(types, canon, id, cand);
      canon, rank := canon[id := cand], Lift(rank, cand);
    }

    method StructTypes() returns (err: int)
      requires Valid() && types == orig && Early(types, canon)
      modifies this`canon, this`rank, this`listed, this`hypotMap, this`hypotList, table
      ensures err == 0 || err == EINVAL
      ensures NoVarRefs(types) ==> err == 0
      ensures err == 0 ==> Valid() && Early(types, canon) && Grows(old(canon), canon)
      ensures err == 0 ==> forall i :: 0 < i < |types| && IsComposite(types[i].info.kind) ==> Mapped(canon, i)
    {
      hide Core, TableHolds, HypotOk, Graph, WellFormed, Early, NoVarRefs;
      CoreFacts(orig, Here(), listed);
      for i := 1 to |types|
        invariant Valid() && Early(types, canon) && Grows(old(canon), canon)
        invariant forall j :: 0 < j < i && IsComposite(types[j].info.kind) ==> Mapped(canon, j)
      {
        CoreFacts(orig, Here(), listed);
        err := StructType(i);
        if err != 0 {
          return;
        }
      }
      err := 0;
    }

    // ------------------------------------------------------------ reference types

    /** Valid between steps of the reference pass. */
    ghost predicate RefValid()
      reads this, table
    {
      Valid() && Late(orig, types, canon) && RootsKept(orig, Here())
    }

    /** Resolve a reference type: its references first, then the record itself.  `depth` is any
        layering of the reference types; if there is one, no loop is reported. */
    method RefType(id: nat, ghost depth: seq<nat>) returns (r: int)
      requires RefValid() && id < |types|
      modifies this`types, this`canon, this`rank, this`listed, table
      ensures r >= 0 || r == ELOOP
      ensures r >= 0 ==> RefValid() && RefStep(old(types), old(canon), types, canon)
      ensures r >= 0 ==> r < |types| && canon[r] == r && Mapped(canon, id) && r == Root(canon, rank, id)
      ensures r >= 0 && noFwds ==> Same(orig, id, r)
      ensures old(Mapped(canon, id)) ==> r >= 0
      ensures Layered(orig, depth) && BusyAbove(old(canon), depth, depth[id]) ==> r >= 0
      decreases Unseen(canon), 1
    {
      hide Core, TableHolds, HypotOk, Graph, WellFormed, Same, RefCanon, Layered, RootsKept;
      CoreSlots(orig, Here(), listed);
      CoreFacts(orig, Here(), listed);
      if canon[id] == IN_PROGRESS {
        return ELOOP;
      }
      if canon[id] <= MAX_NR_TYPES {
        RootMapped(canon, rank, id);
        if noFwds {
          CoreMapSound(orig, Here(), listed);
          RootSame(orig, canon, rank, id);
        }
        r := ResolveTypeId(id);
        return;
      }
      r := RefFresh(id, depth);
    }

    /** The case of an id not seen before. */
    method RefFresh(id: nat, ghost depth: seq<nat>) returns (r: int)
      requires RefValid() && 0 < id < |types| && canon[id] == UNPROCESSED
      modifies this`types, this`canon, this`rank, this`listed, table
      ensures r >= 0 || r == ELOOP
      ensures r >= 0 ==> RefValid() && RefStep(old(types), old(canon), types, canon)
      ensures r >= 0 ==> r < |types| && canon[r] == r && Mapped(canon, id) && r == Root(canon, rank, id)
      ensures r >= 0 && noFwds ==> Same(orig, id, r)
      ensures Layered(orig, depth) && BusyAbove(old(canon), depth, depth[id]) ==> r >= 0
      decreases Unseen(canon), 0
    {
      hide Core, TableHolds, HypotOk, Graph, WellFormed, Same, Layered, Late, BusyAbove, RootsKept;
      CoreFacts(orig, Here(), listed);
      LateFacts(orig, types, canon, id);
      MarkBusy(orig, Here(), listed, id);
      KeptUnmoved(orig, Here(), id, IN_PROGRESS);
      canon := canon[id := IN_PROGRESS];
      BusySmaller(old(canon), id, depth);
      var ok := RefEach(id, depth);
      if !ok {
        return ELOOP;
      }
      ghost var c := canon;
      var newId := RefFinish(id);
      FinishStep(old(types), old(canon), types, c, id, newId);
      r := newId;
    }

    /** Replace every reference of the record in progress by its representative. */
    method RefEach(id: nat, ghost depth: seq<nat>) returns (ok: bool)
      requires RefValid() && 0 < id < |types| && canon[id] == IN_PROGRESS && types[id] == orig[id]
      requires RefKind(types[id].info.kind)
      modifies this`types, this`canon, this`rank, this`listed, table
      ensures ok ==> RefValid() && canon[id] == IN_PROGRESS && RefsDone(types, canon, id, |Refs(types[id])|)
      ensures ok ==> RefKind(types[id].info.kind)
      ensures ok ==> RefStep(old(types)[id := types[id]], old(canon), types, canon)
      ensures Layered(orig, depth) && BusyAbove(old(canon)[id := UNPROCESSED], depth, depth[id]) ==> ok
      decreases Unseen(canon), 3
    {
      hide Core, TableHolds, HypotOk, Graph, WellFormed, Same, Layered, Late, RefStep, SetRef, RootsKept;
      CoreFacts(orig, Here(), listed);
      var n := |Refs(types[id])|;
      RefStepStart(types, canon, id);
      RefsStart(orig, types, canon, id);
      for k := 0 to n
        invariant RefValid() && |canon| == |types| == |old(types)| == |old(canon)| && canon[id] == IN_PROGRESS
        invariant RefProgress(orig, types, canon, id, n, k)
        invariant RefStep(old(types)[id := types[id]], old(canon), types, canon)
        invariant Unseen(canon) <= Unseen(old(canon)) && RefStepBusy(old(canon), canon)
      {
        ghost var T, c := types, canon;
        ok := RefOne(id, n, k, depth);
        if !ok {
          return;
        }
        CoreFacts(orig, Here(), listed);
        RefStepJoin(old(types), old(canon), T, c, types, canon, id);
      }
      ok := true;
    }

    /** One reference of the record in progress. */
    method RefOne(id: nat, n: nat, k: nat, ghost depth: seq<nat>) returns (ok: bool)
      requires RefValid() && 0 < id < |types| && canon[id] == IN_PROGRESS
      requires RefProgress(orig, types, canon, id, n, k) && k < n
      modifies this`types, this`canon, this`rank, this`listed, table
      ensures ok ==> RefValid() && |canon| == |types| == |old(types)| && canon[id] == IN_PROGRESS
      ensures ok ==> RefProgress(orig, types, canon, id, n, k + 1)
      ensures ok ==> RefStep(old(types)[id := types[id]], old(canon), types, canon)
      ensures Layered(orig, depth) && BusyAbove(old(canon)[id := UNPROCESSED], depth, depth[id]) ==> ok
      decreases Unseen(canon), 2
    {
      hide Core, TableHolds, HypotOk, Graph, WellFormed, Same, Layered, Late, BusyAbove, RefStep, SetRef, RefProgress,
           RootsKept;
      CoreShapes(orig, Here(), listed);
      CoreFacts(orig, Here(), listed);
      KidFacts(orig, types, canon, id, n, k, depth);
      var x := Refs(types[id])[k];
      var r := RefType(x, depth);
      if r < 0 {
        return false;
      }
      CoreFacts(orig, Here(), listed);
      RefStepBusyId(old(types), old(canon), types, canon, id);
      RefProgressKeep(orig, old(types), old(canon), types, canon, id, n, k);
      if noFwds {
        SameSymmetric(orig, x, r);
      }
      RefProgressNext(orig, types, canon, id, n, k, r);
      RefStepPatch(old(types), old(canon), types, canon, id, SetRef(types[id], k, r));
      RefWrite(id, k, r);
      ok := true;
    }

    /** t->type = ref_type_id and its siblings. */
    method RefWrite(id: nat, k: nat, r: nat)
      requires RefValid() && 0 < id < |types| && canon[id] == IN_PROGRESS
      requires k < |Refs(types[id])| && r < |types| && k < |Refs(orig[id])|
      requires noFwds ==> Same(orig, r, Refs(orig[id])[k])
      requires Refs(orig[id])[k] < |types| && Root(canon, rank, r) == Root(canon, rank, Refs(orig[id])[k])
      modifies this`types
      ensures RefValid() && types == old(types)[id := SetRef(old(types)[id], k, r)]
    {
      hide Core, Graph, Same, Late, SetRef, Hash, Refs, RootsKept, Root, Ranked, ShapesKept;
      CoreFacts(orig, Here(), listed);
      WriteRef(orig, Here(), listed, id, k, r);
      CoreShapesKept(orig, View(types[id := SetRef(types[id], k, r)], canon, rank, noFwds), listed);
      KeptWrite(orig, Here(), id, k, r);
      types := types[id := SetRef(types[id], k, r)];
    }

    /** Look for an equal record, now that the references are final. */
    method RefFinish(id: nat) returns (r: nat)
      requires RefValid() && 0 < id < |types| && canon[id] == IN_PROGRESS && RefKind(types[id].info.kind)
      requires RefsDone(types, canon, id, |Refs(types[id])|)
      modifies this`canon, this`rank, this`listed, table
      ensures RefValid() && r < |types| && canon[r] == r && canon == old(canon)[id := r]
      ensures r == Root(canon, rank, id)
      ensures noFwds ==> Same(orig, id, r)
    {
      hide Core, TableHolds, HypotOk, Graph, WellFormed, Same, Late, Stays, RootsKept;
      CoreFacts(orig, Here(), listed);
      r := FindEqual(id);
      FinishLate(orig, types, canon, id, r);
      if r == id {
        SameReflexive(orig, id);
        KeptUnmoved(orig, Here(), id, id);
        BecomeCanonical(id);
      } else {
        CoreEqualStays(orig, Here(), listed, id, r);
        if noFwds {
          CoreEqualSame(orig, Here(), listed, id, r);
        }
        Redirect(orig, Here(), listed, id, r);
        KeptLink(orig, Here(), id, r);
        canon, rank := canon[id := r], Lift(rank, r);
      }
    }

    method RefTypes(ghost depth: seq<nat>) returns (err: int)
      requires RefValid() && forall i :: 0 <= i < |canon| ==> canon[i] != IN_PROGRESS
      modifies this`types, this`canon, this`rank, this`listed, table
      ensures err == 0 || err == ELOOP
      ensures err == 0 ==> RefValid() && |types| == |old(types)| && Finished(orig, Here(), listed)
      ensures Layered(orig, depth) ==> err == 0
    {
      hide Core, TableHolds, HypotOk, Graph, WellFormed, Late, RefStep, RootsKept;
      CoreSlots(orig, Here(), listed);
      CoreFacts(orig, Here(), listed);
      for i := 1 to |types|
        invariant RefValid() && |types| == |canon| == |old(types)|
        invariant forall j :: 0 <= j < |canon| ==> canon[j] != IN_PROGRESS
        invariant forall j :: 0 <= j < i ==> Mapped(canon, j)
      {
        CoreFacts(orig, Here(), listed);
        ghost var T, c := types, canon;
        var r := RefType(i, depth);
        if r < 0 {
          return r;
        }
        RefStepIdle(T, c, types, canon);
      }
      err := 0;
      CoreFacts(orig, Here(), listed);
      assert Finished(orig, Here(), listed) by { LateParts(orig, types, canon); }
    }

    // ------------------------------------------------------------ compaction and remapping

    /** Move the canonical records down over the others, and note their new ids in hypotMap.  The
        write position never passes the read position. */
    method CompactTypes()
      requires 0 < |types| == |canon| <= MAX_NR_TYPES + 1 && |hypotMap| == |types|
      modifies this`types, this`hypotMap
      ensures Compacted(old(types), canon, types, hypotMap)
    {
      hide Placed, Count;
      hypotMap := seq(|types|, i => if i == 0 then 0 else UNPROCESSED);
      var next := 1;
      assert Count(canon, 0) == 0 by { CountStep(canon, 0); }
      for i := 1 to |types|
        invariant |types| == |old(types)|
        invariant Halfway(old(types), canon, types, hypotMap, i) && next == Count(canon, i - 1) + 1
      {
        CountStep(canon, i);
        if Canonical(canon, i) {
          MoveOne(old(types), canon, types, hypotMap, i, next);
          types := types[next := types[i]];
          hypotMap := hypotMap[i := next];
          next := next + 1;
        } else {
          SkipOne(old(types), canon, types, hypotMap, i);
        }
      }
      AllMoved(old(types), canon, types, hypotMap);
      types := types[..next];
    }

    /** The final id of a type id, or an error. */
    method RemapTypeId(id: nat) returns (r: int)
      requires Ranked(canon, rank) && id < |canon| == |hypotMap|
      ensures hypotMap[Root(canon, rank, id)] <= MAX_NR_TYPES ==> r == hypotMap[Root(canon, rank, id)]
      ensures hypotMap[Root(canon, rank, id)] > MAX_NR_TYPES ==> r == EINVAL
    {
      var x := ResolveTypeId(id);
      r := if hypotMap[x] > MAX_NR_TYPES then EINVAL else hypotMap[x];
    }

    /** Rewrite the references of one record, one after the other. */
    method RemapType(id: nat, ghost g: View) returns (err: int)
      requires ViewOk(g) && g.canon == canon && g.rank == rank && |hypotMap| == |canon|
      requires 0 < id < |types| && RefsIn(|canon|, types[id])
      modifies this`types
      ensures err == 0 || err == EINVAL
      ensures err == 0 ==>
                types == old(types)[id := WithRefs(old(types)[id], FinalRefs(g, hypotMap, Refs(old(types)[id])))]
      ensures (forall i :: 0 <= i < |canon| ==> Final(g, hypotMap, i) <= MAX_NR_TYPES) ==> err == 0
    {
      hide Refs, WithRefs, SetRef, WellFormed, Graph;
      ghost var t := types[id];
      var rs := Refs(types[id]);
      ghost var fs := FinalRefs(g, hypotMap, rs);
      hide Mixed;
      WithRefsSelf(t);
      MixedEnds(fs, rs);
      for k := 0 to |rs|
        invariant |types| == |old(types)| && types == old(types)[id := WithRefs(t, Mixed(fs, rs, k))]
      {
        var r := RemapTypeId(rs[k]);
        assert Final(g, hypotMap, rs[k]) == hypotMap[Root(canon, rank, rs[k])] == fs[k];
        if r < 0 {
          return r;
        }
        WithRefsTwice(t, Mixed(fs, rs, k), k, r);
        MixedStep(fs, rs, k);
        types := types[id := SetRef(types[id], k, r)];
      }
      err := 0;
    }

    method RemapTypes(ghost g: View) returns (err: int)
      requires ViewOk(g) && g.canon == canon && g.rank == rank && |hypotMap| == |canon| && 0 < |types|
      requires forall j :: 0 < j < |types| ==> RefsIn(|canon|, types[j])
      modifies this`types
      ensures err == 0 || err == EINVAL
      ensures err == 0 ==> Remapped(g, hypotMap, old(types), types)
      ensures (forall i :: 0 <= i < |canon| ==> Final(g, hypotMap, i) <= MAX_NR_TYPES) ==> err == 0
    {
      hide Refs, WithRefs, WellFormed, Graph, Final, FinalRefs;
      for j := 1 to |types|
        invariant |types| == |old(types)| && types[0] == old(types)[0]
        invariant forall i :: j <= i < |types| ==> types[i] == old(types)[i]
        invariant forall i :: 0 < i < j ==>
                    types[i] == WithRefs(old(types)[i], FinalRefs(g, hypotMap, Refs(old(types)[i])))
      {
        err := RemapType(j, g);
        if err != 0 {
          return;
        }
      }
      err := 0;
    }
  }

  /** The references after the first k have been rewritten. */
  ghost function Mixed(fs: seq<nat>, rs: seq<nat>, k: nat): (r: seq<nat>)
    requires k <= |fs| == |rs|
    ensures |r| == |rs|
  {
    fs[..k] + rs[k..]
  }

  lemma MixedEnds(fs: seq<nat>, rs: seq<nat>)
    requires |fs| == |rs|
    ensures Mixed(fs, rs, 0) == rs && Mixed(fs, rs, |rs|) == fs
  {
  }

  lemma MixedStep(fs: seq<nat>, rs: seq<nat>, k: nat)
    requires k < |fs| == |rs|
    ensures Mixed(fs, rs, k)[k := fs[k]] == Mixed(fs, rs, k + 1)
  {
  }

  lemma WithRefsSelf(t: BtfType)
    requires WellFormed(t)
    ensures WithRefs(t, Refs(t)) == t
  {
    WithRefsLaws(t, Refs(t));
    ShapeAndRefs(t, WithRefs(t, Refs(t)));
  }

  lemma WithRefsTwice(t: BtfType, rs: seq<nat>, k: nat, r: nat)
    requires WellFormed(t) && |rs| == |Refs(t)| && k < |rs|
    ensures WellFormed(WithRefs(t, rs)) && Refs(WithRefs(t, rs)) == rs
    ensures SetRef(WithRefs(t, rs), k, r) == WithRefs(t, rs[k := r])
  {
    var u := WithRefs(t, rs);
    WithRefsLaws(t, rs);
    WithRefsLaws(u, rs[k := r]);
    WithRefsLaws(t, rs[k := r]);
    ShapeAndRefs(WithRefs(u, rs[k := r]), WithRefs(t, rs[k := r]));
  }

  /** What takes the place of a FWD or composite is no reference type. */
  lemma LinkKinds(t: BtfType, u: BtfType)
    requires Stays(t, u) && (t.info.kind == KFwd || IsComposite(t.info.kind))
    ensures !RefKind(t.info.kind) && !RefKind(u.info.kind)
  {
    StaysAkin(t, u);
  }

  lemma StaysItself(t: BtfType)
    ensures Stays(t, t)
  {
    StandsForItself(t);
  }

  lemma StructIsNoRef(k: Kind)
    requires IsComposite(k)
    ensures !RefKind(k) && !ExactKind(k) && TableKind(k) && !IsVarKind(k)
  {
  }

  /** A compatible enum among the candidates is either taken by a forward declaration, or is itself
      redirected to the full enum. */
  ghost predicate Settles(T: seq<BtfType>, canon: seq<nat>, id: nat, v: nat) {
    && id < |T| && v < |T| == |canon| && WellFormed(T[id]) && WellFormed(T[v]) && T[id].info.kind == KEnum
    && (CompatEnum(T[id], T[v]) ==> !IsEnumFwd(T[id]) && canon[v] == id)
  }

  /** Which recorded pairs the merge joins: a FWD with its definition, or an unmapped composite with a
      mapped one. */
  ghost predicate MustJoin(g: View, t: nat, c: nat)
    requires ViewOk(g) && t < |g.types| && c < |g.types|
  {
    var r, s := Root(g.canon, g.rank, t), Root(g.canon, g.rank, c);
    var rk, sk := g.types[r].info.kind, g.types[s].info.kind;
    || (rk != KFwd && sk == KFwd) || (rk == KFwd && sk != KFwd)
    || (IsComposite(rk) && sk != KFwd && Mapped(g.canon, s) && !Mapped(g.canon, r))
  }

  /** The representative of a joined pair: never the FWD. */
  ghost function Winner(g: View, t: nat, c: nat): nat
    requires ViewOk(g) && t < |g.types| && c < |g.types|
  {
    var r, s := Root(g.canon, g.rank, t), Root(g.canon, g.rank, c);
    if g.types[r].info.kind != KFwd && g.types[s].info.kind == KFwd then r else s
  }

  /** What one round of the merge loop does: pairs to be joined get one representative, others are left. */
  ghost predicate Joined(a: View, b: View, t: nat, c: nat) {
    && ViewOk(a) && ViewOk(b) && a.types == b.types && t < |a.types| && c < |a.types|
    && if MustJoin(a, t, c)
       then Root(b.canon, b.rank, t) == Winner(a, t, c) && Root(b.canon, b.rank, c) == Winner(a, t, c)
       else b == a
  }

  ghost predicate Merged(trace: seq<View>, i: nat, hyp: seq<nat>, list: seq<nat>) {
    i + 1 < |trace| && i < |list| && list[i] < |hyp| && Joined(trace[i], trace[i + 1], hyp[list[i]], list[i])
  }

  /** All recorded pairs merged in turn, then the struct mapped to its candidate. */
  ghost predicate Adopted(from: View, trace: seq<View>, hyp: seq<nat>, list: seq<nat>, canon: seq<nat>, id: nat,
                          cand: nat) {
    && |trace| == |list| + 1 && trace[0] == from
    && (forall i :: 0 <= i < |list| ==> Merged(trace, i, hyp, list))
    && id < |trace[|list|].canon| && canon == trace[|list|].canon[id := cand]
  }

  lemma MergedPush(trace: seq<View>, v: View, hyp: seq<nat>, list: seq<nat>)
    requires 0 < |trace| <= |list| && list[|trace| - 1] < |hyp|
    requires Joined(trace[|trace| - 1], v, hyp[list[|trace| - 1]], list[|trace| - 1])
    requires forall j :: 0 <= j < |trace| - 1 ==> Merged(trace, j, hyp, list)
    ensures forall j :: 0 <= j < |trace| ==> Merged(trace + [v], j, hyp, list)
  {
    hide Joined;
    forall j | 0 <= j < |trace|
      ensures Merged(trace + [v], j, hyp, list)
    {
      if j < |trace| - 1 {
        assert Merged(trace, j, hyp, list);
      }
    }
  }

  /** What a recorded pair of a bisimulation has in common. */
  lemma RecordedPair(orig: seq<BtfType>, g: View, listed: set<nat>, hyp: seq<nat>, c: nat)
    requires Core(orig, g, listed) && g.types == orig && ViewOk(g) && Witness(g, hyp) && c < |hyp| && Mapped(hyp, c)
    ensures hyp[c] < |g.types| && c < |g.types|
    ensures g.noFwds ==> Same(orig, hyp[c], c)
    ensures Akin(g.types[hyp[c]], g.types[c])
  {
    hide Core, Same, Akin;
    PairKinds(g, hyp, c);
    if g.noFwds {
      CoreMapSound(orig, g, listed);
      RecordedSame(g, hyp, c);
    }
  }

  lemma GrowsSelf(canon: seq<nat>)
    ensures Grows(canon, canon)
  {
  }

  lemma KeepsSelf(T: seq<BtfType>, canon: seq<nat>)
    requires |canon| == |T|
    ensures KeepsCanonical(T, canon, canon)
  {
  }

  lemma KeepsMore(T: seq<BtfType>, c0: seq<nat>, c1: seq<nat>, c2: seq<nat>)
    requires |c0| == |c1| == |c2| == |T|
    requires Grows(c0, c1) && Grows(c1, c2) && KeepsCanonical(T, c0, c1)
    requires c2 == c1 || exists x, y :: RootLink(T, c1, c2, x, y)
    ensures Grows(c0, c2) && KeepsCanonical(T, c0, c2)
  {
  }

  lemma JoinedSelf(g: View, t: nat, c: nat)
    requires ViewOk(g) && t < |g.types| && c < |g.types|
    ensures !MustJoin(g, t, c) ==> Joined(g, g, t, c)
    ensures var rk, sk := g.types[Root(g.canon, g.rank, t)].info.kind, g.types[Root(g.canon, g.rank, c)].info.kind;
            MustJoin(g, t, c) <==>
              || (rk != KFwd && sk == KFwd) || (rk == KFwd && sk != KFwd)
              || (IsComposite(rk) && sk != KFwd && Mapped(g.canon, Root(g.canon, g.rank, c))
                  && !Mapped(g.canon, Root(g.canon, g.rank, t)))
  {
    hide Graph;
  }

  /** Linking the other root to the winner joins the pair. */
  lemma JoinedLink(g: View, t: nat, c: nat, x: nat, y: nat)
    requires ViewOk(g) && t < |g.types| && c < |g.types| && MustJoin(g, t, c)
    requires var r, s := Root(g.canon, g.rank, t), Root(g.canon, g.rank, c);
             y == Winner(g, t, c) && ((x == r && y == s) || (x == s && y == r)) && x != y
    ensures Joined(g, g.(canon := g.canon[x := y], rank := Lift(g.rank, y)), t, c)
  {
    assert y <= MAX_NR_TYPES by {
      GraphSize(g.types);
    }
    hide Graph, MustJoin, Winner;
    LinkToRoot(g.canon, g.rank, x, y);
    LinkRoots(g.canon, g.rank, x, y, t);
    LinkRoots(g.canon, g.rank, x, y, c);
  }

  /** Some bisimulation relates the two ids. */
  ghost predicate Equivalent(g: View, x: nat, c: nat)
    requires ViewOk(g) && x < |g.types| && c < |g.types|
  {
    exists phi :: Witness(g, phi) && Related(g, phi, x, c)
  }

  /** A canonical struct that the pass may choose: equal on the surface, and equivalent. */
  ghost predicate Alike(g: View, id: nat, v: nat) {
    && ViewOk(g) && id < |g.types| && v < |g.types| && IsComposite(g.types[id].info.kind)
    && ShallowEqualStruct(g.types[id], g.types[v]) && Equivalent(g, id, v)
  }

  /** The struct pass maps an id to a listed struct that is alike, or to itself when there is none. */
  ghost predicate Chosen(g: View, listed: set<nat>, id: nat, chosen: nat) {
    || (chosen in listed && Alike(g, id, chosen))
    || (chosen == id && forall v :: v in listed ==> !Alike(g, id, v))
  }

  lemma AlikeFound(g: View, listed: set<nat>, id: nat, v: nat, hyp: seq<nat>)
    requires ViewOk(g) && id < |g.types| && v < |g.types| && IsComposite(g.types[id].info.kind)
    requires ShallowEqualStruct(g.types[id], g.types[v]) && Witness(g, hyp) && Related(g, hyp, id, v) && v in listed
    ensures Chosen(g, listed, id, v)
  {
    hide Witness, Related, Graph;
  }

  lemma ShallowFirst(g: View, id: nat, v: nat)
    requires ViewOk(g) && id < |g.types| && v < |g.types| && IsComposite(g.types[id].info.kind)
    requires !ShallowEqualStruct(g.types[id], g.types[v])
    ensures !Alike(g, id, v)
  {
  }

  /** A negative answer from a cleared map rules out every bisimulation. */
  lemma NotAlike(g: View, id: nat, v: nat, cleared: seq<nat>)
    requires ViewOk(g) && id < |g.types| && v < |g.types| && |cleared| == |g.types|
    requires forall c :: 0 <= c < |cleared| ==> cleared[c] == UNPROCESSED
    requires forall phi :: !(Witness(g, phi) && Extends(cleared, phi) && Related(g, phi, id, v))
    ensures !Alike(g, id, v)
  {
    hide Related, Graph;
    forall phi | Witness(g, phi)
      ensures Extends(cleared, phi)
    {
    }
  }

  predicate PrimKind(k: Kind) {
    k == KInt || k == KEnum || k == KFwd
  }

  lemma ListedSize(s: set<nat>, n: nat)
    requires forall v :: v in s ==> v < n
    ensures |s| <= n
  {
    if n == 0 {
      assert s == {};
    } else {
      ListedSize(s - {n - 1}, n - 1);
    }
  }

  /** A table of at most 2^31 ids never needs an index beyond what can be allocated. */
  lemma CapBound(t: HM.HashMap<nat, nat>)
    requires t.Valid() && t.sz <= MAX_NR_TYPES + 1
    ensures t.capBits == HM.MAX_CAP_BITS ==> !t.NeedsToGrow()
  {
    hide Basics.Pow2;
    Basics.Pow2Values();
    Basics.Pow2Adds(32, 28);
    Basics.AtLeast(0x1_0000_0000, Basics.Pow2(28));
  }

  ghost predicate AllRelated(g: View, hyp: seq<nat>, xs: seq<nat>, cs: seq<nat>)
    requires ViewOk(g) && |hyp| == |g.types| && |xs| == |cs|
    requires forall j :: 0 <= j < |xs| ==> xs[j] < |g.types| && cs[j] < |g.types|
  {
    forall j :: 0 <= j < |xs| ==> Related(g, hyp, xs[j], cs[j])
  }

  predicate IsVarKind(k: Kind) {
    k == KVar || k == KDatasec
  }

  ghost predicate NoVarIn(T: seq<BtfType>, xs: seq<nat>)
    requires forall j :: 0 <= j < |xs| ==> xs[j] < |T|
  {
    forall j :: 0 <= j < |xs| ==> !IsVarKind(T[xs[j]].info.kind)
  }

  /** Only data sections refer to variables, and nothing refers to a data section. */
  ghost predicate NoVarRefs(T: seq<BtfType>)
    requires Graph(T)
  {
    forall i :: 0 <= i < |T| && !IsVarKind(T[i].info.kind) ==> NoVarIn(T, Refs(T[i]))
  }

  lemma NoVarKids(T: seq<BtfType>, i: nat)
    requires Graph(T) && i < |T|
    ensures NoVarRefs(T) && !IsVarKind(T[i].info.kind) ==> NoVarIn(T, Refs(T[i]))
  {
  }

  lemma FwdTargetRoot(g: View, c: nat)
    requires ViewOk(g) && c < |g.types|
    ensures Root(g.canon, g.rank, FwdTarget(g, c)) == Root(g.canon, g.rank, c)
  {
  }

  /** A recorded pair joins the justified ones once its references are related. */
  lemma AddedOk(g: View, h0: seq<nat>, h1: seq<nat>, h2: seq<nat>, x: nat, c: nat)
    requires ViewOk(g) && x < |g.types| && c < |g.types| && Entries(|g.types|, h1) && Entries(|g.types|, h2)
    requires |h0| == |g.types| && !Mapped(h0, c) && h1 == h0[c := x] && Extends(h1, h2) && NewOk(g, h1, h2)
    requires Compare(g.noFwds, g.types[x], g.types[c]) == Descend && KidsRelated(g, h2, x, c)
    ensures NewOk(g, h0, h2)
  {
    assert PairOk(g, h2, x, c) && h2[c] == x;
  }

  /** An array's index type is compared before its element type. */
  function Position(swap: bool, k: nat): nat
    requires swap ==> k < 2
  {
    if swap then 1 - k else k
  }

  // ---------------------------------------------------------------- the whole run

  /** Every output id stands for some input id. */
  ghost predicate Onto(nu: seq<nat>, n: nat) {
    forall j :: 0 <= j < n ==> Hit(nu, j)
  }

  ghost predicate Hit(nu: seq<nat>, j: nat) {
    exists i :: 0 <= i < |nu| && nu[i] == j
  }

  /** Every output record is an input record that got its id, its references renumbered. */
  ghost predicate Copies(T: seq<BtfType>, nu: seq<nat>, T': seq<BtfType>)
    requires Graph(T) && Graph(T')
  {
    |nu| == |T| && forall j :: 0 <= j < |T'| ==> CopiedFrom(T, nu, T', j)
  }

  ghost predicate CopiedFrom(T: seq<BtfType>, nu: seq<nat>, T': seq<BtfType>, j: nat)
    requires Graph(T) && Graph(T') && |nu| == |T| && j < |T'|
  {
    exists i :: 0 <= i < |T| && nu[i] == j && MovedTo(T, nu, T', i)
  }

  ghost predicate MovedTo(T: seq<BtfType>, nu: seq<nat>, T': seq<BtfType>, i: nat)
    requires Graph(T) && Graph(T') && |nu| == |T| && i < |T|
  {
    && nu[i] < |T'| && Shape(T'[nu[i]]) == Shape(T[i]) && |Refs(T'[nu[i]])| == |Refs(T[i])|
    && forall k :: 0 <= k < |Refs(T[i])| ==> Refs(T'[nu[i]])[k] == nu[Refs(T[i])[k]]
  }

  /** Every input id ends at a record that may stand for its own. */
  ghost predicate Represented(T: seq<BtfType>, nu: seq<nat>, T': seq<BtfType>) {
    |nu| == |T| && forall i :: 0 <= i < |T| ==> nu[i] < |T'| && Stays(T[i], T'[nu[i]])
  }

  /** No two records of a kind other than these four are equal. */
  ghost predicate NoDuplicates(T: seq<BtfType>) {
    forall a, b :: 0 < a < b < |T| && T[a].info.kind !in {KStruct, KUnion, KVar, KDatasec} ==> T[a] != T[b]
  }

  ghost predicate SameMeaning(T: seq<BtfType>, nu: seq<nat>, T': seq<BtfType>)
    requires Graph(T) && Graph(T') && |nu| == |T|
  {
    && (forall i :: 0 <= i < |T| ==> nu[i] < |T'|)
    && forall i, n: nat :: 0 <= i < |T| ==> Unfold(T', nu[i], n) == Unfold(T, i, n)
  }

  /** The three passes that choose canonical types. */
  method ChooseCanonical(d: Dedup, ghost depth: seq<nat>) returns (err: int)
    requires d.Valid() && d.types == d.orig && LinksMapped(d.canon) && Early(d.types, d.canon)
    requires d.canon[0] == 0
    requires forall i :: 1 <= i < |d.types| ==>
               if IsVarKind(d.types[i].info.kind) then d.canon[i] == i else d.canon[i] == UNPROCESSED
    modifies d, d.table
    ensures err == 0 ==> Finished(d.orig, d.Here(), d.listed) && |d.hypotMap| == |d.types|
    ensures Layered(d.orig, depth) && NoVarRefs(d.orig) ==> err == 0
  {
    hide Core, Graph, Early, Layered, NoVarRefs, Late, Finished, WellFormed, LinksMapped, Dedup.TableHolds,
         Dedup.HypotOk, Grows, RootsKept;
    CoreFacts(d.orig, d.Here(), d.listed);
    ghost var c0 := d.canon;
    err := d.PrimTypes();
    ghost var c1 := d.canon;
    err := d.StructTypes();
    if err != 0 {
      return;
    }
    CoreFacts(d.orig, d.Here(), d.listed);
    CoreSlots(d.orig, d.Here(), d.listed);
    AllMapped(d.orig, c0, c1, d.canon);
    EnterLate(d.orig, d.canon);
    KeptStart(d.Here());
    err := d.RefTypes(depth);
    if err == 0 {
      FinishedCore(d.orig, d.Here(), d.listed);
      d.HypotLength();
    }
  }

  lemma AllMapped(T: seq<BtfType>, c0: seq<nat>, c1: seq<nat>, canon: seq<nat>)
    requires 0 < |T| <= MAX_NR_TYPES + 1 && |canon| == |T| && Grows(c0, c1) && Grows(c1, canon)
    requires forall i :: 0 <= i < |T| ==> (T[i].info.kind == KUnkn <==> i == 0)
    requires canon[0] == 0
    requires forall i :: 0 < i < |T| && IsVarKind(T[i].info.kind) ==> c0[i] == i
    requires forall i :: 0 < i < |T| && PrimKind(T[i].info.kind) ==> Mapped(c1, i)
    requires forall i :: 0 < i < |T| && IsComposite(T[i].info.kind) ==> Mapped(canon, i)
    ensures forall i :: 0 <= i < |T| && !RefKind(T[i].info.kind) ==> Mapped(canon, i)
  {
    forall i | 0 <= i < |T| && !RefKind(T[i].info.kind)
      ensures Mapped(canon, i)
    {
      if i > 0 && IsVarKind(T[i].info.kind) {
        assert Mapped(c0, i) && Mapped(c1, i);
      }
    }
  }

  /** What the final ids and records satisfy. */
  lemma Outcome(input: seq<BtfType>, g: View, listed: set<nat>, T1: seq<BtfType>, hyp: seq<nat>, T2: seq<BtfType>,
                nu: seq<nat>)
    requires Finished(input, g, listed) && Compacted(g.types, g.canon, T1, hyp) && Remapped(g, hyp, T1, T2)
    requires |nu| == |input| == |g.types| && forall i :: 0 <= i < |nu| ==> nu[i] == Final(g, hyp, i)
    ensures Graph(T2) && NoDuplicates(T2) && nu[0] == 0 && Onto(nu, |T2|)
    ensures Copies(input, nu, T2) && Represented(input, nu, T2)
    ensures g.noFwds ==> SameMeaning(input, nu, T2)
  {
    hide Core, Graph, Finished, Remapped, Final, Unfold, Compacted, Shape, CopiedFrom, Stays;
    FinishedCore(input, g, listed);
    OutputGraph(input, g, listed, T1, hyp, T2);
    OutputSize(g, T1, hyp, T2);
    forall a, b | 0 < a < b < |T2| && T2[a].info.kind !in {KStruct, KUnion, KVar, KDatasec}
      ensures T2[a] != T2[b]
    {
      KnownKinds(T2);
      OutputDistinct(input, g, listed, T1, hyp, T2, a, b);
    }
    forall j | 0 <= j < |T2|
      ensures CopiedFrom(input, nu, T2, j)
    {
      OutputCopies(input, g, listed, T1, hyp, T2, nu, j);
    }
    forall i | 0 <= i < |input|
      ensures nu[i] < |T2| && Stays(input[i], T2[nu[i]])
    {
      OutputStands(input, g, listed, T1, hyp, T2, i);
    }
    ZeroFirst(input, g, listed, T1, hyp);
    forall j | 0 <= j < |T2|
      ensures Hit(nu, j)
    {
      if j == 0 {
        assert nu[0] == 0;
      } else {
        var i := Source(g, T1, hyp, j);
        FinalOf(g, hyp, i);
        assert nu[i] == j;
      }
    }
    if g.noFwds {
      forall i, n: nat | 0 <= i < |input|
        ensures nu[i] < |T2| && Unfold(T2, nu[i], n) == Unfold(input, i, n)
      {
        MeaningPreserved(input, g, listed, T1, hyp, T2, i, n);
      }
      forall i | 0 <= i < |input|
        ensures nu[i] < |T2|
      {
        MeaningPreserved(input, g, listed, T1, hyp, T2, i, 0);
      }
    }
  }

  lemma KnownKinds(T: seq<BtfType>)
    requires Graph(T)
    ensures forall i :: 1 <= i < |T| ==> T[i].info.kind != KUnkn
  {
  }

  lemma OutputCopies(input: seq<BtfType>, g: View, listed: set<nat>, T1: seq<BtfType>, hyp: seq<nat>,
                     T2: seq<BtfType>, nu: seq<nat>, j: nat)
    requires Finished(input, g, listed) && Compacted(g.types, g.canon, T1, hyp) && Remapped(g, hyp, T1, T2)
    requires |nu| == |input| == |g.types| && forall i :: 0 <= i < |nu| ==> nu[i] == Final(g, hyp, i)
    requires Graph(input) && Graph(T2) && j < |T2|
    ensures CopiedFrom(input, nu, T2, j)
  {
    hide Core, Graph, Finished, Remapped, Final, Compacted, Shape, Refs, WellFormed, MovedTo;
    FinishedCore(input, g, listed);
    OutputSize(g, T1, hyp, T2);
    var i := 0;
    if j == 0 {
      ZeroFirst(input, g, listed, T1, hyp);
      ZeroCanonical(input, g, listed);
    } else {
      i := Source(g, T1, hyp, j);
      FinalOf(g, hyp, i);
    }
    OutputMoved(input, g, listed, T1, hyp, T2, nu, i);
  }

  lemma OutputMoved(input: seq<BtfType>, g: View, listed: set<nat>, T1: seq<BtfType>, hyp: seq<nat>,
                    T2: seq<BtfType>, nu: seq<nat>, i: nat)
    requires Finished(input, g, listed) && Compacted(g.types, g.canon, T1, hyp) && Remapped(g, hyp, T1, T2)
    requires |nu| == |input| == |g.types| && forall i :: 0 <= i < |nu| ==> nu[i] == Final(g, hyp, i)
    requires Graph(input) && Graph(T2) && ViewOk(g) && i < |input| && Canonical(g.canon, i)
    ensures MovedTo(input, nu, T2, i)
  {
    hide Core, Graph, Finished, Remapped, Compacted, Shape, Refs, WellFormed;
    RootOfCanonical(g, i);
    FinalRecord(input, g, listed, T1, hyp, T2, i);
    FinishedKept(input, g, listed, i);
  }

  /** What the final records say about an id, and where their references lead. */
  lemma FinishedKept(input: seq<BtfType>, g: View, listed: set<nat>, i: nat)
    requires Finished(input, g, listed) && ViewOk(g) && i < |g.types|
    ensures i < |input| && WellFormed(g.types[i]) && WellFormed(input[i]) && Shape(g.types[i]) == Shape(input[i])
    ensures |Refs(g.types[i])| == |Refs(input[i])|
    ensures forall k :: 0 <= k < |Refs(input[i])| ==>
              && Refs(g.types[i])[k] < |g.types| && Refs(input[i])[k] < |g.types|
              && SameRoot(g, Refs(g.types[i])[k], Refs(input[i])[k])
  {
    hide Core, LinksMapped, RefCanon, Shape, Refs;
    CoreShapesKept(input, g, listed);
    assert RootsKeptAt(input, g, i);
    KidsInside(g.types, i);
    KidsInside(input, i);
  }

  lemma ZeroCanonical(input: seq<BtfType>, g: View, listed: set<nat>)
    requires Finished(input, g, listed) && ViewOk(g)
    ensures Canonical(g.canon, 0)
  {
    hide Core;
    CoreSlots(input, g, listed);
  }

  lemma OutputStands(input: seq<BtfType>, g: View, listed: set<nat>, T1: seq<BtfType>, hyp: seq<nat>,
                     T2: seq<BtfType>, i: nat)
    requires Finished(input, g, listed) && Compacted(g.types, g.canon, T1, hyp) && Remapped(g, hyp, T1, T2)
    requires ViewOk(g) && i < |input| == |g.types|
    ensures Final(g, hyp, i) < |T2| && Stays(input[i], T2[Final(g, hyp, i)])
  {
    hide Core, Graph, Remapped, Shape, Refs, WellFormed, Stays, RootsKept, LinksMapped, RefCanon, Kin, Count;
    var r := Root(g.canon, g.rank, i);
    FinalRecord(input, g, listed, T1, hyp, T2, i);
    CoreKin(input, g, listed);
    KinRoot(input, g.canon, g.rank, i);
    FinishedKept(input, g, listed, r);
    ShapeIff(input[r], T2[Final(g, hyp, i)]);
    ShapesStay(input[r], T2[Final(g, hyp, i)]);
    StaysTrans(input[i], input[r], T2[Final(g, hyp, i)]);
  }

  lemma StaysTrans(t: BtfType, v: BtfType, u: BtfType)
    requires Stays(t, v) && Stays(v, u)
    ensures Stays(t, u)
  {
    StandsTrans(t, v, u);
  }

  lemma FinishedCore(input: seq<BtfType>, g: View, listed: set<nat>)
    requires Finished(input, g, listed)
    ensures Core(input, g, listed) && ViewOk(g) && Graph(input) && |input| == |g.types| > 0
  {
  }

  lemma ZeroFirst(input: seq<BtfType>, g: View, listed: set<nat>, T1: seq<BtfType>, hyp: seq<nat>)
    requires Finished(input, g, listed) && Compacted(g.types, g.canon, T1, hyp)
    ensures Final(g, hyp, 0) == 0
  {
  }

  /** All type passes of btf__dedup.  `nu` gives the final id of every input id; `depth` is any
      layering of the reference types. */
  method DedupTypes(input: seq<BtfType>, noFwds: bool, collide: bool, ghost depth: seq<nat>)
    returns (err: int, output: seq<BtfType>, ghost nu: seq<nat>)
    requires Graph(input)
    ensures err == 0 ==> Graph(output) && NoDuplicates(output)
    ensures err == 0 ==> |nu| == |input| && nu[0] == 0 && Onto(nu, |output|)
    ensures err == 0 ==> Copies(input, nu, output) && Represented(input, nu, output)
    ensures err == 0 && noFwds ==> SameMeaning(input, nu, output)
    ensures Layered(input, depth) && NoVarRefs(input) ==> err == 0
  {
    hide Core, Graph, Early, Layered, NoVarRefs, Late, Finished, Compacted, Remapped, Final, SameMeaning, NoDuplicates,
         Onto, Copies, Represented;
    output, nu := [], [];
    GraphSize(input);
    var d := new Dedup(input, noFwds, collide);
    StartOk(d.types, d.canon, d.rank, noFwds);
    err := ChooseCanonical(d, depth);
    if err != 0 {
      return;
    }
    ghost var g, listed := d.Here(), d.listed;
    FinishedCore(input, g, listed);
    GraphSize(g.types);
    d.CompactTypes();
    ghost var T1 := d.types;
    CompactedRefs(input, g, listed, T1, d.hypotMap);
    err := d.RemapTypes(g);
    output := d.types;
    ghost var hyp := d.hypotMap;
    nu := seq(|input|, i requires 0 <= i < |input| => Final(g, hyp, i));
    if err == 0 {
      Outcome(input, g, listed, T1, hyp, output, nu);
    }
  }
}
