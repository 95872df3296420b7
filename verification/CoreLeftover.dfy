/** A target where an incompatible member of the name comes first, and what it leaves in the spec happens to
    describe the right field: the guard of CoreReloc.MatchAgreesWithParse is sufficient, not necessary. */
module CoreLeftover {
  import opened Basics
  import opened Btf
  import opened DedupState
  import opened DumpOrder
  import opened CoreReloc
  import CoreDuplicate
  import ResolveSize

  /** struct { int x; } */
  const Field: BtfType := BtfType(0, Info(KStruct, false, 1), 4, Members([Member(1, 1, 0)]))

  /** union { long x; struct { int x; }; } */
  const First: BtfType := BtfType(0, Info(KUnion, false, 2), 8, Members([Member(1, 2, 0), Member(0, 3, 0)]))

  /** union { union { long x; struct { int x; }; }; struct { int x; }; } */
  const Whole: BtfType := BtfType(0, Info(KUnion, false, 2), 8, Members([Member(0, 4, 0), Member(0, 3, 0)]))

  const G: Source := Source([VOID, CoreDuplicate.Int4, CoreDuplicate.Int8, Field, First, Whole], [0, 0, 0, 0, 0, 0])

  const Im: Image := Image(G, off => if off == 1 then "x" else "")

  const Local: seq<Accessor> := [Accessor(3, 0, None), Accessor(3, 0, Some("x"))]

  const Q: Query := Query(G, "x", 1)
  const Root: seq<Accessor> := [Accessor(5, 0, None)]
  const S0: Spec := Spec(Root, [0], 0)
  const S1: Spec := Spec(Root, [0, 0], 0)
  const S2: Spec := Spec(Root, [0, 0, 0], 0)
  const S3: Spec := Spec(Root, [0, 0, 1], 0)
  const Result: Spec := Spec([Accessor(5, 0, None), Accessor(3, 0, Some("x"))], [0, 0, 1, 0], 0)

  lemma GraphOk()
    ensures SourceOk(G)
  {
    assert Refs(Field) == [1] && Refs(First) == [2, 3] && Refs(Whole) == [4, 3];
  }

  lemma Sizes()
    ensures ResolveSize.Records(G.types)
    ensures ResolveSize.SizeOf(G.types, 5) == 8
  {
    GraphOk();
    RecordsOk(G);
    assert ResolveSize.WalkFrom(G.types, 5, 32) == ResolveSize.Walk([], ResolveSize.Sized(8));
    ResolveSize.NoDims();
  }

  lemma Structs()
    ensures SourceOk(G) && IsStruct(G, 3) && IsStruct(G, 4) && IsStruct(G, 5)
    ensures Skip(G, 1) == 1 && Skip(G, 2) == 2 && Skip(G, 3) == 3 && Skip(G, 4) == 4 && Skip(G, 5) == 5
    ensures Compat(G, 1, G, 1) && !Compat(G, 1, G, 2)
  {
    GraphOk();
  }

  lemma Specs()
    ensures Push(S0, 0, 0) == S1 && Push(S1, 0, 0) == S2 && Pop(S2, 0) == S1 && Push(S1, 1, 0) == S3
    ensures Push(S3, 0, 0) == Spec(Root, [0, 0, 1, 0], 0)
  {
  }

  lemma LocalFacts()
    ensures SourceOk(G) && NamesOk(Im) && LocalSpec(Im, Local)
  {
    Structs();
    hide SourceOk;
  }

  lemma RootMatch()
    ensures SourceOk(G) && LocalOk(Im, Local[0])
    ensures MatchOne(Im, Local[0], Im, true, 5, EMPTY) == Found(1, S0, 5)
  {
    Structs();
    Sizes();
    hide SourceOk, Skip, ResolveSize.SizeOf;
    assert EMPTY.raw + [0] == [0] && EMPTY.accs + [Accessor(5, 0, None)] == Root;
  }

  /** The first member of the name has another type; its index stays in the spec. */
  lemma FirstMatch()
    ensures SourceOk(G) && MatchMember(Q, Im, 4, S1, 5) == Found(0, S2, 2)
  {
    Structs();
    Specs();
    hide SourceOk, Skip, Compat, MatchFrom, MatchMember, Push, Pop;
    MatchEntry(Q, Im, 4, S1, 5);
    MatchNext(Q, Im, 4, 0, S1, 5);
  }

  lemma FieldMatch()
    ensures SourceOk(G) && MatchMember(Q, Im, 3, S3, 2) == Found(1, Result, 1)
  {
    Structs();
    Specs();
    hide SourceOk, Skip, Compat, MatchFrom, MatchMember, Push, Pop;
    MatchEntry(Q, Im, 3, S3, 2);
    MatchNext(Q, Im, 3, 0, S3, 2);
    assert Root + [Accessor(3, 0, Some("x"))] == Result.accs;
  }

  lemma MemberMatch()
    ensures SourceOk(G) && LocalOk(Im, Local[1]) && MatchOne(Im, Local[1], Im, false, 5, S0) == Found(1, Result, 1)
  {
    Structs();
    Specs();
    FirstMatch();
    FieldMatch();
    hide SourceOk, Skip, Compat, MatchFrom, MatchMember, Push, Pop;
    assert QueryFor(Im, Local[1]) == Q;
    MatchEntry(Q, Im, 5, S0, 5);
    MatchNext(Q, Im, 5, 0, S0, 5);
    MatchNext(Q, Im, 5, 1, S1, 2);
  }

  /** The raw spec left behind leads to the field all the same. */
  lemma GoodParse()
    ensures SourceOk(G) && ParseSpec(Im, 5, [0, 0, 1, 0]) == Ok(Result)
  {
    Structs();
    Sizes();
    hide SourceOk, Skip, ResolveSize.SizeOf, ParseAll;
    var raw := [0, 0, 1, 0];
    var start := At(5, Root, 0);
    assert ParseRoot(Im, 5, 0) == Ok(start);
    assert raw[1..] == [0] + [1, 0] && [1, 0] == [1] + [0];
    assert ParseStep(Im, start, 0) == Ok(At(4, Root, 0));
    ParseCons(Im, start, 0, [1, 0]);
    assert ParseStep(Im, At(4, Root, 0), 1) == Ok(At(3, Root, 0));
    ParseCons(Im, At(4, Root, 0), 1, [0]);
    assert Root + [Accessor(3, 0, Some("x"))] == Result.accs;
    assert ParseStep(Im, At(3, Root, 0), 0) == Ok(At(1, Result.accs, 0));
    ParseOne(Im, At(3, Root, 0), 0);
  }

  lemma FirstFound()
    ensures SourceOk(G) && Find(Im, 4, "x", 62) == Hit([0], 4, 0, 2, 0)
  {
    Structs();
    hide SourceOk, Skip;
  }

  /** The first member of the name is not compatible. */
  lemma NotFirst()
    ensures SourceOk(G) && !FirstCompatible(Q, Im, 5, S0)
  {
    Structs();
    FirstFound();
    hide SourceOk, Skip, Compat, Find;
    assert FindFrom(Im, 5, "x", 0, 63).Hit? && FindFrom(Im, 5, "x", 0, 63).typ == 2;
    FindStruct(5, 63);
  }

  lemma FindStruct(c: nat, room: nat)
    requires SourceOk(G) && IsStruct(G, c) && Skip(G, c) == c
    ensures Find(Im, c, "x", room) == FindFrom(Im, c, "x", 0, room)
  {
    hide SourceOk, Skip, FindFrom;
  }

  /** The guard fails, and yet parsing the raw spec gives the spec, with the accessors asked for. */
  lemma LeftoverDescribesField()
    ensures SourceOk(G) && NamesOk(Im) && LocalSpec(Im, Local)
    ensures var r := SpecMatch(Im, Local, Im, 5);
            && r.code == 1 && r.spec.raw == [0, 0, 1, 0] && Agreement(Local, Im, 5, r.spec)
            && !Guarded(Im, Local, Im, 0, 5, EMPTY)
  {
    Structs();
    LocalFacts();
    RootMatch();
    MemberMatch();
    GoodParse();
    NotFirst();
    hide SourceOk, MatchOne, ParseSpec, LocalSpec, FirstCompatible, Skip;
    assert MatchAccs(Im, Local, Im, 2, 1, Result) == Found(1, Result, 1);
    assert MatchAccs(Im, Local, Im, 1, 5, S0) == Found(1, Result, 1);
    assert MatchAccs(Im, Local, Im, 0, 5, EMPTY) == Found(1, Result, 1);
    assert QueryFor(Im, Local[1]) == Q;
    assert !Guarded(Im, Local, Im, 1, 5, S0);
  }
}
