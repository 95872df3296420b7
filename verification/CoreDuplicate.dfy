/** Why unique names are needed: a target with the same name at two levels, the first of another type. */
module CoreDuplicate {
  import opened Basics
  import opened Btf
  import opened DedupState
  import opened DumpOrder
  import opened CoreReloc
  import ResolveSize

  const Int4: BtfType := BtfType(0, Info(KInt, false, 0), 4, IntBits(32))
  const Int8: BtfType := BtfType(0, Info(KInt, false, 0), 8, IntBits(64))

  /** struct { long x; } */
  const Inner: BtfType := BtfType(0, Info(KStruct, false, 1), 8, Members([Member(1, 2, 0)]))

  /** struct { struct { long x; }; int x; } */
  const Outer: BtfType := BtfType(0, Info(KStruct, false, 2), 16, Members([Member(0, 3, 0), Member(1, 1, 64)]))

  /** struct { int x; } */
  const Wanted: BtfType := BtfType(0, Info(KStruct, false, 1), 4, Members([Member(1, 1, 0)]))

  const G: Source := Source([VOID, Int4, Int8, Inner, Outer, Wanted], [0, 0, 0, 0, 0, 0])

  const Im: Image := Image(G, off => if off == 1 then "x" else "")

  lemma GraphOk()
    ensures SourceOk(G)
  {
    assert Refs(Inner) == [2] && Refs(Outer) == [3, 1] && Refs(Wanted) == [1];
  }

  lemma Sizes()
    ensures ResolveSize.Records(G.types)
    ensures ResolveSize.SizeOf(G.types, 4) == 16
  {
    GraphOk();
    RecordsOk(G);
    assert ResolveSize.WalkFrom(G.types, 4, 32) == ResolveSize.Walk([], ResolveSize.Sized(16));
    ResolveSize.NoDims();
  }

  lemma Structs()
    ensures SourceOk(G) && IsStruct(G, 3) && IsStruct(G, 4) && IsStruct(G, 5)
    ensures Skip(G, 1) == 1 && Skip(G, 2) == 2 && Skip(G, 3) == 3 && Skip(G, 4) == 4 && Skip(G, 5) == 5
    ensures Compat(G, 1, G, 1) && !Compat(G, 1, G, 2)
  {
    GraphOk();
  }

  const Local: seq<Accessor> := [Accessor(5, 0, None), Accessor(5, 0, Some("x"))]

  /** The match succeeds, but its raw spec names a member that does not exist. */
  lemma DuplicateNamesBreakMatching()
    ensures SourceOk(G) && NamesOk(Im) && LocalSpec(Im, Local)
    ensures var r := SpecMatch(Im, Local, Im, 4);
            && r.code == 1 && r.spec.raw == [0, 0, 1]
            && ParseSpec(Im, 4, r.spec.raw).Err?
  {
    Structs();
    LocalFacts();
    RootMatch();
    MemberMatch();
    hide SourceOk, MatchOne, ParseSpec, LocalSpec;
    BadParse();
    var s0 := Spec([Accessor(4, 0, None)], [0], 0);
    var s := Spec([Accessor(4, 0, None), Accessor(4, 1, Some("x"))], [0, 0, 1], 8);
    assert MatchAccs(Im, Local, Im, 2, 1, s) == Found(1, s, 1);
    assert MatchAccs(Im, Local, Im, 1, 4, s0) == Found(1, s, 1);
    assert MatchAccs(Im, Local, Im, 0, 4, EMPTY) == Found(1, s, 1);
  }

  lemma LocalFacts()
    ensures SourceOk(G) && NamesOk(Im) && LocalSpec(Im, Local)
  {
    Structs();
    hide SourceOk;
  }

  lemma RootMatch()
    ensures SourceOk(G) && LocalOk(Im, Local[0])
    ensures MatchOne(Im, Local[0], Im, true, 4, EMPTY) == Found(1, Spec([Accessor(4, 0, None)], [0], 0), 4)
  {
    Structs();
    Sizes();
    hide SourceOk, Skip, ResolveSize.SizeOf;
    assert EMPTY.raw + [0] == [0] && EMPTY.accs + [Accessor(4, 0, None)] == [Accessor(4, 0, None)];
  }

  const Q: Query := Query(G, "x", 1)
  const S0: Spec := Spec([Accessor(4, 0, None)], [0], 0)
  const S1: Spec := Spec([Accessor(4, 0, None)], [0, 0], 0)
  const S2: Spec := Spec([Accessor(4, 0, None)], [0, 0, 0], 0)

  lemma Specs()
    ensures Push(S0, 0, 0) == S1 && Push(S1, 0, 0) == S2 && Pop(S2, 0) == S1
    ensures Push(S1, 1, 8) == Spec([Accessor(4, 0, None)], [0, 0, 1], 8)
  {
  }

  /** The nested member of the name is left in the spec. */
  lemma InnerMatch()
    ensures SourceOk(G) && MatchMember(Q, Im, 3, S1, 4) == Found(0, S2, 2)
  {
    Structs();
    Specs();
    hide SourceOk, Skip, Compat, MatchFrom, MatchMember, Push, Pop;
    MatchEntry(Q, Im, 3, S1, 4);
    MatchNext(Q, Im, 3, 0, S1, 4);
  }

  lemma OuterMatch()
    ensures SourceOk(G)
    ensures MatchFrom(Q, Im, 4, 1, S1, 2) ==
              Found(1, Spec([Accessor(4, 0, None), Accessor(4, 1, Some("x"))], [0, 0, 1], 8), 1)
  {
    Structs();
    Specs();
    hide SourceOk, Skip, Compat, MatchFrom, MatchMember, Push, Pop;
    MatchNext(Q, Im, 4, 1, S1, 2);
  }

  lemma MemberMatch()
    ensures SourceOk(G) && LocalOk(Im, Local[1])
    ensures MatchOne(Im, Local[1], Im, false, 4, S0) ==
            Found(1, Spec([Accessor(4, 0, None), Accessor(4, 1, Some("x"))], [0, 0, 1], 8), 1)
  {
    Structs();
    Specs();
    InnerMatch();
    OuterMatch();
    hide SourceOk, Skip, Compat, MatchFrom, MatchMember, Push, Pop;
    assert QueryFor(Im, Local[1]) == Q;
    MatchEntry(Q, Im, 4, S0, 4);
    MatchNext(Q, Im, 4, 0, S0, 4);
  }

  lemma BadParse()
    ensures SourceOk(G)
    ensures ParseSpec(Im, 4, [0, 0, 1]).Err?
  {
    Structs();
    Sizes();
    hide SourceOk, Skip, ResolveSize.SizeOf, ParseAll;
    var raw := [0, 0, 1];
    var start := ParseRoot(Im, 4, 0).value;
    assert raw[1..] == [0, 1];
    var next := ParseStep(Im, start, 0);
    assert next == Ok(At(3, start.accs, 0));
    assert ParseStep(Im, next.value, 1).Err?;
    ParseOne(Im, next.value, 1);
    ParseCons(Im, start, 0, [1]);
    assert [0] + [1] == [0, 1];
  }
}
