/** CO-RE field relocation: parsing an access spec and matching it against another type graph
    (lib/libbpf/src/libbpf-old.c:2299-2462, 2566-2769). */
module CoreReloc {
  import opened Basics
  import opened Btf
  import opened DedupState
  import opened DumpOrder
  import ResolveSize

  const MAX_LEN: nat := 64
  const E2BIG: int := -7
  const WRAP: nat := 0x1_0000_0000

  /** A negative member index passes the signed test of the source, which then reads in front of the
      member array; the model ends such a parse with a code of its own. */
  const BEFORE_MEMBERS: int := -14

  datatype Result<T> = Ok(value: T) | Err(code: int)

  /** A type graph with its strings. */
  datatype Image = Image(g: Source, read: nat -> string)

  /** A named field or an array index (no name). */
  datatype Accessor = Accessor(typeId: nat, idx: nat, name: Option<string>)

  /** High-level accessors, raw member and array indices, and the byte offset in 32 bits. */
  datatype Spec = Spec(accs: seq<Accessor>, raw: seq<int>, offset: nat)

  const EMPTY: Spec := Spec([], [], 0)

  function Add32(x: int, d: int): nat { (x + d) % WRAP }
  function Sub32(x: int, d: int): nat { (x - d) % WRAP }
  function ToInt32(x: int): int { if x >= WRAP / 2 then x - WRAP else x }

  // ---------------------------------------------------------------- reading the graph

  /** skip_mods_and_typedefs */
  ghost function Skip(g: Source, id: nat): (r: nat)
    requires SourceOk(g) && id < |g.types|
    ensures r < |g.types| && !Skipped(g.types[r].info.kind) && Height(g, r) <= Height(g, id)
    decreases Height(g, id)
  {
    var k := g.types[id].info.kind;
    if Skipped(k) then HeightDrops(g, id, 0); Skip(g, Refs(g.types[id])[0]) else id
  }

  predicate Skipped(k: Kind) { IsMod(k) || k == KTypedef }

  ghost predicate IsStruct(g: Source, c: nat) {
    && c < |g.types| && IsComposite(g.types[c].info.kind) && g.types[c].tail.Members?
    && forall i :: 0 <= i < |g.types[c].tail.members| ==> g.types[c].tail.members[i].typ < |g.types|
  }

  lemma StructOk(g: Source, c: nat)
    requires SourceOk(g) && c < |g.types| && IsComposite(g.types[c].info.kind)
    ensures IsStruct(g, c)
  {
    var t := g.types[c];
    forall i | 0 <= i < |t.tail.members|
      ensures t.tail.members[i].typ < |g.types|
    {
      assert Refs(t)[i] == t.tail.members[i].typ;
    }
  }

  lemma ArrayOk(g: Source, c: nat)
    requires SourceOk(g) && c < |g.types| && g.types[c].info.kind == KArray
    ensures g.types[c].tail.ArrayOf? && g.types[c].tail.elem < |g.types|
    ensures Height(g, g.types[c].tail.elem) < Height(g, c)
  {
    HeightDrops(g, c, 0);
  }

  lemma SkipStep(g: Source, id: nat)
    requires SourceOk(g) && id < |g.types| && Skipped(g.types[id].info.kind)
    ensures g.types[id].size < |g.types| && Skip(g, id) == Skip(g, g.types[id].size)
    ensures Height(g, g.types[id].size) < Height(g, id)
  {
    HeightDrops(g, id, 0);
  }

  lemma SkipTwice(g: Source, id: nat)
    requires SourceOk(g) && id < |g.types|
    ensures Skip(g, Skip(g, id)) == Skip(g, id)
  {
  }

  lemma RecordsOk(g: Source)
    requires SourceOk(g)
    ensures ResolveSize.Records(g.types)
  {
  }

  function BitOffset(t: BtfType, i: nat): nat
    requires t.tail.Members? && i < |t.tail.members|
  {
    if t.info.kflag then t.tail.members[i].offset % 0x100_0000 else t.tail.members[i].offset
  }

  function BitfieldSize(t: BtfType, i: nat): nat
    requires t.tail.Members? && i < |t.tail.members|
  {
    if t.info.kflag then t.tail.members[i].offset / 0x100_0000 else 0
  }

  /** Neither a bitfield nor off a byte boundary. */
  predicate Eligible(t: BtfType, i: nat)
    requires t.tail.Members? && i < |t.tail.members|
  {
    BitfieldSize(t, i) == 0 && BitOffset(t, i) % 8 == 0
  }

  function ByteOffset(t: BtfType, i: nat): nat
    requires t.tail.Members? && i < |t.tail.members|
  {
    BitOffset(t, i) / 8
  }

  // ---------------------------------------------------------------- parsing

  /** Where a parse stands: the type reached, the accessors and the offset so far. */
  datatype At = At(id: nat, accs: seq<Accessor>, offset: nat)

  /** One raw index. */
  ghost function ParseStep(im: Image, st: At, a: int): (r: Result<At>)
    requires SourceOk(im.g) && st.id < |im.g.types|
    ensures r.Ok? ==> r.value.id < |im.g.types|
  {
    var id := Skip(im.g, st.id);
    var t := im.g.types[id];
    if IsComposite(t.info.kind) then
      StructOk(im.g, id);
      if a >= |t.tail.members| then Err(EINVAL)
      else if a < 0 then Err(BEFORE_MEMBERS)
      else if !Eligible(t, a) then Err(EINVAL)
      else
        var m := t.tail.members[a];
        var offset := Add32(st.offset, ByteOffset(t, a));
        if m.name == 0 then Ok(At(m.typ, st.accs, offset))
        else if im.read(m.name) == "" then Err(EINVAL)
        else Ok(At(m.typ, st.accs + [Accessor(id, a, Some(im.read(m.name)))], offset))
    else if t.info.kind == KArray then
      ArrayOk(im.g, id);
      var elem := Skip(im.g, t.tail.elem);
      if a % WRAP >= t.tail.nelems then Err(EINVAL)
      else
        RecordsOk(im.g);
        var sz := ResolveSize.SizeOf(im.g.types, elem);
        if sz < 0 then Err(sz)
        else Ok(At(elem, st.accs + [Accessor(elem, a % WRAP, None)], Add32(st.offset, a * sz)))
    else Err(EINVAL)
  }

  ghost function ParseAll(im: Image, st: At, raw: seq<int>): (r: Result<At>)
    requires SourceOk(im.g) && st.id < |im.g.types|
    ensures r.Ok? ==> r.value.id < |im.g.types|
    decreases |raw|
  {
    if raw == [] then Ok(st)
    else
      var r := ParseStep(im, st, raw[0]);
      if r.Err? then r else ParseAll(im, r.value, raw[1..])
  }

  /** The first index counts whole objects of the root type. */
  ghost function ParseRoot(im: Image, root: nat, a: int): (r: Result<At>)
    requires SourceOk(im.g) && root < |im.g.types|
    ensures r.Ok? ==> r.value.id < |im.g.types|
  {
    RecordsOk(im.g);
    var id := Skip(im.g, root);
    var sz := ResolveSize.SizeOf(im.g.types, id);
    if sz < 0 then Err(sz) else Ok(At(id, [Accessor(id, a % WRAP, None)], (a * sz) % WRAP))
  }

  ghost function ParseSpec(im: Image, root: nat, raw: seq<int>): Result<Spec>
    requires SourceOk(im.g) && root < |im.g.types|
  {
    if |raw| > MAX_LEN then Err(E2BIG)
    else if raw == [] then Err(EINVAL)
    else
      var first := ParseRoot(im, root, raw[0]);
      if first.Err? then Err(first.code)
      else
        var r := ParseAll(im, first.value, raw[1..]);
        if r.Err? then Err(r.code) else Ok(Spec(r.value.accs, raw, r.value.offset))
  }

  lemma {:induction false} ParseAppend(im: Image, st: At, a: seq<int>, b: seq<int>)
    requires SourceOk(im.g) && st.id < |im.g.types|
    ensures var r := ParseAll(im, st, a); ParseAll(im, st, a + b) == if r.Err? then r else ParseAll(im, r.value, b)
    decreases |a|
  {
    hide SourceOk, ParseStep;
    if a == [] {
      assert a + b == b;
    } else {
      assert (a + b)[1..] == a[1..] + b && (a + b)[0] == a[0];
      var r := ParseStep(im, st, a[0]);
      if r.Ok? {
        ParseAppend(im, r.value, a[1..], b);
      }
    }
  }

  // ---------------------------------------------------------------- compatibility of fields

  function IntOffset(bits: nat): nat { bits / 0x1_0000 % 0x100 }
  function IntWidth(bits: nat): nat { bits % 0x100 }

  /** bpf_core_fields_are_compat */
  ghost predicate Compat(lg: Source, lid: nat, tg: Source, tid: nat)
    requires SourceOk(lg) && SourceOk(tg) && lid < |lg.types| && tid < |tg.types|
    decreases Height(lg, lid)
  {
    var l, t := Skip(lg, lid), Skip(tg, tid);
    var lt, tt := lg.types[l], tg.types[t];
    if IsComposite(lt.info.kind) && IsComposite(tt.info.kind) then true
    else if lt.info.kind != tt.info.kind then false
    else match lt.info.kind
      case KFwd => true
      case KPtr => true
      case KEnum => lt.size == tt.size
      case KInt => SameInt(lt, tt)
      case KArray => ArrayOk(lg, l); ArrayOk(tg, t); Compat(lg, lt.tail.elem, tg, tt.tail.elem)
      case _ => false
  }

  predicate SameInt(a: BtfType, b: BtfType) {
    && a.tail.IntBits? && b.tail.IntBits?
    && IntOffset(a.tail.bits) == 0 && IntOffset(b.tail.bits) == 0
    && a.size == b.size && IntWidth(a.tail.bits) == IntWidth(b.tail.bits)
  }

  // ---------------------------------------------------------------- the rules by kind

  lemma StructIfComposite(g: Source, c: nat)
    requires SourceOk(g) && c < |g.types|
    ensures IsComposite(g.types[c].info.kind) ==> IsStruct(g, c)
  {
    hide SourceOk, IsStruct;
    if IsComposite(g.types[c].info.kind) {
      StructOk(g, c);
    }
  }

  /** What is skipped: modifiers and typedefs, nothing else. */
  lemma SkipByKind(g: Source, id: nat)
    requires SourceOk(g) && id < |g.types|
    ensures if g.types[id].info.kind in {KVolatile, KConst, KRestrict, KTypedef}
            then g.types[id].size < |g.types| && Skip(g, id) == Skip(g, g.types[id].size)
            else Skip(g, id) == id
  {
    if Skipped(g.types[id].info.kind) {
      SkipStep(g, id);
    }
  }

  /** Which two types are compatible, kind by kind. */
  lemma CompatByKind(lg: Source, lid: nat, tg: Source, tid: nat)
    requires SourceOk(lg) && SourceOk(tg) && lid < |lg.types| && tid < |tg.types|
    ensures Compat(lg, lid, tg, tid) == Compat(lg, Skip(lg, lid), tg, Skip(tg, tid))
    ensures var l, t := lg.types[Skip(lg, lid)], tg.types[Skip(tg, tid)];
            Compat(lg, lid, tg, tid) <==>
            || (l.info.kind in {KStruct, KUnion} && t.info.kind in {KStruct, KUnion})
            || (l.info.kind == KFwd && t.info.kind == KFwd)
            || (l.info.kind == KPtr && t.info.kind == KPtr)
            || (l.info.kind == KEnum && t.info.kind == KEnum && l.size == t.size)
            || (l.info.kind == KInt && t.info.kind == KInt && l.size == t.size
                && l.tail.IntBits? && t.tail.IntBits? && l.tail.bits % 0x100 == t.tail.bits % 0x100
                && l.tail.bits / 0x1_0000 % 0x100 == 0 && t.tail.bits / 0x1_0000 % 0x100 == 0)
            || (l.info.kind == KArray && t.info.kind == KArray && l.tail.ArrayOf? && t.tail.ArrayOf?
                && l.tail.elem < |lg.types| && t.tail.elem < |tg.types|
                && Compat(lg, l.tail.elem, tg, t.tail.elem))
  {
    hide SourceOk, Skip;
    SkipTwice(lg, lid);
    SkipTwice(tg, tid);
    ArrayParts(lg, Skip(lg, lid));
    ArrayParts(tg, Skip(tg, tid));
  }

  lemma ArrayParts(g: Source, c: nat)
    requires SourceOk(g) && c < |g.types|
    ensures g.types[c].info.kind == KArray ==> g.types[c].tail.ArrayOf? && g.types[c].tail.elem < |g.types|
  {
    hide SourceOk, Height;
    if g.types[c].info.kind == KArray {
      ArrayOk(g, c);
    }
  }

  /** Which member indices parsing accepts, and what they lead to. */
  lemma ParseMember(im: Image, st: At, a: int)
    requires SourceOk(im.g) && st.id < |im.g.types|
    requires im.g.types[Skip(im.g, st.id)].info.kind in {KStruct, KUnion}
    ensures var c := Skip(im.g, st.id);
            var t := im.g.types[c];
            && t.tail.Members?
            && (ParseStep(im, st, a).Ok? <==> 0 <= a < |t.tail.members| && Accepted(im, t, t.tail.members[a]))
            && (ParseStep(im, st, a).Ok? ==> ParseStep(im, st, a).value == ThroughMember(im, st, c, t, a))
  {
    hide SourceOk, Skip, ResolveSize.SizeOf, ResolveSize.Records;
    StructIfComposite(im.g, Skip(im.g, st.id));
  }

  /** Which array indices it accepts; everything but composites and arrays ends the parse. */
  lemma ParseIndex(im: Image, st: At, a: int)
    requires SourceOk(im.g) && st.id < |im.g.types|
    requires im.g.types[Skip(im.g, st.id)].info.kind !in {KStruct, KUnion}
    ensures var t := im.g.types[Skip(im.g, st.id)];
            if t.info.kind == KArray then
              && t.tail.ArrayOf? && t.tail.elem < |im.g.types| && ResolveSize.Records(im.g.types)
              && var e := Skip(im.g, t.tail.elem);
                 var sz := ResolveSize.SizeOf(im.g.types, e);
                 ParseStep(im, st, a) ==
                 if a % 0x1_0000_0000 >= t.tail.nelems then Err(-22)
                 else if sz < 0 then Err(sz)
                 else Ok(At(e, st.accs + [Accessor(e, a % 0x1_0000_0000, None)],
                            (st.offset + a * sz) % 0x1_0000_0000))
            else ParseStep(im, st, a) == Err(-22)
  {
    hide SourceOk, Skip, ResolveSize.SizeOf, ResolveSize.Records;
    RecordsOk(im.g);
    ArrayParts(im.g, Skip(im.g, st.id));
  }

  /** A member that can be relocated: no bitfield, on a byte boundary, its name readable if it has one. */
  predicate Accepted(im: Image, t: BtfType, m: Member) {
    && (if t.info.kflag then m.offset / 0x100_0000 == 0 && m.offset % 0x100_0000 % 8 == 0 else m.offset % 8 == 0)
    && (m.name == 0 || im.read(m.name) != "")
  }

  /** The state behind a member that was accepted. */
  function ThroughMember(im: Image, st: At, c: nat, t: BtfType, a: int): At
    requires t.tail.Members? && 0 <= a < |t.tail.members|
  {
    var m := t.tail.members[a];
    At(m.typ, if m.name == 0 then st.accs else st.accs + [Accessor(c, a, Some(im.read(m.name)))],
       (st.offset + (if t.info.kflag then m.offset % 0x100_0000 else m.offset) / 8) % 0x1_0000_0000)
  }

  /** The limits on the number of indices. */
  lemma ParseLength(im: Image, root: nat, raw: seq<int>)
    requires SourceOk(im.g) && root < |im.g.types|
    ensures |raw| > 64 ==> ParseSpec(im, root, raw) == Err(-7)
    ensures raw == [] ==> ParseSpec(im, root, raw) == Err(-22)
    ensures ParseSpec(im, root, raw).Ok? ==> 1 <= |raw| <= 64 && ParseSpec(im, root, raw).value.raw == raw
  {
    hide SourceOk, ParseRoot, ParseAll;
  }

  // ---------------------------------------------------------------- searching a member

  /** The member looked for: its name and its type in the local graph. */
  datatype Query = Query(local: Source, name: string, typ: nat)

  ghost predicate QueryOk(q: Query) { SourceOk(q.local) && q.typ < |q.local.types| && q.name != "" }

  datatype Found = Found(code: int, spec: Spec, next: nat)

  function Push(s: Spec, i: nat, d: nat): Spec { Spec(s.accs, s.raw + [i], Add32(s.offset, d)) }

  function Pop(s: Spec, d: nat): Spec
    requires s.raw != []
  {
    Spec(s.accs, s.raw[..|s.raw| - 1], Sub32(s.offset, d))
  }

  function Room(s: Spec): nat { if |s.raw| <= MAX_LEN then MAX_LEN - |s.raw| else 0 }

  /** bpf_core_match_member */
  ghost function MatchMember(q: Query, im: Image, id: nat, s: Spec, next: nat): (r: Found)
    requires QueryOk(q) && SourceOk(im.g) && id < |im.g.types| && |s.raw| <= MAX_LEN && next < |im.g.types|
    ensures |s.raw| <= |r.spec.raw| <= MAX_LEN && r.next < |im.g.types|
    ensures |r.spec.accs| == |s.accs| + (if r.code == 1 then 1 else 0) && r.code <= 1
    decreases Room(s), 1, 0
  {
    var c := Skip(im.g, id);
    if !IsComposite(im.g.types[c].info.kind) then Found(0, s, next)
    else StructOk(im.g, c); MatchFrom(q, im, c, 0, s, next)
  }

  /** Its loop from member i on.  A member that matches by name but not by type ends the loop with the
      index and offset of that member left in the spec. */
  ghost function MatchFrom(q: Query, im: Image, c: nat, i: nat, s: Spec, next: nat): (r: Found)
    requires QueryOk(q) && SourceOk(im.g) && IsStruct(im.g, c) && i <= |im.g.types[c].tail.members|
    requires |s.raw| <= MAX_LEN && next < |im.g.types|
    ensures |s.raw| <= |r.spec.raw| <= MAX_LEN && r.next < |im.g.types|
    ensures |r.spec.accs| == |s.accs| + (if r.code == 1 then 1 else 0) && r.code <= 1
    decreases Room(s), 0, |im.g.types[c].tail.members| - i
  {
    var t := im.g.types[c];
    if i == |t.tail.members| then Found(0, s, next)
    else if !Eligible(t, i) then MatchFrom(q, im, c, i + 1, s, next)
    else if |s.raw| == MAX_LEN then Found(E2BIG, s, next)
    else
      var m, d := t.tail.members[i], ByteOffset(t, i);
      var s' := Push(s, i, d);
      var name := im.read(m.name);
      if name == "" then
        var r := MatchMember(q, im, m.typ, s', next);
        if r.code != 0 then r else MatchFrom(q, im, c, i + 1, Pop(r.spec, d), r.next)
      else if name == q.name then
        if Compat(q.local, q.typ, im.g, m.typ)
        then Found(1, s'.(accs := s'.accs + [Accessor(c, i, Some(name))]), m.typ)
        else Found(0, s', m.typ)
      else MatchFrom(q, im, c, i + 1, Pop(s', d), next)
  }

  lemma PushPop(s: Spec, i: nat, d: nat)
    requires s.offset < WRAP
    ensures Pop(Push(s, i, d), d) == s && Push(s, i, d).offset < WRAP
  {
    assert (s.raw + [i])[..|s.raw|] == s.raw;
    Wraps(s.offset, d);
  }

  lemma Wraps(x: nat, d: nat)
    requires x < WRAP
    ensures Sub32(Add32(x, d), d) == x
  {
    var y := (x + d) % WRAP;
    var k := (x + d) / WRAP;
    assert y - d == x - WRAP * k;
  }

  lemma WrapTwice(x: nat, d: nat, e: nat)
    ensures Add32(Add32(x, d), e) == Add32(x, d + e)
  {
  }

  // ---------------------------------------------------------------- what the search should find

  /** The first member of that name, depth first through members without a name; Deep when the search
      goes deeper than `room` indices before it finds one. */
  datatype Hit = Hit(path: seq<nat>, composite: nat, idx: nat, typ: nat, delta: nat) | Miss | Deep

  ghost function Find(im: Image, id: nat, name: string, room: nat): (h: Hit)
    requires SourceOk(im.g) && id < |im.g.types|
    ensures h.Hit? ==> h.path != [] && |h.path| <= room && h.typ < |im.g.types|
    decreases room, 1, 0
  {
    var c := Skip(im.g, id);
    if !IsComposite(im.g.types[c].info.kind) then Miss
    else StructOk(im.g, c); FindFrom(im, c, name, 0, room)
  }

  ghost function FindFrom(im: Image, c: nat, name: string, i: nat, room: nat): (h: Hit)
    requires SourceOk(im.g) && IsStruct(im.g, c) && i <= |im.g.types[c].tail.members|
    ensures h.Hit? ==> h.path != [] && |h.path| <= room && h.typ < |im.g.types|
    decreases room, 0, |im.g.types[c].tail.members| - i
  {
    var t := im.g.types[c];
    if i == |t.tail.members| then Miss
    else if !Eligible(t, i) then FindFrom(im, c, name, i + 1, room)
    else if room == 0 then Deep
    else
      var m, d := t.tail.members[i], ByteOffset(t, i);
      if im.read(m.name) == "" then
        match Find(im, m.typ, name, room - 1)
        case Miss => FindFrom(im, c, name, i + 1, room)
        case Deep => Deep
        case Hit(p, e, x, typ, d') => Hit([i] + p, e, x, typ, d + d')
      else if im.read(m.name) == name then Hit([i], c, i, m.typ, d)
      else FindFrom(im, c, name, i + 1, room)
  }

  function Extended(s: Spec, h: Hit, name: string): Spec
    requires h.Hit?
  {
    Spec(s.accs + [Accessor(h.composite, h.idx, Some(name))], s.raw + h.path, Add32(s.offset, h.delta))
  }

  /** Until the first member of the name, speculation is undone exactly. */
  ghost predicate Clean(q: Query, im: Image, h: Hit, s: Spec, next: nat, r: Found)
    requires QueryOk(q) && SourceOk(im.g) && (h.Hit? ==> h.typ < |im.g.types|)
  {
    match h
    case Miss => r == Found(0, s, next)
    case Deep => r.code == E2BIG
    case Hit(_, _, _, typ, _) => Compat(q.local, q.typ, im.g, typ) ==> r == Found(1, Extended(s, h, q.name), typ)
  }

  lemma {:induction false} MatchClean(q: Query, im: Image, id: nat, s: Spec, next: nat)
    requires QueryOk(q) && SourceOk(im.g) && id < |im.g.types| && |s.raw| <= MAX_LEN && next < |im.g.types|
    requires s.offset < WRAP
    ensures Clean(q, im, Find(im, id, q.name, Room(s)), s, next, MatchMember(q, im, id, s, next))
    decreases Room(s), 1, 0
  {
    hide SourceOk, Compat, Skip, IsStruct, MatchFrom, FindFrom;
    var c := Skip(im.g, id);
    if IsComposite(im.g.types[c].info.kind) {
      StructOk(im.g, c);
      MatchFromClean(q, im, c, 0, s, next);
    }
  }

  lemma {:induction false} MatchFromClean(q: Query, im: Image, c: nat, i: nat, s: Spec, next: nat)
    requires QueryOk(q) && SourceOk(im.g) && IsStruct(im.g, c) && i <= |im.g.types[c].tail.members|
    requires |s.raw| <= MAX_LEN && next < |im.g.types| && s.offset < WRAP
    ensures Clean(q, im, FindFrom(im, c, q.name, i, Room(s)), s, next, MatchFrom(q, im, c, i, s, next))
    decreases Room(s), 0, |im.g.types[c].tail.members| - i
  {
    hide SourceOk, Compat, Skip, QueryOk, MatchMember, Find;
    var t := im.g.types[c];
    if i < |t.tail.members| {
      if !Eligible(t, i) {
        MatchFromClean(q, im, c, i + 1, s, next);
      } else if |s.raw| < MAX_LEN {
        var m, d := t.tail.members[i], ByteOffset(t, i);
        var s' := Push(s, i, d);
        PushPop(s, i, d);
        if im.read(m.name) == "" {
          MatchClean(q, im, m.typ, s', next);
          var h := Find(im, m.typ, q.name, Room(s'));
          if h.Miss? {
            MatchFromClean(q, im, c, i + 1, s, next);
          } else if h.Hit? {
            WrapTwice(s.offset, d, h.delta);
            assert (s.raw + [i]) + h.path == s.raw + ([i] + h.path);
          }
        } else if im.read(m.name) != q.name {
          MatchFromClean(q, im, c, i + 1, s, next);
        }
      }
    }
  }

  // ---------------------------------------------------------------- unique names

  /** A path of member indices, through members without a name, to a member of the given name. */
  ghost predicate Visible(im: Image, id: nat, p: seq<nat>, name: string)
    requires SourceOk(im.g) && id < |im.g.types|
    decreases |p|
  {
    var c := Skip(im.g, id);
    p != [] && IsComposite(im.g.types[c].info.kind) &&
    ( StructOk(im.g, c);
      var t := im.g.types[c];
      p[0] < |t.tail.members| && Eligible(t, p[0]) &&
      if |p| == 1 then im.read(t.tail.members[p[0]].name) == name
      else im.read(t.tail.members[p[0]].name) == "" && Visible(im, t.tail.members[p[0]].typ, p[1..], name))
  }

  ghost function TypeAt(im: Image, id: nat, p: seq<nat>, name: string): (r: nat)
    requires SourceOk(im.g) && id < |im.g.types| && Visible(im, id, p, name)
    ensures r < |im.g.types|
    decreases |p|
  {
    var c := Skip(im.g, id);
    StructOk(im.g, c);
    var m := im.g.types[c].tail.members[p[0]];
    if |p| == 1 then m.typ else TypeAt(im, m.typ, p[1..], name)
  }

  /** Within one composite, counting through members without a name, no two fields share a name. */
  ghost predicate UniqueNames(im: Image)
    requires SourceOk(im.g)
  {
    forall id: nat, name, p, p' ::
      id < |im.g.types| && name != "" && Visible(im, id, p, name) && Visible(im, id, p', name) ==> p == p'
  }

  /** One more step at the front of a visible path. */
  lemma VisibleStep(im: Image, id: nat, c: nat, i: nat, p: seq<nat>, name: string)
    requires SourceOk(im.g) && id < |im.g.types| && c == Skip(im.g, id) && IsStruct(im.g, c)
    requires i < |im.g.types[c].tail.members| && Eligible(im.g.types[c], i)
    requires var m := im.g.types[c].tail.members[i]; im.read(m.name) == "" && Visible(im, m.typ, p, name)
    ensures Visible(im, id, [i] + p, name)
    ensures TypeAt(im, id, [i] + p, name) == TypeAt(im, im.g.types[c].tail.members[i].typ, p, name)
  {
    hide SourceOk, Skip;
    assert ([i] + p)[1..] == p;
  }

  lemma VisibleLast(im: Image, id: nat, c: nat, i: nat, name: string)
    requires SourceOk(im.g) && id < |im.g.types| && c == Skip(im.g, id) && IsStruct(im.g, c)
    requires i < |im.g.types[c].tail.members| && Eligible(im.g.types[c], i)
    requires im.read(im.g.types[c].tail.members[i].name) == name
    ensures Visible(im, id, [i], name)
    ensures TypeAt(im, id, [i], name) == im.g.types[c].tail.members[i].typ
  {
    hide SourceOk, Skip;
  }

  lemma {:induction false} FindVisible(im: Image, id: nat, name: string, room: nat)
    requires SourceOk(im.g) && id < |im.g.types| && name != "" && Find(im, id, name, room).Hit?
    ensures var h := Find(im, id, name, room);
            Visible(im, id, h.path, name) && TypeAt(im, id, h.path, name) == h.typ
    decreases room, 1, 0
  {
    hide SourceOk, Skip, Visible, TypeAt, FindFrom, IsStruct;
    var c := Skip(im.g, id);
    StructOk(im.g, c);
    FindFromVisible(im, id, c, name, 0, room);
  }

  lemma {:induction false} FindFromVisible(im: Image, id: nat, c: nat, name: string, i: nat, room: nat)
    requires SourceOk(im.g) && id < |im.g.types| && c == Skip(im.g, id) && IsStruct(im.g, c)
    requires i <= |im.g.types[c].tail.members| && name != "" && FindFrom(im, c, name, i, room).Hit?
    ensures var h := FindFrom(im, c, name, i, room);
            Visible(im, id, h.path, name) && TypeAt(im, id, h.path, name) == h.typ
    decreases room, 0, |im.g.types[c].tail.members| - i
  {
    hide SourceOk, Skip, Visible, TypeAt, Find;
    var t := im.g.types[c];
    if !Eligible(t, i) {
      FindFromVisible(im, id, c, name, i + 1, room);
    } else if room > 0 {
      var m := t.tail.members[i];
      if im.read(m.name) == "" {
        var h := Find(im, m.typ, name, room - 1);
        if h.Hit? {
          FindVisible(im, m.typ, name, room - 1);
          VisibleStep(im, id, c, i, h.path, name);
        } else if h.Miss? {
          FindFromVisible(im, id, c, name, i + 1, room);
        }
      } else if im.read(m.name) == name {
        VisibleLast(im, id, c, i, name);
      } else {
        FindFromVisible(im, id, c, name, i + 1, room);
      }
    }
  }

  /** Whatever state it starts from, a search that succeeds has seen a compatible member. */
  lemma {:induction false} MatchSeen(q: Query, im: Image, id: nat, s: Spec, next: nat) returns (p: seq<nat>)
    requires QueryOk(q) && SourceOk(im.g) && id < |im.g.types| && |s.raw| <= MAX_LEN && next < |im.g.types|
    requires MatchMember(q, im, id, s, next).code == 1
    ensures Visible(im, id, p, q.name) && Compat(q.local, q.typ, im.g, TypeAt(im, id, p, q.name))
    decreases Room(s), 1, 0
  {
    hide SourceOk, Skip, Visible, TypeAt, MatchFrom, IsStruct, Compat;
    var c := Skip(im.g, id);
    StructOk(im.g, c);
    p := MatchFromSeen(q, im, id, c, 0, s, next);
  }

  lemma {:induction false} MatchFromSeen(q: Query, im: Image, id: nat, c: nat, i: nat, s: Spec, next: nat)
    returns (p: seq<nat>)
    requires QueryOk(q) && SourceOk(im.g) && id < |im.g.types| && c == Skip(im.g, id) && IsStruct(im.g, c)
    requires i <= |im.g.types[c].tail.members| && |s.raw| <= MAX_LEN && next < |im.g.types|
    requires MatchFrom(q, im, c, i, s, next).code == 1
    ensures Visible(im, id, p, q.name) && Compat(q.local, q.typ, im.g, TypeAt(im, id, p, q.name))
    decreases Room(s), 0, |im.g.types[c].tail.members| - i
  {
    hide SourceOk, Skip, Visible, TypeAt, MatchMember, Compat;
    var t := im.g.types[c];
    if !Eligible(t, i) {
      p := MatchFromSeen(q, im, id, c, i + 1, s, next);
    } else {
      var m, d := t.tail.members[i], ByteOffset(t, i);
      var s' := Push(s, i, d);
      if im.read(m.name) == "" {
        var r := MatchMember(q, im, m.typ, s', next);
        if r.code != 0 {
          p := MatchSeen(q, im, m.typ, s', next);
          VisibleStep(im, id, c, i, p, q.name);
          p := [i] + p;
        } else {
          p := MatchFromSeen(q, im, id, c, i + 1, Pop(r.spec, d), r.next);
        }
      } else if im.read(m.name) == q.name {
        VisibleLast(im, id, c, i, q.name);
        p := [i];
      } else {
        p := MatchFromSeen(q, im, id, c, i + 1, Pop(s', d), next);
      }
    }
  }

  /** With unique names a search that succeeds found the first member of the name, and its spec is the
      old one extended by the path to it. */
  lemma MatchUnique(q: Query, im: Image, id: nat, s: Spec, next: nat)
    requires QueryOk(q) && SourceOk(im.g) && id < |im.g.types| && |s.raw| <= MAX_LEN && next < |im.g.types|
    requires s.offset < WRAP
    requires UniqueNames(im) && MatchMember(q, im, id, s, next).code == 1
    ensures var h := Find(im, id, q.name, Room(s));
            h.Hit? && MatchMember(q, im, id, s, next) == Found(1, Extended(s, h, q.name), h.typ)
  {
    hide SourceOk, Compat, Visible, TypeAt, MatchMember, Find, Skip;
    var h := Find(im, id, q.name, Room(s));
    MatchClean(q, im, id, s, next);
    var p := MatchSeen(q, im, id, s, next);
    if h.Hit? {
      FindVisible(im, id, q.name, Room(s));
      assert p == h.path;
    }
  }

  /** Whatever a search that succeeds found is compatible. */
  lemma {:induction false} FoundCompatible(q: Query, im: Image, id: nat, s: Spec, next: nat)
    requires QueryOk(q) && SourceOk(im.g) && id < |im.g.types| && |s.raw| <= MAX_LEN && next < |im.g.types|
    requires MatchMember(q, im, id, s, next).code == 1
    ensures Compat(q.local, q.typ, im.g, MatchMember(q, im, id, s, next).next)
    decreases Room(s), 1, 0
  {
    hide SourceOk, Skip, MatchFrom, IsStruct, Compat;
    var c := Skip(im.g, id);
    StructOk(im.g, c);
    FromCompatible(q, im, c, 0, s, next);
  }

  lemma {:induction false} FromCompatible(q: Query, im: Image, c: nat, i: nat, s: Spec, next: nat)
    requires QueryOk(q) && SourceOk(im.g) && IsStruct(im.g, c) && i <= |im.g.types[c].tail.members|
    requires |s.raw| <= MAX_LEN && next < |im.g.types| && MatchFrom(q, im, c, i, s, next).code == 1
    ensures Compat(q.local, q.typ, im.g, MatchFrom(q, im, c, i, s, next).next)
    decreases Room(s), 0, |im.g.types[c].tail.members| - i
  {
    hide SourceOk, MatchMember, Compat, QueryOk;
    var t := im.g.types[c];
    if !Eligible(t, i) {
      FromCompatible(q, im, c, i + 1, s, next);
    } else {
      var m, d := t.tail.members[i], ByteOffset(t, i);
      var s' := Push(s, i, d);
      if im.read(m.name) == "" {
        var r := MatchMember(q, im, m.typ, s', next);
        if r.code != 0 {
          FoundCompatible(q, im, m.typ, s', next);
        } else {
          FromCompatible(q, im, c, i + 1, Pop(r.spec, d), r.next);
        }
      } else if im.read(m.name) != q.name {
        FromCompatible(q, im, c, i + 1, Pop(s', d), next);
      }
    }
  }

  /** The guard of the branch that returns without undoing: the first member of the name, in the order of
      the search, is compatible. */
  ghost predicate FirstCompatible(q: Query, im: Image, id: nat, s: Spec)
    requires QueryOk(q) && SourceOk(im.g) && id < |im.g.types|
  {
    var h := Find(im, id, q.name, Room(s));
    h.Hit? ==> Compat(q.local, q.typ, im.g, h.typ)
  }

  /** A search that succeeds extends the spec by the path to the first member of the name exactly when that
      member is compatible. */
  lemma MatchExact(q: Query, im: Image, id: nat, s: Spec, next: nat)
    requires QueryOk(q) && SourceOk(im.g) && id < |im.g.types| && |s.raw| <= MAX_LEN && next < |im.g.types|
    requires s.offset < WRAP
    requires MatchMember(q, im, id, s, next).code == 1
    ensures var h := Find(im, id, q.name, Room(s));
            && h.Hit?
            && (MatchMember(q, im, id, s, next) == Found(1, Extended(s, h, q.name), h.typ) <==>
                FirstCompatible(q, im, id, s))
  {
    hide SourceOk, Compat, MatchMember, Find, Skip;
    MatchClean(q, im, id, s, next);
    FoundCompatible(q, im, id, s, next);
  }

  // ---------------------------------------------------------------- searching agrees with parsing

  /** Member names are empty exactly at offset 0. */
  ghost predicate NamesOk(im: Image) {
    forall c, i {:trigger im.g.types[c].tail.members[i]} ::
      0 <= c < |im.g.types| && im.g.types[c].tail.Members? && 0 <= i < |im.g.types[c].tail.members| ==>
        (im.g.types[c].tail.members[i].name == 0 <==> im.read(im.g.types[c].tail.members[i].name) == "")
  }

  /** Parsing the path to a hit gives the hit. */
  lemma {:induction false} FindParses(im: Image, id: nat, name: string, room: nat, accs: seq<Accessor>, offset: nat)
    requires SourceOk(im.g) && id < |im.g.types| && NamesOk(im) && name != "" && Find(im, id, name, room).Hit?
    ensures var h := Find(im, id, name, room);
            ParseAll(im, At(id, accs, offset), h.path) ==
            Ok(At(h.typ, accs + [Accessor(h.composite, h.idx, Some(name))], Add32(offset, h.delta)))
    decreases room, 1, 0
  {
    hide SourceOk, Skip, FindFrom, IsStruct, ParseAll, NamesOk;
    var c := Skip(im.g, id);
    StructOk(im.g, c);
    FindFromParses(im, id, c, name, 0, room, accs, offset);
  }

  lemma {:induction false} FindFromParses(im: Image, id: nat, c: nat, name: string, i: nat, room: nat,
                                          accs: seq<Accessor>, offset: nat)
    requires SourceOk(im.g) && id < |im.g.types| && c == Skip(im.g, id) && IsStruct(im.g, c) && NamesOk(im)
    requires i <= |im.g.types[c].tail.members| && name != "" && FindFrom(im, c, name, i, room).Hit?
    ensures var h := FindFrom(im, c, name, i, room);
            ParseAll(im, At(id, accs, offset), h.path) ==
            Ok(At(h.typ, accs + [Accessor(h.composite, h.idx, Some(name))], Add32(offset, h.delta)))
    decreases room, 0, |im.g.types[c].tail.members| - i
  {
    hide SourceOk, Skip, Find, ParseAll, ParseStep, Eligible, ByteOffset, NamesOk;
    var t := im.g.types[c];
    if !Eligible(t, i) {
      FindFromParses(im, id, c, name, i + 1, room, accs, offset);
    } else if room > 0 {
      var m, d := t.tail.members[i], ByteOffset(t, i);
      MemberParses(im, At(id, accs, offset), c, i);
      if im.read(m.name) == "" {
        var h := Find(im, m.typ, name, room - 1);
        if h.Hit? {
          FindParses(im, m.typ, name, room - 1, accs, Add32(offset, d));
          ParseCons(im, At(id, accs, offset), i, h.path);
          WrapTwice(offset, d, h.delta);
        } else if h.Miss? {
          FindFromParses(im, id, c, name, i + 1, room, accs, offset);
        }
      } else if im.read(m.name) == name {
        ParseOne(im, At(id, accs, offset), i);
      } else {
        FindFromParses(im, id, c, name, i + 1, room, accs, offset);
      }
    }
  }

  lemma MemberParses(im: Image, st: At, c: nat, i: nat)
    requires SourceOk(im.g) && st.id < |im.g.types| && c == Skip(im.g, st.id) && IsStruct(im.g, c) && NamesOk(im)
    requires i < |im.g.types[c].tail.members| && Eligible(im.g.types[c], i)
    ensures var m, d := im.g.types[c].tail.members[i], ByteOffset(im.g.types[c], i);
            ParseStep(im, st, i) == Ok(At(m.typ,
              if im.read(m.name) == "" then st.accs else st.accs + [Accessor(c, i, Some(im.read(m.name)))],
              Add32(st.offset, d)))
  {
    hide SourceOk, Skip;
  }

  lemma ParseCons(im: Image, st: At, a: int, rest: seq<int>)
    requires SourceOk(im.g) && st.id < |im.g.types| && ParseStep(im, st, a).Ok?
    ensures ParseAll(im, st, [a] + rest) == ParseAll(im, ParseStep(im, st, a).value, rest)
  {
    hide SourceOk, ParseStep;
    assert ([a] + rest)[1..] == rest;
  }

  lemma ParseOne(im: Image, st: At, a: int)
    requires SourceOk(im.g) && st.id < |im.g.types|
    ensures ParseAll(im, st, [a]) == ParseStep(im, st, a)
  {
    hide SourceOk, ParseStep;
    var raw: seq<int> := [a];
    assert raw[1..] == [];
    var r := ParseStep(im, st, a);
    if r.Ok? {
      assert ParseAll(im, r.value, raw[1..]) == r;
    }
  }

  // ---------------------------------------------------------------- matching a whole spec

  /** A local accessor as parsing makes them: the root index, array indices, named members. */
  ghost predicate LocalOk(local: Image, a: Accessor)
    requires SourceOk(local.g)
  {
    if a.name.None? then a.idx < WRAP
    else
      && IsStruct(local.g, a.typeId) && a.idx < |local.g.types[a.typeId].tail.members|
      && local.read(local.g.types[a.typeId].tail.members[a.idx].name) == a.name.value && a.name.value != ""
  }

  ghost predicate LocalSpec(local: Image, accs: seq<Accessor>)
    requires SourceOk(local.g)
  {
    && accs != [] && accs[0].name.None?
    && (forall k :: 0 <= k < |accs| ==> LocalOk(local, accs[k]))
  }

  ghost function QueryFor(local: Image, a: Accessor): (q: Query)
    requires SourceOk(local.g) && LocalOk(local, a) && a.name.Some?
    ensures QueryOk(q)
  {
    Query(local.g, a.name.value, local.g.types[a.typeId].tail.members[a.idx].typ)
  }

  /** An index accessor: the element type it leads to. */
  ghost function Element(im: Image, id: nat, idx: nat, first: bool): (r: Option<nat>)
    requires SourceOk(im.g) && id < |im.g.types|
    ensures r.Some? ==> r.value < |im.g.types|
  {
    var c := Skip(im.g, id);
    if first then Some(c)
    else if im.g.types[c].info.kind != KArray then None
    else
      ArrayOk(im.g, c);
      if idx >= im.g.types[c].tail.nelems then None else Some(Skip(im.g, im.g.types[c].tail.elem))
  }

  ghost function MatchIndex(im: Image, a: Accessor, first: bool, id: nat, s: Spec): (r: Found)
    requires SourceOk(im.g) && id < |im.g.types| && |s.raw| <= MAX_LEN
    ensures |r.spec.raw| <= MAX_LEN && r.next < |im.g.types| && (r.code == 1 ==> |r.spec.accs| == |s.accs| + 1)
  {
    var e := Element(im, id, a.idx, first);
    if e.None? then Found(0, s, id)
    else if |s.raw| == MAX_LEN then Found(E2BIG, s, e.value)
    else
      RecordsOk(im.g);
      var s' := Spec(s.accs + [Accessor(e.value, a.idx, None)], s.raw + [ToInt32(a.idx)], s.offset);
      var sz := ToInt32(ResolveSize.SizeOf(im.g.types, e.value));
      if sz < 0 then Found(sz, s', e.value)
      else Found(1, s'.(offset := Add32(s'.offset, a.idx * sz)), e.value)
  }

  /** The loop of bpf_core_spec_match. */
  ghost function MatchAccs(local: Image, accs: seq<Accessor>, im: Image, i: nat, id: nat, s: Spec): Found
    requires SourceOk(local.g) && SourceOk(im.g) && LocalSpec(local, accs) && i <= |accs|
    requires id < |im.g.types| && |s.raw| <= MAX_LEN
    decreases |accs| - i
  {
    if i == |accs| then Found(1, s, id)
    else
      var r := MatchOne(local, accs[i], im, i == 0, id, s);
      if r.code <= 0 then r else MatchAccs(local, accs, im, i + 1, r.next, r.spec)
  }

  ghost function MatchOne(local: Image, a: Accessor, im: Image, first: bool, id: nat, s: Spec): (r: Found)
    requires SourceOk(local.g) && SourceOk(im.g) && LocalOk(local, a) && id < |im.g.types| && |s.raw| <= MAX_LEN
    ensures |r.spec.raw| <= MAX_LEN && r.next < |im.g.types| && (r.code > 0 ==> |r.spec.accs| == |s.accs| + 1)
  {
    if a.name.Some? then
      var c := Skip(im.g, id);
      MatchMember(QueryFor(local, a), im, c, s, c)
    else MatchIndex(im, a, first, id, s)
  }

  ghost function SpecMatch(local: Image, accs: seq<Accessor>, im: Image, root: nat): Found
    requires SourceOk(local.g) && SourceOk(im.g) && LocalSpec(local, accs) && root < |im.g.types|
  {
    MatchAccs(local, accs, im, 0, root, EMPTY)
  }

  /** The guard at every named accessor that the match gets to. */
  ghost predicate Guarded(local: Image, accs: seq<Accessor>, im: Image, i: nat, id: nat, s: Spec)
    requires SourceOk(local.g) && SourceOk(im.g) && LocalSpec(local, accs) && i <= |accs|
    requires id < |im.g.types| && |s.raw| <= MAX_LEN
    decreases |accs| - i
  {
    i == |accs| ||
    ( && (accs[i].name.Some? ==> FirstCompatible(QueryFor(local, accs[i]), im, Skip(im.g, id), s))
      && var r := MatchOne(local, accs[i], im, i == 0, id, s);
         (r.code > 0 ==> Guarded(local, accs, im, i + 1, r.next, r.spec)))
  }

  // ---------------------------------------------------------------- the target spec parses back

  predicate SameAccess(a: Accessor, b: Accessor) {
    a.name == b.name && (a.name.None? ==> a.idx == b.idx)
  }

  /** After the first i accessors: parsing the raw spec so far arrives where the match stands. */
  ghost predicate Agrees(im: Image, root: nat, accs: seq<Accessor>, i: nat, id: nat, s: Spec)
    requires SourceOk(im.g) && root < |im.g.types| && i <= |accs|
  {
    && id < |im.g.types| && |s.raw| <= MAX_LEN && s.offset < WRAP && |s.accs| == i
    && (forall k :: 0 <= k < i ==> SameAccess(s.accs[k], accs[k]))
    && s.raw != []
    && ParseRoot(im, root, s.raw[0]).Ok?
    && ParseAll(im, ParseRoot(im, root, s.raw[0]).value, s.raw[1..]) == Ok(At(id, s.accs, s.offset))
  }

  lemma ModMul(a: int, b: int)
    ensures ((a % WRAP) * b) % WRAP == (a * b) % WRAP
  {
    var k := a / WRAP;
    assert a == a % WRAP + WRAP * k;
    assert a * b == (a % WRAP) * b + WRAP * (k * b);
    ModAdd((a % WRAP) * b, k * b);
  }

  lemma ModAdd(x: int, k: int)
    ensures (x + WRAP * k) % WRAP == x % WRAP
  {
  }

  lemma Int32Wraps(x: nat)
    requires x < WRAP
    ensures ToInt32(x) % WRAP == x
  {
  }

  lemma SizeTruncated(T: seq<BtfType>, id: nat)
    requires ResolveSize.Records(T) && ToInt32(ResolveSize.SizeOf(T, id)) >= 0
    ensures ToInt32(ResolveSize.SizeOf(T, id)) == ResolveSize.SizeOf(T, id)
  {
    ResolveSize.SizeIsExact(T, id);
  }

  /** The root index, matched and parsed. */
  lemma RootIndex(im: Image, root: nat, acc: Accessor)
    requires SourceOk(im.g) && root < |im.g.types| && acc.name.None? && acc.idx < WRAP
    requires MatchIndex(im, acc, true, root, EMPTY).code == 1
    ensures var r := MatchIndex(im, acc, true, root, EMPTY);
            && r.spec.raw == [ToInt32(acc.idx)] && r.spec.accs == [Accessor(r.next, acc.idx, None)]
            && r.spec.offset < WRAP
            && ParseRoot(im, root, ToInt32(acc.idx)) == Ok(At(r.next, r.spec.accs, r.spec.offset))
  {
    hide SourceOk, Skip, ResolveSize.SizeOf, ResolveSize.Records;
    var a, c := acc.idx, Skip(im.g, root);
    RecordsOk(im.g);
    SizeTruncated(im.g.types, c);
    var sz := ResolveSize.SizeOf(im.g.types, c);
    RootOffset(a, sz);
    var r := MatchIndex(im, acc, true, root, EMPTY);
    assert EMPTY.accs + [Accessor(c, a, None)] == [Accessor(c, a, None)] && EMPTY.raw + [ToInt32(a)] == [ToInt32(a)];
  }

  lemma RootOffset(a: nat, sz: int)
    requires a < WRAP
    ensures ToInt32(a) % WRAP == a && (ToInt32(a) * sz) % WRAP == Add32(0, a * sz)
  {
    Int32Wraps(a);
    ModMul(ToInt32(a), sz);
  }

  lemma FirstAgrees(im: Image, root: nat, accs: seq<Accessor>)
    requires SourceOk(im.g) && root < |im.g.types| && accs != [] && accs[0].name.None? && accs[0].idx < WRAP
    requires MatchIndex(im, accs[0], true, root, EMPTY).code == 1
    ensures var r := MatchIndex(im, accs[0], true, root, EMPTY);
            Agrees(im, root, accs, 1, r.next, r.spec)
  {
    hide SourceOk, Skip, ParseAll, ParseRoot, MatchIndex;
    RootIndex(im, root, accs[0]);
    var r := MatchIndex(im, accs[0], true, root, EMPTY);
    ParseNone(im, At(r.next, r.spec.accs, r.spec.offset), r.spec.raw[1..]);
  }

  /** An array index. */
  lemma IndexAgrees(im: Image, root: nat, accs: seq<Accessor>, i: nat, id: nat, s: Spec)
    requires SourceOk(im.g) && root < |im.g.types| && 0 < i < |accs| && Agrees(im, root, accs, i, id, s)
    requires accs[i].name.None? && accs[i].idx < WRAP
    requires MatchIndex(im, accs[i], false, id, s).code == 1
    ensures var r := MatchIndex(im, accs[i], false, id, s);
            Agrees(im, root, accs, i + 1, r.next, r.spec)
  {
    hide SourceOk, Skip, ResolveSize.SizeOf, ResolveSize.Records, ParseAll, ParseRoot;
    var a, raw := accs[i].idx, ToInt32(accs[i].idx);
    var r := MatchIndex(im, accs[i], false, id, s);
    var e := Element(im, id, a, false).value;
    RecordsOk(im.g);
    SizeTruncated(im.g.types, e);
    ArrayOk(im.g, Skip(im.g, id));
    Int32Wraps(a);
    SameProduct(s.offset, a, ResolveSize.SizeOf(im.g.types, e));
    var st := At(id, s.accs, s.offset);
    assert ParseStep(im, st, raw) == Ok(At(e, r.spec.accs, r.spec.offset));
    ParseOne(im, st, raw);
    ParseAppend(im, ParseRoot(im, root, s.raw[0]).value, s.raw[1..], [raw]);
    assert r.spec.raw == s.raw + [raw] && r.spec.raw[1..] == s.raw[1..] + [raw];
  }

  /** An index and its signed form scale to the same offset. */
  lemma SameProduct(offset: nat, a: nat, sz: int)
    requires a < WRAP
    ensures Add32(offset, ToInt32(a) * sz) == Add32(offset, a * sz)
  {
    if a >= WRAP / 2 {
      assert (a - WRAP) * sz == a * sz - WRAP * sz;
      ModAdd(offset + a * sz - WRAP * sz, sz);
    }
  }

  /** A named member. */
  lemma MemberAgrees(local: Image, im: Image, root: nat, accs: seq<Accessor>, i: nat, id: nat, s: Spec)
    requires SourceOk(local.g) && SourceOk(im.g) && root < |im.g.types| && 0 < i < |accs|
    requires Agrees(im, root, accs, i, id, s)
    requires NamesOk(im) && LocalOk(local, accs[i]) && accs[i].name.Some?
    requires FirstCompatible(QueryFor(local, accs[i]), im, Skip(im.g, id), s)
    requires MatchOne(local, accs[i], im, false, id, s).code == 1
    ensures var r := MatchOne(local, accs[i], im, false, id, s);
            Agrees(im, root, accs, i + 1, r.next, r.spec)
  {
    hide SourceOk, Skip, ParseAll, ParseRoot, Find, MatchMember, NamesOk, IsStruct, Compat;
    var q, c := QueryFor(local, accs[i]), Skip(im.g, id);
    MatchExact(q, im, c, s, c);
    var h := Find(im, c, q.name, Room(s));
    FindParses(im, c, q.name, Room(s), s.accs, s.offset);
    SkippedParse(im, id, h.path, s.accs, s.offset);
    ParseAppend(im, ParseRoot(im, root, s.raw[0]).value, s.raw[1..], h.path);
    assert (s.raw + h.path)[1..] == s.raw[1..] + h.path;
  }

  /** Parsing from a type starts by skipping its modifiers and typedefs. */
  lemma SkippedParse(im: Image, id: nat, raw: seq<int>, accs: seq<Accessor>, offset: nat)
    requires SourceOk(im.g) && id < |im.g.types| && raw != []
    ensures ParseAll(im, At(Skip(im.g, id), accs, offset), raw) == ParseAll(im, At(id, accs, offset), raw)
  {
    hide SourceOk, Skip;
    SkipTwice(im.g, id);
    assert ParseStep(im, At(Skip(im.g, id), accs, offset), raw[0]) == ParseStep(im, At(id, accs, offset), raw[0]);
  }

  lemma {:induction false} AccsAgree(local: Image, accs: seq<Accessor>, im: Image, root: nat, i: nat, id: nat, s: Spec)
    requires SourceOk(local.g) && SourceOk(im.g) && LocalSpec(local, accs) && root < |im.g.types| && 0 < i <= |accs|
    requires NamesOk(im) && Agrees(im, root, accs, i, id, s) && Guarded(local, accs, im, i, id, s)
    requires MatchAccs(local, accs, im, i, id, s).code == 1
    ensures var r := MatchAccs(local, accs, im, i, id, s); Agrees(im, root, accs, |accs|, r.next, r.spec)
    decreases |accs| - i
  {
    hide SourceOk, MatchOne, NamesOk, ParseAll, ParseRoot, LocalOk, MatchIndex, FirstCompatible, Skip;
    if i < |accs| {
      var r := MatchOne(local, accs[i], im, false, id, s);
      OneCode(local, accs[i], im, false, id, s);
      if accs[i].name.Some? {
        MemberAgrees(local, im, root, accs, i, id, s);
      } else {
        IdxFits(local, accs, i);
        IndexAgrees(im, root, accs, i, id, s);
      }
      AccsAgree(local, accs, im, root, i + 1, r.next, r.spec);
    }
  }

  lemma OneCode(local: Image, a: Accessor, im: Image, first: bool, id: nat, s: Spec)
    requires SourceOk(local.g) && SourceOk(im.g) && LocalOk(local, a) && id < |im.g.types| && |s.raw| <= MAX_LEN
    ensures MatchOne(local, a, im, first, id, s).code <= 1
    ensures a.name.None? ==> MatchOne(local, a, im, first, id, s) == MatchIndex(im, a, first, id, s)
  {
    hide SourceOk, MatchMember, Skip, ResolveSize.SizeOf;
  }

  /** Matching agrees with parsing: if the first member of each name, in the order of the search, is
      compatible, then parsing the target raw spec from the target root gives exactly the target spec,
      offset and accessors included, with one accessor per local one, of the same name or the same
      index. */
  lemma MatchAgreesWithParse(local: Image, accs: seq<Accessor>, im: Image, root: nat)
    requires SourceOk(local.g) && SourceOk(im.g) && LocalSpec(local, accs) && root < |im.g.types|
    requires NamesOk(im) && Guarded(local, accs, im, 0, root, EMPTY)
    requires SpecMatch(local, accs, im, root).code == 1
    ensures Agreement(accs, im, root, SpecMatch(local, accs, im, root).spec)
  {
    hide SourceOk, MatchOne, NamesOk, ParseAll, ParseRoot, LocalOk, MatchIndex, FirstCompatible;
    var r := MatchOne(local, accs[0], im, true, root, EMPTY);
    OneCode(local, accs[0], im, true, root, EMPTY);
    IdxFits(local, accs, 0);
    FirstAgrees(im, root, accs);
    AccsAgree(local, accs, im, root, 1, r.next, r.spec);
  }

  ghost predicate Agreement(accs: seq<Accessor>, im: Image, root: nat, s: Spec)
    requires SourceOk(im.g) && root < |im.g.types|
  {
    && ParseSpec(im, root, s.raw) == Ok(s)
    && |s.accs| == |accs| && forall k :: 0 <= k < |accs| ==> SameAccess(s.accs[k], accs[k])
  }

  lemma IdxFits(local: Image, accs: seq<Accessor>, i: nat)
    requires SourceOk(local.g) && LocalSpec(local, accs) && i < |accs|
    ensures accs[i].name.None? ==> accs[i].idx < WRAP
  {
    hide SourceOk;
    assert LocalOk(local, accs[i]);
  }

  /** Unique names satisfy the guard wherever the match succeeds. */
  lemma {:induction false} UniqueGuards(local: Image, accs: seq<Accessor>, im: Image, i: nat, id: nat, s: Spec)
    requires SourceOk(local.g) && SourceOk(im.g) && LocalSpec(local, accs) && i <= |accs|
    requires id < |im.g.types| && |s.raw| <= MAX_LEN && s.offset < WRAP && UniqueNames(im)
    requires MatchAccs(local, accs, im, i, id, s).code == 1
    ensures Guarded(local, accs, im, i, id, s)
    decreases |accs| - i
  {
    hide SourceOk, MatchOne, UniqueNames, LocalOk, MatchIndex, FirstCompatible, Skip, QueryFor;
    if i < |accs| {
      assert LocalOk(local, accs[i]);
      var r := MatchOne(local, accs[i], im, i == 0, id, s);
      OneCode(local, accs[i], im, i == 0, id, s);
      OffsetFits(local, accs[i], im, i == 0, id, s);
      if accs[i].name.Some? {
        UniqueFirst(local, accs[i], im, i == 0, id, s);
      }
      UniqueGuards(local, accs, im, i + 1, r.next, r.spec);
    }
  }

  lemma UniqueFirst(local: Image, a: Accessor, im: Image, first: bool, id: nat, s: Spec)
    requires SourceOk(local.g) && SourceOk(im.g) && LocalOk(local, a) && a.name.Some? && id < |im.g.types|
    requires |s.raw| <= MAX_LEN && s.offset < WRAP && UniqueNames(im) && MatchOne(local, a, im, first, id, s).code == 1
    ensures FirstCompatible(QueryFor(local, a), im, Skip(im.g, id), s)
  {
    hide SourceOk, Skip, MatchMember, Find, UniqueNames, LocalOk, Compat;
    var q, c := QueryFor(local, a), Skip(im.g, id);
    MatchUnique(q, im, c, s, c);
    FoundCompatible(q, im, c, s, c);
  }

  /** Offsets stay in 32 bits. */
  lemma OffsetFits(local: Image, a: Accessor, im: Image, first: bool, id: nat, s: Spec)
    requires SourceOk(local.g) && SourceOk(im.g) && LocalOk(local, a) && id < |im.g.types|
    requires |s.raw| <= MAX_LEN && s.offset < WRAP
    ensures MatchOne(local, a, im, first, id, s).spec.offset < WRAP
  {
    hide SourceOk, Skip, MatchMember, ResolveSize.SizeOf;
    if a.name.Some? {
      MemberOffset(QueryFor(local, a), im, Skip(im.g, id), s, Skip(im.g, id));
    }
  }

  lemma {:induction false} MemberOffset(q: Query, im: Image, id: nat, s: Spec, next: nat)
    requires QueryOk(q) && SourceOk(im.g) && id < |im.g.types| && |s.raw| <= MAX_LEN && next < |im.g.types|
    requires s.offset < WRAP
    ensures MatchMember(q, im, id, s, next).spec.offset < WRAP
    decreases Room(s), 1, 0
  {
    hide SourceOk, Compat, Skip, IsStruct, MatchFrom;
    var c := Skip(im.g, id);
    if IsComposite(im.g.types[c].info.kind) {
      StructOk(im.g, c);
      FromOffset(q, im, c, 0, s, next);
    }
  }

  lemma {:induction false} FromOffset(q: Query, im: Image, c: nat, i: nat, s: Spec, next: nat)
    requires QueryOk(q) && SourceOk(im.g) && IsStruct(im.g, c) && i <= |im.g.types[c].tail.members|
    requires |s.raw| <= MAX_LEN && next < |im.g.types| && s.offset < WRAP
    ensures MatchFrom(q, im, c, i, s, next).spec.offset < WRAP
    decreases Room(s), 0, |im.g.types[c].tail.members| - i
  {
    hide SourceOk, Compat, MatchMember, MatchFrom, QueryOk, Eligible, ByteOffset;
    var t := im.g.types[c];
    if i == |t.tail.members| {
      MatchEnd(q, im, c, s, next);
    } else {
      MatchNext(q, im, c, i, s, next);
      if !Eligible(t, i) {
        FromOffset(q, im, c, i + 1, s, next);
      } else if |s.raw| < MAX_LEN {
        var m, d := t.tail.members[i], ByteOffset(t, i);
        var s' := Push(s, i, d);
        if im.read(m.name) == "" {
          MemberOffset(q, im, m.typ, s', next);
          var r := MatchMember(q, im, m.typ, s', next);
          if r.code == 0 {
            FromOffset(q, im, c, i + 1, Pop(r.spec, d), r.next);
          }
        } else if im.read(m.name) != q.name {
          FromOffset(q, im, c, i + 1, Pop(s', d), next);
        }
      }
    }
  }

  /** With unique member names, counting through members without a name, a match that succeeds agrees
      with parsing. */
  lemma UniqueMatchAgrees(local: Image, accs: seq<Accessor>, im: Image, root: nat)
    requires SourceOk(local.g) && SourceOk(im.g) && LocalSpec(local, accs) && root < |im.g.types|
    requires UniqueNames(im) && NamesOk(im)
    requires SpecMatch(local, accs, im, root).code == 1
    ensures Agreement(accs, im, root, SpecMatch(local, accs, im, root).spec)
  {
    hide SourceOk, UniqueNames, NamesOk, LocalSpec, MatchAccs, Guarded, Agreement;
    UniqueGuards(local, accs, im, 0, root, EMPTY);
    MatchAgreesWithParse(local, accs, im, root);
  }

  // ---------------------------------------------------------------- local specs come from parsing

  lemma StepLocal(im: Image, st: At, a: int)
    requires SourceOk(im.g) && st.id < |im.g.types| && LocalSpec(im, st.accs)
    ensures var r := ParseStep(im, st, a); r.Ok? ==> LocalSpec(im, r.value.accs)
  {
    hide SourceOk, Skip, ResolveSize.SizeOf;
    var r := ParseStep(im, st, a);
    if r.Ok? {
      StructIfComposite(im.g, Skip(im.g, st.id));
      var accs := r.value.accs;
      if accs != st.accs {
        assert accs[..|st.accs|] == st.accs;
        assert LocalOk(im, accs[|st.accs|]);
        forall k | 0 <= k < |accs|
          ensures LocalOk(im, accs[k])
        {
          assert k < |st.accs| ==> accs[k] == st.accs[k];
        }
      }
    }
  }

  lemma {:induction false} ParseLocal(im: Image, st: At, raw: seq<int>)
    requires SourceOk(im.g) && st.id < |im.g.types| && LocalSpec(im, st.accs)
    ensures var r := ParseAll(im, st, raw); r.Ok? ==> LocalSpec(im, r.value.accs)
    decreases |raw|
  {
    hide SourceOk, ParseStep, LocalSpec;
    if raw != [] {
      StepLocal(im, st, raw[0]);
      var r := ParseStep(im, st, raw[0]);
      if r.Ok? {
        ParseLocal(im, r.value, raw[1..]);
      }
    }
  }

  lemma ParsedIsLocal(im: Image, root: nat, raw: seq<int>)
    requires SourceOk(im.g) && root < |im.g.types|
    ensures ParseSpec(im, root, raw).Ok? ==> LocalSpec(im, ParseSpec(im, root, raw).value.accs)
  {
    hide SourceOk, ParseAll, Skip, ResolveSize.SizeOf;
    if |raw| > 0 {
      var first := ParseRoot(im, root, raw[0]);
      if first.Ok? {
        ParseLocal(im, first.value, raw[1..]);
      }
    }
  }

  /** The whole relocation: a local spec that parses, matched against another graph with unique names. */
  lemma RelocationAgrees(local: Image, lroot: nat, lraw: seq<int>, im: Image, root: nat)
    requires SourceOk(local.g) && lroot < |local.g.types|
    requires SourceOk(im.g) && root < |im.g.types| && UniqueNames(im) && NamesOk(im)
    requires ParseSpec(local, lroot, lraw).Ok?
    ensures var accs := ParseSpec(local, lroot, lraw).value.accs;
            LocalSpec(local, accs) &&
            var r := SpecMatch(local, accs, im, root);
            r.code == 1 ==> Agreement(accs, im, root, r.spec)
  {
    hide SourceOk, UniqueNames, NamesOk, SpecMatch, LocalSpec, ParseSpec, Agreement;
    ParsedIsLocal(local, lroot, lraw);
    var accs := ParseSpec(local, lroot, lraw).value.accs;
    if SpecMatch(local, accs, im, root).code == 1 {
      UniqueMatchAgrees(local, accs, im, root);
    }
  }

  // ---------------------------------------------------------------- the code

  method SkipModsAndTypedefs(g: Source, id: nat) returns (r: nat)
    requires SourceOk(g) && id < |g.types|
    ensures r == Skip(g, id)
  {
    hide SourceOk, Height;
    r := id;
    while Skipped(g.types[r].info.kind)
      invariant r < |g.types| && Skip(g, r) == Skip(g, id)
      decreases Height(g, r)
    {
      SkipStep(g, r);
      r := g.types[r].size;
    }
  }

  method FieldsAreCompat(lg: Source, lid: nat, tg: Source, tid: nat) returns (ok: bool)
    requires SourceOk(lg) && SourceOk(tg) && lid < |lg.types| && tid < |tg.types|
    ensures ok == Compat(lg, lid, tg, tid)
  {
    hide SourceOk, Height, Skip;
    var l: nat, t: nat := lid, tid;
    while true
      invariant l < |lg.types| && t < |tg.types| && Compat(lg, l, tg, t) == Compat(lg, lid, tg, tid)
      decreases Height(lg, l)
    {
      ghost var h := Height(lg, l);
      var l' := SkipModsAndTypedefs(lg, l);
      var t' := SkipModsAndTypedefs(tg, t);
      var lt, tt := lg.types[l'], tg.types[t'];
      if IsComposite(lt.info.kind) && IsComposite(tt.info.kind) {
        return true;
      }
      if lt.info.kind != tt.info.kind {
        return false;
      }
      match lt.info.kind
      case KFwd => return true;
      case KPtr => return true;
      case KEnum => return lt.size == tt.size;
      case KInt => return SameInt(lt, tt);
      case KArray =>
        ArrayOk(lg, l');
        ArrayOk(tg, t');
        l, t := lt.tail.elem, tt.tail.elem;
      case _ => return false;
    }
  }

  lemma ParseNext(im: Image, st: At, raw: seq<int>, i: nat)
    requires SourceOk(im.g) && st.id < |im.g.types| && i < |raw|
    ensures var r := ParseStep(im, st, raw[i]);
            ParseAll(im, st, raw[i..]) == if r.Err? then r else ParseAll(im, r.value, raw[i + 1..])
  {
    hide SourceOk, ParseStep;
    var rest := raw[i..];
    assert rest[0] == raw[i] && rest[1..] == raw[i + 1..];
  }

  lemma ParseNone(im: Image, st: At, raw: seq<int>)
    requires SourceOk(im.g) && st.id < |im.g.types| && raw == []
    ensures ParseAll(im, st, raw) == Ok(st)
  {
  }

  lemma StructFacts(g: Source, c: nat)
    requires SourceOk(g) && c < |g.types| && IsComposite(g.types[c].info.kind)
    ensures IsStruct(g, c) && g.types[c].tail.Members?
    ensures forall i :: 0 <= i < |g.types[c].tail.members| ==> g.types[c].tail.members[i].typ < |g.types|
  {
    StructOk(g, c);
  }

  lemma LocalStruct(local: Image, a: Accessor)
    requires SourceOk(local.g) && LocalOk(local, a) && a.name.Some?
    ensures a.typeId < |local.g.types| && local.g.types[a.typeId].tail.Members?
    ensures a.idx < |local.g.types[a.typeId].tail.members|
    ensures local.read(local.g.types[a.typeId].tail.members[a.idx].name) == a.name.value
    ensures local.g.types[a.typeId].tail.members[a.idx].typ < |local.g.types|
    ensures QueryFor(local, a) == Query(local.g, a.name.value, local.g.types[a.typeId].tail.members[a.idx].typ)
  {
  }

  lemma MatchEntry(q: Query, im: Image, id: nat, s: Spec, next: nat)
    requires QueryOk(q) && SourceOk(im.g) && id < |im.g.types| && |s.raw| <= MAX_LEN && next < |im.g.types|
    ensures var c := Skip(im.g, id);
            if !IsComposite(im.g.types[c].info.kind) then MatchMember(q, im, id, s, next) == Found(0, s, next)
            else IsStruct(im.g, c) && MatchMember(q, im, id, s, next) == MatchFrom(q, im, c, 0, s, next)
  {
    hide SourceOk, Skip, IsStruct, MatchFrom;
    var c := Skip(im.g, id);
    if IsComposite(im.g.types[c].info.kind) {
      StructOk(im.g, c);
    }
  }

  lemma MatchEnd(q: Query, im: Image, c: nat, s: Spec, next: nat)
    requires QueryOk(q) && SourceOk(im.g) && IsStruct(im.g, c) && |s.raw| <= MAX_LEN && next < |im.g.types|
    ensures MatchFrom(q, im, c, |im.g.types[c].tail.members|, s, next) == Found(0, s, next)
  {
  }

  lemma MatchNext(q: Query, im: Image, c: nat, i: nat, s: Spec, next: nat)
    requires QueryOk(q) && SourceOk(im.g) && IsStruct(im.g, c) && i < |im.g.types[c].tail.members|
    requires |s.raw| <= MAX_LEN && next < |im.g.types|
    ensures im.g.types[c].tail.members[i].typ < |im.g.types|
    ensures var t := im.g.types[c];
            MatchFrom(q, im, c, i, s, next) ==
            if !Eligible(t, i) then MatchFrom(q, im, c, i + 1, s, next)
            else if |s.raw| == MAX_LEN then Found(E2BIG, s, next)
            else
              var m, d := t.tail.members[i], ByteOffset(t, i);
              var s' := Push(s, i, d);
              var name := im.read(m.name);
              if name == "" then
                var r := MatchMember(q, im, m.typ, s', next);
                if r.code != 0 then r else MatchFrom(q, im, c, i + 1, Pop(r.spec, d), r.next)
              else if name == q.name then
                if Compat(q.local, q.typ, im.g, m.typ)
                then Found(1, s'.(accs := s'.accs + [Accessor(c, i, Some(name))]), m.typ)
                else Found(0, s', m.typ)
              else MatchFrom(q, im, c, i + 1, Pop(s', d), next)
  {
    hide SourceOk, Compat, MatchMember;
  }

  class SpecBuffer {
    var accs: seq<Accessor>
    var raw: seq<int>
    var offset: nat

    constructor ()
      ensures State() == EMPTY
    {
      accs, raw, offset := [], [], 0;
    }

    ghost function State(): Spec
      reads this
    {
      Spec(accs, raw, offset)
    }

    /** bpf_core_spec_parse, on the indices of the access string. */
    method Parse(im: Image, root: nat, indices: seq<int>) returns (err: int)
      requires SourceOk(im.g) && root < |im.g.types|
      modifies this
      ensures var r := ParseSpec(im, root, indices);
              if r.Ok? then err == 0 && State() == r.value else err == r.code
    {
      hide SourceOk, Skip, ResolveSize.SizeOf, ResolveSize.Records, ParseAll, ParseStep;
      accs, raw, offset := [], [], 0;
      if |indices| > MAX_LEN {
        return E2BIG;
      }
      raw := indices;
      if indices == [] {
        return EINVAL;
      }
      RecordsOk(im.g);
      var id: nat := SkipModsAndTypedefs(im.g, root);
      accs := [Accessor(id, raw[0] % WRAP, None)];
      var sz := ResolveSize.Resolve(im.g.types, id);
      if sz < 0 {
        return sz;
      }
      offset := (raw[0] * sz) % WRAP;
      err := DescendAll(im, id);
    }

    /** The parse loop. */
    method DescendAll(im: Image, from: nat) returns (err: int)
      requires SourceOk(im.g) && from < |im.g.types| && raw != []
      modifies this`accs, this`offset
      ensures var r := ParseAll(im, At(from, old(accs), old(offset)), raw[1..]);
              if r.Ok? then err == 0 && accs == r.value.accs && offset == r.value.offset else err == r.code
    {
      hide SourceOk, ParseAll, ParseStep;
      var id: nat, i: nat := from, 1;
      while i < |raw|
        invariant 1 <= i <= |raw| && id < |im.g.types|
        invariant ParseAll(im, At(id, accs, offset), raw[i..]) ==
                    ParseAll(im, At(from, old(accs), old(offset)), raw[1..])
      {
        ParseNext(im, At(id, accs, offset), raw, i);
        err, id := Descend(im, id, raw[i]);
        if err != 0 {
          return;
        }
        i := i + 1;
      }
      ParseNone(im, At(id, accs, offset), raw[i..]);
      err := 0;
    }

    /** The body of the parse loop. */
    method Descend(im: Image, from: nat, a: int) returns (err: int, id: nat)
      requires SourceOk(im.g) && from < |im.g.types|
      modifies this`accs, this`offset
      ensures var r := ParseStep(im, At(from, old(accs), old(offset)), a);
              if r.Ok? then err == 0 && At(id, accs, offset) == r.value else err == r.code && err < 0
    {
      hide SourceOk, Skip, ResolveSize.SizeOf, ResolveSize.Records, IsStruct;
      id := SkipModsAndTypedefs(im.g, from);
      var t := im.g.types[id];
      if IsComposite(t.info.kind) {
        StructOk(im.g, id);
        StructFacts(im.g, id);
        if a >= |t.tail.members| {
          return EINVAL, id;
        }
        if a < 0 {
          return BEFORE_MEMBERS, id;
        }
        if BitfieldSize(t, a) != 0 || BitOffset(t, a) % 8 != 0 {
          return EINVAL, id;
        }
        offset := Add32(offset, BitOffset(t, a) / 8);
        var m := t.tail.members[a];
        if m.name != 0 {
          var name := im.read(m.name);
          if name == "" {
            return EINVAL, id;
          }
          accs := accs + [Accessor(id, a, Some(name))];
        }
        return 0, m.typ;
      } else if t.info.kind == KArray {
        ArrayOk(im.g, id);
        id := SkipModsAndTypedefs(im.g, t.tail.elem);
        if a % WRAP >= t.tail.nelems {
          return EINVAL, id;
        }
        accs := accs + [Accessor(id, a % WRAP, None)];
        RecordsOk(im.g);
        var sz := ResolveSize.Resolve(im.g.types, id);
        if sz < 0 {
          return sz, id;
        }
        offset := Add32(offset, a * sz);
        return 0, id;
      }
      return EINVAL, id;
    }

    /** bpf_core_match_member */
    method FindMember(local: Image, acc: Accessor, im: Image, from: nat, into: nat) returns (code: int, next: nat)
      requires SourceOk(local.g) && LocalOk(local, acc) && acc.name.Some?
      requires SourceOk(im.g) && from < |im.g.types| && |raw| <= MAX_LEN && into < |im.g.types|
      modifies this
      ensures Found(code, State(), next) == MatchMember(QueryFor(local, acc), im, from, old(State()), into)
      decreases MAX_LEN - |raw|, 1
    {
      hide SourceOk, Skip, Compat, MatchMember, MatchFrom, LocalOk, IsStruct, QueryFor, QueryOk;
      next := into;
      ghost var q := QueryFor(local, acc);
      ghost var goal := MatchMember(q, im, from, State(), into);
      var c := SkipModsAndTypedefs(im.g, from);
      var t := im.g.types[c];
      MatchEntry(q, im, from, State(), into);
      if !IsComposite(t.info.kind) {
        return 0, next;
      }
      StructFacts(im.g, c);
      var i: nat := 0;
      while i < |t.tail.members|
        invariant 0 <= i <= |t.tail.members| && next < |im.g.types| && old(|raw|) <= |raw| <= MAX_LEN
        invariant MatchFrom(q, im, c, i, State(), next) == goal
      {
        var done;
        done, code, next := TryMember(local, acc, im, c, i, next);
        if done {
          return;
        }
        i := i + 1;
      }
      MatchEnd(q, im, c, State(), next);
      code := 0;
    }

    /** The body of its loop: speculate that member i is the one, and take it back if it is not. */
    method TryMember(local: Image, acc: Accessor, im: Image, c: nat, i: nat, into: nat)
      returns (done: bool, code: int, next: nat)
      requires SourceOk(local.g) && LocalOk(local, acc) && acc.name.Some?
      requires SourceOk(im.g) && IsStruct(im.g, c) && i < |im.g.types[c].tail.members|
      requires |raw| <= MAX_LEN && into < |im.g.types|
      modifies this
      ensures next < |im.g.types| && old(|raw|) <= |raw| <= MAX_LEN
      ensures var before := MatchFrom(QueryFor(local, acc), im, c, i, old(State()), into);
              if done then Found(code, State(), next) == before
              else MatchFrom(QueryFor(local, acc), im, c, i + 1, State(), next) == before
      decreases MAX_LEN - |raw|, 0
    {
      hide SourceOk, Compat, MatchMember, MatchFrom, LocalOk, QueryFor, QueryOk;
      next := into;
      LocalStruct(local, acc);
      var localMember := local.g.types[acc.typeId].tail.members[acc.idx];
      var localName := local.read(localMember.name);
      var t := im.g.types[c];
      MatchNext(QueryFor(local, acc), im, c, i, State(), next);
      if !Eligible(t, i) {
        return false, 0, next;
      }
      if |raw| == MAX_LEN {
        return true, E2BIG, next;
      }
      var m, d := t.tail.members[i], ByteOffset(t, i);
      offset := Add32(offset, d);
      raw := raw + [i];
      var targName := im.read(m.name);
      if targName == "" {
        code, next := FindMember(local, acc, im, m.typ, next);
        if code != 0 {
          return true, code, next;
        }
      } else if localName == targName {
        accs := accs + [Accessor(c, i, Some(targName))];
        var ok := FieldsAreCompat(local.g, localMember.typ, im.g, m.typ);
        if !ok {
          accs := accs[..|accs| - 1];
        }
        return true, if ok then 1 else 0, m.typ;
      }
      offset := Sub32(offset, d);
      raw := raw[..|raw| - 1];
      return false, 0, next;
    }

    /** bpf_core_spec_match */
    method Match(local: Image, localAccs: seq<Accessor>, im: Image, root: nat) returns (code: int)
      requires SourceOk(local.g) && SourceOk(im.g) && LocalSpec(local, localAccs) && root < |im.g.types|
      modifies this
      ensures var r := SpecMatch(local, localAccs, im, root); code == r.code && State() == r.spec
    {
      hide SourceOk, Skip, LocalOk, MatchOne;
      accs, raw, offset := [], [], 0;
      var id: nat, i: nat := root, 0;
      while i < |localAccs|
        invariant i <= |localAccs| && id < |im.g.types| && |raw| <= MAX_LEN && |accs| == i
        invariant MatchAccs(local, localAccs, im, i, id, State()) == SpecMatch(local, localAccs, im, root)
      {
        assert LocalOk(local, localAccs[i]);
        OneCode(local, localAccs[i], im, i == 0, id, State());
        code, id := MatchAccessor(local, localAccs[i], im, i == 0, id);
        if code <= 0 {
          return;
        }
        i := i + 1;
      }
      code := 1;
    }

    method MatchAccessor(local: Image, acc: Accessor, im: Image, first: bool, from: nat) returns (code: int, next: nat)
      requires SourceOk(local.g) && SourceOk(im.g) && LocalOk(local, acc) && from < |im.g.types| && |raw| <= MAX_LEN
      modifies this
      ensures Found(code, State(), next) == MatchOne(local, acc, im, first, from, old(State()))
    {
      hide SourceOk, Skip, ResolveSize.SizeOf, ResolveSize.Records, MatchMember, LocalOk;
      var c := SkipModsAndTypedefs(im.g, from);
      if acc.name.Some? {
        code, next := FindMember(local, acc, im, c, c);
        return;
      }
      next := c;
      if !first {
        var t := im.g.types[c];
        if t.info.kind != KArray {
          return 0, from;
        }
        ArrayOk(im.g, c);
        if acc.idx >= t.tail.nelems {
          return 0, from;
        }
        next := SkipModsAndTypedefs(im.g, t.tail.elem);
      }
      if |raw| == MAX_LEN {
        return E2BIG, next;
      }
      accs := accs + [Accessor(next, acc.idx, None)];
      raw := raw + [ToInt32(acc.idx)];
      RecordsOk(im.g);
      var size := ResolveSize.Resolve(im.g.types, next);
      var sz := ToInt32(size);
      if sz < 0 {
        return sz, next;
      }
      offset := Add32(offset, acc.idx * sz);
      code := 1;
    }
  }
}
