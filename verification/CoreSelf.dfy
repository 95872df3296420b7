/** A CO-RE access spec matched against the very image it was parsed from
    (lib/libbpf/src/libbpf-old.c:2358-2462, 2566-2769): when the match gives the spec itself. */
module CoreSelf {
  import opened Basics
  import opened Btf
  import opened DumpOrder
  import opened CoreReloc
  import ResolveSize

  // ---------------------------------------------------------------- types that can be relocated

  /** Behind modifiers, typedefs and arrays: a composite, a FWD, a pointer, an enum, or an integer that
      starts at bit 0. */
  ghost predicate Relocatable(g: Source, id: nat)
    requires SourceOk(g) && id < |g.types|
    decreases Height(g, id)
  {
    var t := g.types[id];
    if t.info.kind in {KVolatile, KConst, KRestrict, KTypedef} then SkipStep(g, id); Relocatable(g, t.size)
    else if t.info.kind == KArray then ArrayOk(g, id); Relocatable(g, t.tail.elem)
    else
      || t.info.kind in {KStruct, KUnion, KFwd, KPtr, KEnum}
      || (t.info.kind == KInt && t.tail.IntBits? && t.tail.bits / 0x1_0000 % 0x100 == 0)
  }

  /** A type is compatible with itself exactly when it can be relocated. */
  lemma {:induction false} RelocatableIff(g: Source, id: nat)
    requires SourceOk(g) && id < |g.types|
    ensures Compat(g, id, g, id) <==> Relocatable(g, id)
    decreases Height(g, id)
  {
    hide Compat, Skip;
    CompatByKind(g, id, g, id);
    SkipByKind(g, id);
    var t := g.types[id];
    if t.info.kind in {KVolatile, KConst, KRestrict, KTypedef} {
      SkipStep(g, id);
      CompatByKind(g, t.size, g, t.size);
      RelocatableIff(g, t.size);
    } else if t.info.kind == KArray {
      ArrayOk(g, id);
      RelocatableIff(g, t.tail.elem);
    }
  }

  // ---------------------------------------------------------------- how deep a search goes

  /** A path of members that can be relocated, all but the last without a name. */
  ghost predicate Nested(im: Image, id: nat, q: seq<nat>)
    requires SourceOk(im.g) && id < |im.g.types|
    decreases |q|
  {
    var c := Skip(im.g, id);
    q != [] && IsComposite(im.g.types[c].info.kind) &&
    ( StructOk(im.g, c);
      var t := im.g.types[c];
      q[0] < |t.tail.members| && Eligible(t, q[0])
      && (|q| == 1 || (im.read(t.tail.members[q[0]].name) == "" && Nested(im, t.tail.members[q[0]].typ, q[1..]))))
  }

  /** The search meets q earlier than p, and p does not begin with q or q with p. */
  predicate Before(q: seq<nat>, p: seq<nat>) {
    q != [] && p != [] && (q[0] < p[0] || (q[0] == p[0] && Before(q[1..], p[1..])))
  }

  /** Earlier than the path p comes a nesting of more members than there is room for indices. */
  ghost predicate Crowded(im: Image, id: nat, p: seq<nat>, room: nat)
    requires SourceOk(im.g) && id < |im.g.types|
  {
    exists q :: |q| == room + 1 && Nested(im, id, q) && Before(q, p)
  }

  lemma NestedStep(im: Image, id: nat, c: nat, i: nat, q: seq<nat>)
    requires SourceOk(im.g) && id < |im.g.types| && c == Skip(im.g, id) && IsStruct(im.g, c)
    requires i < |im.g.types[c].tail.members| && Eligible(im.g.types[c], i)
    requires var m := im.g.types[c].tail.members[i]; im.read(m.name) == "" && Nested(im, m.typ, q)
    ensures Nested(im, id, [i] + q)
  {
    hide SourceOk, Skip;
    assert ([i] + q)[1..] == q;
  }

  lemma NestedParts(im: Image, id: nat, c: nat, q: seq<nat>)
    requires SourceOk(im.g) && id < |im.g.types| && c == Skip(im.g, id) && IsStruct(im.g, c) && Nested(im, id, q)
    ensures q != [] && q[0] < |im.g.types[c].tail.members| && Eligible(im.g.types[c], q[0])
    ensures |q| > 1 ==> var m := im.g.types[c].tail.members[q[0]]; im.read(m.name) == "" && Nested(im, m.typ, q[1..])
  {
    hide SourceOk, Skip;
  }

  lemma VisibleParts(im: Image, id: nat, c: nat, p: seq<nat>, name: string)
    requires SourceOk(im.g) && id < |im.g.types| && c == Skip(im.g, id) && IsStruct(im.g, c)
    requires Visible(im, id, p, name)
    ensures p != [] && p[0] < |im.g.types[c].tail.members| && Eligible(im.g.types[c], p[0])
    ensures var m := im.g.types[c].tail.members[p[0]];
            if |p| == 1 then im.read(m.name) == name else im.read(m.name) == "" && Visible(im, m.typ, p[1..], name)
  {
    hide SourceOk, Skip;
  }

  lemma NotComposite(im: Image, id: nat, q: seq<nat>, name: string)
    requires SourceOk(im.g) && id < |im.g.types| && !IsComposite(im.g.types[Skip(im.g, id)].info.kind)
    ensures !Nested(im, id, q) && !Visible(im, id, q, name)
  {
  }

  /** A search that ends without a hit has gone through everything. */
  lemma {:induction false} MissMeans(im: Image, id: nat, name: string, room: nat, q: seq<nat>)
    requires SourceOk(im.g) && id < |im.g.types| && name != "" && Find(im, id, name, room).Miss?
    ensures !(|q| == room + 1 && Nested(im, id, q)) && !(|q| <= room && Visible(im, id, q, name))
    decreases room, 1, 0
  {
    hide SourceOk, Skip, Visible, Nested, FindFrom, IsStruct;
    var c := Skip(im.g, id);
    if IsComposite(im.g.types[c].info.kind) {
      StructOk(im.g, c);
      FromMissMeans(im, id, c, name, 0, room, q);
    } else {
      NotComposite(im, id, q, name);
    }
  }

  lemma {:induction false} FromMissMeans(im: Image, id: nat, c: nat, name: string, i: nat, room: nat, q: seq<nat>)
    requires SourceOk(im.g) && id < |im.g.types| && c == Skip(im.g, id) && IsStruct(im.g, c)
    requires i <= |im.g.types[c].tail.members| && name != "" && FindFrom(im, c, name, i, room).Miss?
    ensures q != [] && q[0] >= i ==>
              !(|q| == room + 1 && Nested(im, id, q)) && !(|q| <= room && Visible(im, id, q, name))
    ensures q == [] ==> !Nested(im, id, q) && !Visible(im, id, q, name)
    decreases room, 0, |im.g.types[c].tail.members| - i
  {
    hide SourceOk, Skip, Find, Visible, Nested;
    var t := im.g.types[c];
    if Nested(im, id, q) {
      NestedParts(im, id, c, q);
    }
    if Visible(im, id, q, name) {
      VisibleParts(im, id, c, q, name);
    }
    if i < |t.tail.members| {
      FromMissMeans(im, id, c, name, i + 1, room, q);
      if q != [] && q[0] == i && Eligible(t, i) && im.read(t.tail.members[i].name) == "" {
        MissMeans(im, t.tail.members[i].typ, name, room - 1, q[1..]);
      }
    }
  }

  /** No nesting beyond the room comes before a hit. */
  lemma {:induction false} HitMeans(im: Image, id: nat, name: string, room: nat, q: seq<nat>)
    requires SourceOk(im.g) && id < |im.g.types| && name != "" && Find(im, id, name, room).Hit?
    requires |q| == room + 1 && Nested(im, id, q)
    ensures !Before(q, Find(im, id, name, room).path)
    decreases room, 1, 0
  {
    hide SourceOk, Skip, Visible, Nested, FindFrom, IsStruct, Before;
    var c := Skip(im.g, id);
    StructOk(im.g, c);
    FromHitMeans(im, id, c, name, 0, room, q);
  }

  lemma {:induction false} FromHitMeans(im: Image, id: nat, c: nat, name: string, i: nat, room: nat, q: seq<nat>)
    requires SourceOk(im.g) && id < |im.g.types| && c == Skip(im.g, id) && IsStruct(im.g, c)
    requires i <= |im.g.types[c].tail.members| && name != "" && FindFrom(im, c, name, i, room).Hit?
    requires |q| == room + 1 && Nested(im, id, q) && q[0] >= i
    ensures !Before(q, FindFrom(im, c, name, i, room).path)
    ensures FindFrom(im, c, name, i, room).path[0] >= i
    decreases room, 0, |im.g.types[c].tail.members| - i
  {
    hide SourceOk, Skip, Find, Nested;
    var t := im.g.types[c];
    NestedParts(im, id, c, q);
    if !Eligible(t, i) {
      FromHitMeans(im, id, c, name, i + 1, room, q);
    } else {
      var m := t.tail.members[i];
      if im.read(m.name) == "" {
        var h := Find(im, m.typ, name, room - 1);
        if h.Hit? {
          assert ([i] + h.path)[1..] == h.path;
          if q[0] == i {
            HitMeans(im, m.typ, name, room - 1, q[1..]);
          }
        } else {
          if q[0] == i {
            MissMeans(im, m.typ, name, room - 1, q[1..]);
          }
          FromHitMeans(im, id, c, name, i + 1, room, q);
        }
      } else if im.read(m.name) != name {
        FromHitMeans(im, id, c, name, i + 1, room, q);
      }
    }
  }

  /** A search that goes too deep has met a nesting beyond the room, before all members of the name. */
  lemma {:induction false} DeepMeans(im: Image, id: nat, name: string, room: nat, p: seq<nat>) returns (q: seq<nat>)
    requires SourceOk(im.g) && id < |im.g.types| && name != "" && Find(im, id, name, room).Deep?
    ensures |q| == room + 1 && Nested(im, id, q)
    ensures Visible(im, id, p, name) && |p| <= room ==> Before(q, p)
    decreases room, 1, 0
  {
    hide SourceOk, Skip, Visible, Nested, FindFrom, IsStruct, Before;
    var c := Skip(im.g, id);
    StructOk(im.g, c);
    if Visible(im, id, p, name) {
      VisibleParts(im, id, c, p, name);
    }
    q := FromDeepMeans(im, id, c, name, 0, room, p);
  }

  lemma {:induction false} FromDeepMeans(im: Image, id: nat, c: nat, name: string, i: nat, room: nat, p: seq<nat>)
    returns (q: seq<nat>)
    requires SourceOk(im.g) && id < |im.g.types| && c == Skip(im.g, id) && IsStruct(im.g, c)
    requires i <= |im.g.types[c].tail.members| && name != "" && FindFrom(im, c, name, i, room).Deep?
    ensures |q| == room + 1 && Nested(im, id, q) && q[0] >= i
    ensures Visible(im, id, p, name) && |p| <= room && p != [] && p[0] >= i ==> Before(q, p)
    decreases room, 0, |im.g.types[c].tail.members| - i
  {
    hide SourceOk, Skip, Find, Nested, Visible;
    var t := im.g.types[c];
    if Visible(im, id, p, name) {
      VisibleParts(im, id, c, p, name);
    }
    if !Eligible(t, i) {
      q := FromDeepMeans(im, id, c, name, i + 1, room, p);
    } else if room == 0 {
      q := [i];
      NestedOne(im, id, c, i);
    } else {
      var m := t.tail.members[i];
      if im.read(m.name) == "" && Find(im, m.typ, name, room - 1).Deep? {
        var rest := DeepMeans(im, m.typ, name, room - 1, if p == [] then [] else p[1..]);
        q := [i] + rest;
        NestedStep(im, id, c, i, rest);
        assert q[1..] == rest;
      } else {
        q := FromDeepMeans(im, id, c, name, i + 1, room, p);
        if im.read(m.name) == "" && p != [] && p[0] == i && |p| <= room && Visible(im, id, p, name) {
          MissMeans(im, m.typ, name, room - 1, p[1..]);
        }
      }
    }
  }

  lemma NestedOne(im: Image, id: nat, c: nat, i: nat)
    requires SourceOk(im.g) && id < |im.g.types| && c == Skip(im.g, id) && IsStruct(im.g, c)
    requires i < |im.g.types[c].tail.members| && Eligible(im.g.types[c], i)
    ensures Nested(im, id, [i])
  {
    hide SourceOk, Skip;
  }

  /** With unique names the search for a member that is there finds it, unless a nesting beyond the room
      comes first. */
  lemma FindIff(im: Image, id: nat, name: string, room: nat, p: seq<nat>)
    requires SourceOk(im.g) && id < |im.g.types| && UniqueNames(im) && name != ""
    requires Visible(im, id, p, name) && |p| <= room
    ensures var h := Find(im, id, name, room);
            && (h.Hit? <==> !Crowded(im, id, p, room))
            && (if h.Hit? then h.path == p && h.typ == TypeAt(im, id, p, name) else h.Deep?)
  {
    hide SourceOk, Skip, Visible, TypeAt, Nested, Find, Before;
    var h := Find(im, id, name, room);
    if h.Miss? {
      MissMeans(im, id, name, room, p);
    } else if h.Hit? {
      FindVisible(im, id, name, room);
      assert h.path == p;
      forall q | |q| == room + 1 && Nested(im, id, q)
        ensures !Before(q, p)
      {
        HitMeans(im, id, name, room, q);
      }
    } else {
      var q := DeepMeans(im, id, name, room, p);
    }
  }

  // ---------------------------------------------------------------- the condition

  /** Whether matching recovers the rest of a raw spec.  `from` is where the last accessor led, `seg` are the
      members without a name passed since, `id` is the type reached, `room` the indices left at `from`. */
  ghost predicate Recovers(im: Image, from: nat, seg: seq<nat>, id: nat, raw: seq<int>, room: int)
    requires SourceOk(im.g) && from < |im.g.types| && id < |im.g.types|
    decreases |raw|
  {
    if raw == [] then seg == []
    else
      var c := Skip(im.g, id);
      var t := im.g.types[c];
      var a := raw[0];
      if t.info.kind == KStruct || t.info.kind == KUnion then
        StructOk(im.g, c);
        0 <= a < |t.tail.members| &&
        var m := t.tail.members[a];
        if m.name == 0 then Recovers(im, from, seg + [a], m.typ, raw[1..], room)
        else
          && Relocatable(im.g, m.typ)
          && room >= 0 && !Crowded(im, from, seg + [a], room)
          && Recovers(im, m.typ, [], m.typ, raw[1..], room - |seg| - 1)
      else
        t.info.kind == KArray &&
        ( ArrayOk(im.g, c);
          RecordsOk(im.g);
          var e := Skip(im.g, t.tail.elem);
          && seg == []
          && ResolveSize.SizeOf(im.g.types, e) < 0x8000_0000
          && Recovers(im, e, [], e, raw[1..], room - 1))
  }

  /** A spec is recovered from its own image: the root type is smaller than 2 GiB, and so is every array
      element on the way; every named member on the way has a type that can be relocated; members without a
      name lead on to one with a name; and no search runs out of room before it gets to its member. */
  ghost predicate SelfMatches(im: Image, root: nat, raw: seq<int>)
    requires SourceOk(im.g) && root < |im.g.types| && raw != []
  {
    RecordsOk(im.g);
    var id := Skip(im.g, root);
    ResolveSize.SizeOf(im.g.types, id) < 0x8000_0000 && Recovers(im, id, [], id, raw[1..], 63)
  }

  // ---------------------------------------------------------------- members without a name

  /** The members of seg have no name, can be relocated, and lead from one type to the other. */
  ghost predicate Pending(im: Image, from: nat, seg: seq<nat>, id: nat)
    requires SourceOk(im.g) && from < |im.g.types|
    decreases |seg|
  {
    if seg == [] then id == from
    else
      var c := Skip(im.g, from);
      IsComposite(im.g.types[c].info.kind) &&
      ( StructOk(im.g, c);
        var t := im.g.types[c];
        seg[0] < |t.tail.members| && Eligible(t, seg[0]) && im.read(t.tail.members[seg[0]].name) == ""
        && Pending(im, t.tail.members[seg[0]].typ, seg[1..], id))
  }

  lemma {:induction false} PendingPush(im: Image, from: nat, seg: seq<nat>, id: nat, c: nat, a: nat)
    requires SourceOk(im.g) && from < |im.g.types| && id < |im.g.types| && Pending(im, from, seg, id)
    requires c == Skip(im.g, id) && IsStruct(im.g, c) && a < |im.g.types[c].tail.members|
    requires Eligible(im.g.types[c], a) && im.read(im.g.types[c].tail.members[a].name) == ""
    ensures Pending(im, from, seg + [a], im.g.types[c].tail.members[a].typ)
    decreases |seg|
  {
    hide SourceOk, Skip;
    if seg == [] {
      assert [a][1..] == [] && seg + [a] == [a];
      var m := im.g.types[c].tail.members[a];
      assert Pending(im, m.typ, [a][1..], m.typ);
    } else {
      var b := Skip(im.g, from);
      PendingParts(im, from, seg, id, b);
      assert (seg + [a])[1..] == seg[1..] + [a];
      PendingPush(im, im.g.types[b].tail.members[seg[0]].typ, seg[1..], id, c, a);
    }
  }

  lemma PendingParts(im: Image, from: nat, seg: seq<nat>, id: nat, c: nat)
    requires SourceOk(im.g) && from < |im.g.types| && seg != [] && Pending(im, from, seg, id) && c == Skip(im.g, from)
    ensures IsStruct(im.g, c) && seg[0] < |im.g.types[c].tail.members| && Eligible(im.g.types[c], seg[0])
    ensures var m := im.g.types[c].tail.members[seg[0]];
            m.typ < |im.g.types| && im.read(m.name) == "" && Pending(im, m.typ, seg[1..], id)
  {
    hide SourceOk, Skip, IsStruct;
    StructFacts(im.g, c);
  }

  /** A named member behind them is visible from where they start. */
  lemma {:induction false} PendingVisible(im: Image, from: nat, seg: seq<nat>, id: nat, c: nat, a: nat, name: string)
    requires SourceOk(im.g) && from < |im.g.types| && id < |im.g.types| && Pending(im, from, seg, id)
    requires c == Skip(im.g, id) && IsStruct(im.g, c) && a < |im.g.types[c].tail.members|
    requires Eligible(im.g.types[c], a) && im.read(im.g.types[c].tail.members[a].name) == name
    ensures Visible(im, from, seg + [a], name)
    ensures TypeAt(im, from, seg + [a], name) == im.g.types[c].tail.members[a].typ
    decreases |seg|
  {
    hide SourceOk, Skip, Visible, TypeAt, Pending;
    if seg == [] {
      PendingNone(im, from, id);
      assert seg + [a] == [a];
      VisibleLast(im, from, c, a, name);
    } else {
      var b := Skip(im.g, from);
      PendingParts(im, from, seg, id, b);
      PendingVisible(im, im.g.types[b].tail.members[seg[0]].typ, seg[1..], id, c, a, name);
      VisibleStep(im, from, b, seg[0], seg[1..] + [a], name);
      assert [seg[0]] + (seg[1..] + [a]) == seg + [a];
    }
  }

  lemma PendingNone(im: Image, from: nat, id: nat)
    requires SourceOk(im.g) && from < |im.g.types| && Pending(im, from, [], id)
    ensures id == from
  {
  }

  // ---------------------------------------------------------------- parsing only adds accessors

  lemma StepGrows(im: Image, st: At, a: int)
    requires SourceOk(im.g) && st.id < |im.g.types| && ParseStep(im, st, a).Ok?
    ensures var r := ParseStep(im, st, a).value; |st.accs| <= |r.accs| && r.accs[..|st.accs|] == st.accs
  {
    hide SourceOk, Skip, ResolveSize.SizeOf, ResolveSize.Records;
  }

  lemma {:induction false} ParseGrows(im: Image, st: At, raw: seq<int>)
    requires SourceOk(im.g) && st.id < |im.g.types| && ParseAll(im, st, raw).Ok?
    ensures var r := ParseAll(im, st, raw).value; |st.accs| <= |r.accs| && r.accs[..|st.accs|] == st.accs
    decreases |raw|
  {
    hide SourceOk, ParseStep;
    if raw != [] {
      StepGrows(im, st, raw[0]);
      var next := ParseStep(im, st, raw[0]).value;
      ParseGrows(im, next, raw[1..]);
      var r := ParseAll(im, st, raw).value;
      assert r.accs[..|st.accs|] == r.accs[..|next.accs|][..|st.accs|];
    }
  }

  // ---------------------------------------------------------------- the walk

  predicate Signed32(raw: seq<int>) { forall k :: 0 <= k < |raw| ==> -0x8000_0000 <= raw[k] < 0x8000_0000 }

  /** The matcher stands at `from` with spec s; parsing has gone on to st through members without a name; fin
      is what parsing the rest gives. */
  ghost predicate Standing(im: Image, from: nat, s: Spec, seg: seq<nat>, st: At, rest: seq<int>, fin: At)
    requires SourceOk(im.g)
  {
    && from < |im.g.types| && st.id < |im.g.types| && s.offset < WRAP && s.accs != []
    && |s.raw| + |seg| + |rest| <= 64
    && st.accs == s.accs && Pending(im, from, seg, st.id)
    && ParseAll(im, At(from, s.accs, s.offset), seg) == Ok(st)
    && ParseAll(im, st, rest) == Ok(fin)
    && LocalSpec(im, fin.accs) && Signed32(rest)
  }

  /** From there on the match gives exactly the spec that parsing gives. */
  ghost predicate Recovered(im: Image, from: nat, s: Spec, raw: seq<int>, fin: At)
    requires SourceOk(im.g) && LocalSpec(im, fin.accs) && from < |im.g.types| && |s.raw| <= MAX_LEN
    requires |s.accs| <= |fin.accs|
  {
    var r := MatchAccs(im, fin.accs, im, |s.accs|, from, s);
    r.code == 1 && r.spec == Spec(fin.accs, raw, fin.offset)
  }

  lemma {:induction false} WalkIff(im: Image, from: nat, s: Spec, seg: seq<nat>, st: At, rest: seq<int>, fin: At)
    requires SourceOk(im.g) && UniqueNames(im) && NamesOk(im) && Standing(im, from, s, seg, st, rest, fin)
    ensures |s.accs| <= |fin.accs|
    ensures Recovered(im, from, s, s.raw + seg + rest, fin) <==>
            Recovers(im, from, seg, st.id, rest, 64 - |s.raw|)
    decreases |rest|, 1
  {
    hide SourceOk, Skip, UniqueNames, NamesOk, Pending, LocalSpec, ParseAll, ParseStep, MatchAccs, Recovered, Recovers,
         IsStruct, ResolveSize.SizeOf;
    ParseGrows(im, st, rest);
    if rest == [] {
      WalkEnd(im, from, s, seg, st, fin);
    } else {
      var c := Skip(im.g, st.id);
      var t := im.g.types[c];
      if t.info.kind == KStruct || t.info.kind == KUnion {
        StepMember(im, st, rest, fin);
        EnterMember(im, st, rest[0]);
        if MemberAt(im, st, rest[0]).name == 0 {
          WalkUnnamed(im, from, s, seg, st, rest, fin);
        } else {
          WalkNamed(im, from, s, seg, st, rest, fin);
        }
      } else {
        WalkIndex(im, from, s, seg, st, rest, fin);
      }
    }
  }

  lemma WalkEnd(im: Image, from: nat, s: Spec, seg: seq<nat>, st: At, fin: At)
    requires SourceOk(im.g) && Standing(im, from, s, seg, st, [], fin)
    ensures |s.accs| <= |fin.accs|
    ensures Recovered(im, from, s, s.raw + seg + [], fin) <==> Recovers(im, from, seg, st.id, [], 64 - |s.raw|)
  {
    hide SourceOk, Skip, LocalSpec, ParseStep, Pending;
    assert fin == st;
    if seg != [] {
      assert |s.raw + seg + []| > |s.raw|;
    } else {
      assert s.raw + seg + [] == s.raw;
    }
  }

  // ---------------------------------------------------------------- a member without a name

  lemma {:induction false} WalkUnnamed(im: Image, from: nat, s: Spec, seg: seq<nat>, st: At, rest: seq<int>, fin: At)
    requires SourceOk(im.g) && UniqueNames(im) && NamesOk(im) && Standing(im, from, s, seg, st, rest, fin)
    requires rest != [] && |s.accs| <= |fin.accs| && OnMember(im, st, rest[0]) && MemberAt(im, st, rest[0]).name == 0
    ensures Recovered(im, from, s, s.raw + seg + rest, fin) <==>
            Recovers(im, from, seg, st.id, rest, 64 - |s.raw|)
    decreases |rest|, 0
  {
    hide SourceOk, Skip, UniqueNames, LocalSpec, ParseAll, ParseStep, MatchAccs, Recovered, Recovers, Pending,
         IsStruct, OnMember, MemberAt, NamesOk, Eligible;
    var a := rest[0];
    MemberFacts(im, st, a);
    var next := ParseStep(im, st, a).value;
    StepMember(im, st, rest, fin);
    StepName(im, Skip(im.g, st.id), a);
    ParseAppend(im, At(from, s.accs, s.offset), seg, [a]);
    ParseOne(im, st, a);
    PendingPush(im, from, seg, st.id, Skip(im.g, st.id), a);
    WalkIff(im, from, s, seg + [a], next, rest[1..], fin);
    JoinRaw(s.raw, seg, rest);
    RecoversMember(im, from, seg, st, rest, 64 - |s.raw|);
  }

  lemma JoinRaw(x: seq<int>, seg: seq<int>, rest: seq<int>)
    requires rest != []
    ensures x + (seg + [rest[0]]) + rest[1..] == x + seg + rest
    ensures x + (seg + [rest[0]]) + [] + rest[1..] == x + seg + rest
  {
  }

  lemma NextAccessor(a: seq<Accessor>, b: seq<Accessor>, c: seq<Accessor>, x: Accessor)
    requires b == a + [x] && |b| <= |c| && c[..|b|] == b
    ensures |a| < |c| && c[|a|] == x
  {
    assert c[|a|] == c[..|b|][|a|];
  }

  /** Parsing stands at a composite and accepts member a. */
  ghost predicate OnMember(im: Image, st: At, a: int)
    requires SourceOk(im.g) && st.id < |im.g.types|
  {
    var c := Skip(im.g, st.id);
    && IsStruct(im.g, c) && ParseStep(im, st, a).Ok? && 0 <= a < |im.g.types[c].tail.members|
    && Eligible(im.g.types[c], a)
    && ParseStep(im, st, a).value == ThroughMember(im, st, c, im.g.types[c], a)
    && (im.g.types[c].tail.members[a].name == 0 || im.read(im.g.types[c].tail.members[a].name) != "")
  }

  ghost function MemberAt(im: Image, st: At, a: int): Member
    requires SourceOk(im.g) && st.id < |im.g.types| && OnMember(im, st, a)
  {
    im.g.types[Skip(im.g, st.id)].tail.members[a]
  }

  lemma MemberFacts(im: Image, st: At, a: int)
    requires SourceOk(im.g) && st.id < |im.g.types| && OnMember(im, st, a)
    ensures var c := Skip(im.g, st.id);
            && IsStruct(im.g, c) && c < |im.g.types| && im.g.types[c].tail.Members?
            && 0 <= a < |im.g.types[c].tail.members| && ParseStep(im, st, a).Ok?
            && MemberAt(im, st, a) == im.g.types[c].tail.members[a]
            && MemberAt(im, st, a).typ < |im.g.types| && Eligible(im.g.types[c], a)
            && var next, m := ParseStep(im, st, a).value, MemberAt(im, st, a);
               && next.id == m.typ && next.offset < WRAP
               && next.accs == if m.name == 0 then st.accs else st.accs + [Accessor(c, a, Some(im.read(m.name)))]
  {
    hide SourceOk, Skip, ParseStep;
  }

  lemma EnterMember(im: Image, st: At, a: int)
    requires SourceOk(im.g) && st.id < |im.g.types| && ParseStep(im, st, a).Ok?
    requires im.g.types[Skip(im.g, st.id)].info.kind in {KStruct, KUnion}
    ensures OnMember(im, st, a)
  {
    hide SourceOk, Skip, ParseStep, IsStruct;
    ParseMember(im, st, a);
    StructFacts(im.g, Skip(im.g, st.id));
  }

  lemma StepMember(im: Image, st: At, rest: seq<int>, fin: At)
    requires SourceOk(im.g) && st.id < |im.g.types| && rest != [] && ParseAll(im, st, rest) == Ok(fin)
    ensures ParseStep(im, st, rest[0]).Ok?
    ensures ParseAll(im, ParseStep(im, st, rest[0]).value, rest[1..]) == Ok(fin)
  {
    hide SourceOk, ParseStep;
  }

  lemma StepName(im: Image, c: nat, a: nat)
    requires NamesOk(im) && c < |im.g.types| && im.g.types[c].tail.Members? && a < |im.g.types[c].tail.members|
    ensures im.g.types[c].tail.members[a].name == 0 <==> im.read(im.g.types[c].tail.members[a].name) == ""
  {
  }

  lemma RecoversMember(im: Image, from: nat, seg: seq<nat>, st: At, rest: seq<int>, room: int)
    requires SourceOk(im.g) && from < |im.g.types| && st.id < |im.g.types| && rest != [] && OnMember(im, st, rest[0])
    ensures var m := MemberAt(im, st, rest[0]);
            m.typ < |im.g.types| &&
            ( Recovers(im, from, seg, st.id, rest, room) <==>
              if m.name == 0 then Recovers(im, from, seg + [rest[0]], m.typ, rest[1..], room)
              else
                && Relocatable(im.g, m.typ)
                && room >= 0 && !Crowded(im, from, seg + [rest[0]], room)
                && Recovers(im, m.typ, [], m.typ, rest[1..], room - |seg| - 1))
  {
    hide SourceOk, Skip, ParseStep, Crowded, Relocatable;
  }

  // ---------------------------------------------------------------- a named member

  lemma {:induction false} WalkNamed(im: Image, from: nat, s: Spec, seg: seq<nat>, st: At, rest: seq<int>, fin: At)
    requires SourceOk(im.g) && UniqueNames(im) && NamesOk(im) && Standing(im, from, s, seg, st, rest, fin)
    requires rest != [] && |s.accs| <= |fin.accs| && OnMember(im, st, rest[0]) && MemberAt(im, st, rest[0]).name != 0
    ensures Recovered(im, from, s, s.raw + seg + rest, fin) <==>
            Recovers(im, from, seg, st.id, rest, 64 - |s.raw|)
    decreases |rest|, 0
  {
    hide SourceOk, Skip, UniqueNames, NamesOk, LocalSpec, ParseAll, ParseStep, MatchAccs, Recovers, Pending, IsStruct,
         MatchMember, Crowded, Relocatable, Recovered, Extended, OnMember, MemberAt, Eligible;
    var a := rest[0];
    MemberFacts(im, st, a);
    var m, next := MemberAt(im, st, a), ParseStep(im, st, a).value;
    StepMember(im, st, rest, fin);
    RecoversMember(im, from, seg, st, rest, 64 - |s.raw|);
    var r := MatchedMember(im, from, s, seg, st, rest, fin);
    if r.code == 1 {
      StandNext(im, r.spec, next, rest, fin);
      WalkIff(im, m.typ, r.spec, [], next, rest[1..], fin);
      JoinRaw(s.raw, seg, rest);
      RecoveredNext(im, from, s, m.typ, r.spec, s.raw + seg + rest, fin);
    } else {
      NotRecovered(im, from, s, s.raw + seg + rest, fin, r);
    }
  }

  /** What the matching loop makes of the accessor for that member. */
  lemma MatchedMember(im: Image, from: nat, s: Spec, seg: seq<nat>, st: At, rest: seq<int>, fin: At)
    returns (r: Found)
    requires SourceOk(im.g) && UniqueNames(im) && NamesOk(im) && Standing(im, from, s, seg, st, rest, fin)
    requires rest != [] && OnMember(im, st, rest[0]) && MemberAt(im, st, rest[0]).name != 0
    ensures ParseStep(im, st, rest[0]).Ok? && MemberAt(im, st, rest[0]).typ < |im.g.types| && |s.accs| < |fin.accs|
    ensures r.code == 1 <==>
            Relocatable(im.g, MemberAt(im, st, rest[0]).typ) && !Crowded(im, from, seg + [rest[0]], 64 - |s.raw|)
    ensures var next := ParseStep(im, st, rest[0]).value;
            r.code == 1 ==> r.next == next.id && r.spec == Spec(next.accs, s.raw + (seg + [rest[0]]), next.offset)
    ensures r.code <= 1 && |r.spec.raw| <= MAX_LEN && r.next < |im.g.types|
    ensures MatchAccs(im, fin.accs, im, |s.accs|, from, s) ==
            if r.code <= 0 then r else MatchAccs(im, fin.accs, im, |s.accs| + 1, r.next, r.spec)
  {
    hide SourceOk, Skip, UniqueNames, NamesOk, LocalSpec, ParseAll, ParseStep, MatchAccs, Pending, IsStruct,
         MatchMember, Crowded, Relocatable, Extended, OnMember, MemberAt, Eligible;
    var a, c := rest[0], Skip(im.g, st.id);
    MemberFacts(im, st, a);
    var m, next := MemberAt(im, st, a), ParseStep(im, st, a).value;
    StepMember(im, st, rest, fin);
    ParseGrows(im, next, rest[1..]);
    NextAccessor(s.accs, next.accs, fin.accs, Accessor(c, a, Some(im.read(m.name))));
    r := FoundMember(im, from, s, seg, st, a, fin);
    MatchAccsMember(im, from, s, fin, r);
  }

  /** The search for the member that parsing has reached. */
  lemma FoundMember(im: Image, from: nat, s: Spec, seg: seq<nat>, st: At, a: int, fin: At) returns (r: Found)
    requires SourceOk(im.g) && UniqueNames(im) && NamesOk(im) && from < |im.g.types| && st.id < |im.g.types|
    requires |s.raw| + |seg| < 64 && s.offset < WRAP && Pending(im, from, seg, st.id) && st.accs == s.accs
    requires ParseAll(im, At(from, s.accs, s.offset), seg) == Ok(st)
    requires OnMember(im, st, a) && MemberAt(im, st, a).name != 0
    ensures var m := MemberAt(im, st, a);
            m.typ < |im.g.types| && im.read(m.name) != "" && ParseStep(im, st, a).Ok? && a >= 0 &&
            var q, c := Query(im.g, im.read(m.name), m.typ), Skip(im.g, from);
            && r == MatchMember(q, im, c, s, c)
            && (r.code == 1 <==> Relocatable(im.g, m.typ) && !Crowded(im, from, seg + [a], 64 - |s.raw|))
            && var next := ParseStep(im, st, a).value;
               (r.code == 1 ==> r.next == m.typ && r.spec == Spec(next.accs, s.raw + (seg + [a]), next.offset))
  {
    hide SourceOk, Skip, UniqueNames, NamesOk, ParseAll, ParseStep, Pending, IsStruct, MatchMember, Crowded,
         Relocatable, Find, Compat, Visible, TypeAt;
    var c, m := Skip(im.g, st.id), MemberAt(im, st, a);
    var name, p := im.read(m.name), seg + [a];
    StructParts(im.g, c, a);
    PendingVisible(im, from, seg, st.id, c, a, name);
    FindIff(im, from, name, Room(s), p);
    RelocatableIff(im.g, m.typ);
    var q, b := Query(im.g, name, m.typ), Skip(im.g, from);
    assert QueryOk(q);
    r := MatchMember(q, im, b, s, b);
    FindSkipped(im, from, name, Room(s));
    MatchClean(q, im, b, s, b);
    if r.code == 1 {
      MatchUnique(q, im, b, s, b);
      FoundCompatible(q, im, b, s, b);
      FindParses(im, from, name, Room(s), s.accs, s.offset);
      ParseAppend(im, At(from, s.accs, s.offset), seg, [a]);
      ParseOne(im, st, a);
    }
  }

  lemma StructParts(g: Source, c: nat, a: nat)
    requires IsStruct(g, c) && a < |g.types[c].tail.members|
    ensures g.types[c].tail.members[a].typ < |g.types|
  {
  }

  lemma FindSkipped(im: Image, id: nat, name: string, room: nat)
    requires SourceOk(im.g) && id < |im.g.types|
    ensures Find(im, Skip(im.g, id), name, room) == Find(im, id, name, room)
  {
    hide SourceOk, Skip, FindFrom;
    SkipTwice(im.g, id);
  }

  lemma MatchAccsMember(im: Image, from: nat, s: Spec, fin: At, r: Found)
    requires SourceOk(im.g) && LocalSpec(im, fin.accs) && from < |im.g.types| && |s.raw| <= MAX_LEN
    requires 0 < |s.accs| < |fin.accs| && fin.accs[|s.accs|].name.Some?
    requires var acc := fin.accs[|s.accs|];
             && acc.typeId < |im.g.types| && im.g.types[acc.typeId].tail.Members?
             && acc.idx < |im.g.types[acc.typeId].tail.members|
             && var q := Query(im.g, acc.name.value, im.g.types[acc.typeId].tail.members[acc.idx].typ);
                QueryOk(q) && r == MatchMember(q, im, Skip(im.g, from), s, Skip(im.g, from))
    ensures |r.spec.raw| <= MAX_LEN && r.next < |im.g.types|
    ensures MatchAccs(im, fin.accs, im, |s.accs|, from, s) ==
            if r.code <= 0 then r else MatchAccs(im, fin.accs, im, |s.accs| + 1, r.next, r.spec)
  {
    hide SourceOk, Skip, MatchMember;
    assert LocalOk(im, fin.accs[|s.accs|]);
    hide LocalOk;
  }

  lemma StandNext(im: Image, s: Spec, next: At, rest: seq<int>, fin: At)
    requires SourceOk(im.g) && rest != [] && next.id < |im.g.types| && s.accs == next.accs && s.offset == next.offset
    requires |s.raw| + |rest| <= 65 && next.offset < WRAP && next.accs != []
    requires LocalSpec(im, fin.accs) && Signed32(rest)
    requires ParseAll(im, next, rest[1..]) == Ok(fin)
    ensures Standing(im, next.id, s, [], next, rest[1..], fin)
  {
    hide SourceOk, ParseStep, LocalSpec;
    assert At(next.id, s.accs, s.offset) == next;
  }

  lemma RecoveredNext(im: Image, from: nat, s: Spec, id: nat, t: Spec, raw: seq<int>, fin: At)
    requires SourceOk(im.g) && LocalSpec(im, fin.accs) && from < |im.g.types| && id < |im.g.types|
    requires |s.raw| <= MAX_LEN && |t.raw| <= MAX_LEN && |t.accs| == |s.accs| + 1 <= |fin.accs|
    requires MatchAccs(im, fin.accs, im, |s.accs|, from, s) == MatchAccs(im, fin.accs, im, |s.accs| + 1, id, t)
    ensures Recovered(im, from, s, raw, fin) <==> Recovered(im, id, t, raw, fin)
  {
    hide MatchAccs, LocalSpec, SourceOk;
  }

  lemma NotRecovered(im: Image, from: nat, s: Spec, raw: seq<int>, fin: At, r: Found)
    requires SourceOk(im.g) && LocalSpec(im, fin.accs) && from < |im.g.types| && |s.raw| <= MAX_LEN
    requires |s.accs| <= |fin.accs| && MatchAccs(im, fin.accs, im, |s.accs|, from, s) == r && r.code != 1
    ensures !Recovered(im, from, s, raw, fin)
  {
    hide MatchAccs, LocalSpec, SourceOk;
  }

  // ---------------------------------------------------------------- an array index

  lemma {:induction false} WalkIndex(im: Image, from: nat, s: Spec, seg: seq<nat>, st: At, rest: seq<int>, fin: At)
    requires SourceOk(im.g) && UniqueNames(im) && NamesOk(im) && Standing(im, from, s, seg, st, rest, fin)
    requires rest != [] && |s.accs| <= |fin.accs|
    requires im.g.types[Skip(im.g, st.id)].info.kind !in {KStruct, KUnion}
    ensures Recovered(im, from, s, s.raw + seg + rest, fin) <==>
            Recovers(im, from, seg, st.id, rest, 64 - |s.raw|)
    decreases |rest|, 0
  {
    hide SourceOk, Skip, UniqueNames, NamesOk, LocalSpec, ParseAll, ParseStep, MatchAccs, Recovers, Pending, IsStruct,
         Recovered, MatchIndex, ResolveSize.SizeOf, ResolveSize.Records;
    var a := rest[0];
    StepMember(im, st, rest, fin);
    var next := ParseStep(im, st, a).value;
    if seg == [] {
      ParseNone(im, At(from, s.accs, s.offset), seg);
    }
    var r := FoundIndex(im, from, s, seg, st, a);
    ParseGrows(im, next, rest[1..]);
    NextAccessor(s.accs, next.accs, fin.accs, Accessor(next.id, a % WRAP, None));
    RecoversIndex(im, from, seg, st, rest, 64 - |s.raw|);
    MatchAccsIndex(im, from, s, fin, r);
    if r.code == 1 {
      StandNext(im, r.spec, next, rest, fin);
      WalkIff(im, next.id, r.spec, [], next, rest[1..], fin);
      JoinRaw(s.raw, seg, rest);
      assert seg + [a] == [a];
      RecoveredNext(im, from, s, next.id, r.spec, s.raw + seg + rest, fin);
    } else {
      NotRecovered(im, from, s, s.raw + seg + rest, fin, r);
    }
  }

  lemma RecoversIndex(im: Image, from: nat, seg: seq<nat>, st: At, rest: seq<int>, room: int)
    requires SourceOk(im.g) && from < |im.g.types| && st.id < |im.g.types| && rest != []
    requires im.g.types[Skip(im.g, st.id)].info.kind !in {KStruct, KUnion} && ParseStep(im, st, rest[0]).Ok?
    ensures var e := ParseStep(im, st, rest[0]).value.id;
            && ResolveSize.Records(im.g.types)
            && (Recovers(im, from, seg, st.id, rest, room) <==>
                && seg == [] && ResolveSize.SizeOf(im.g.types, e) < 0x8000_0000
                && Recovers(im, e, [], e, rest[1..], room - 1))
  {
    hide SourceOk, Skip, ResolveSize.SizeOf, ResolveSize.Records, ParseStep;
    RecordsOk(im.g);
    ParseIndex(im, st, rest[0]);
  }

  /** The array index that parsing has reached. */
  lemma FoundIndex(im: Image, from: nat, s: Spec, seg: seq<nat>, st: At, a: int) returns (r: Found)
    requires SourceOk(im.g) && from < |im.g.types| && st.id < |im.g.types| && |s.raw| + |seg| < 64 && s.offset < WRAP
    requires st.accs == s.accs && Pending(im, from, seg, st.id) && -0x8000_0000 <= a < 0x8000_0000
    requires seg == [] ==> st == At(from, s.accs, s.offset)
    requires im.g.types[Skip(im.g, st.id)].info.kind !in {KStruct, KUnion} && ParseStep(im, st, a).Ok?
    ensures ResolveSize.Records(im.g.types)
    ensures var next := ParseStep(im, st, a).value;
            && next.accs == s.accs + [Accessor(next.id, a % WRAP, None)] && next.offset < WRAP
            && r == MatchIndex(im, Accessor(next.id, a % WRAP, None), false, from, s) && r.code <= 1
            && (r.code == 1 <==> seg == [] && ResolveSize.SizeOf(im.g.types, next.id) < 0x8000_0000)
            && (r.code == 1 ==> r.next == next.id && r.spec == Spec(next.accs, s.raw + [a], next.offset))
  {
    hide SourceOk, Skip, ResolveSize.SizeOf, ResolveSize.Records, ParseStep, Pending, IsStruct;
    RecordsOk(im.g);
    ParseIndex(im, st, a);
    var next := ParseStep(im, st, a).value;
    r := MatchIndex(im, Accessor(next.id, a % WRAP, None), false, from, s);
    if seg == [] {
      SignedAgain(a);
      SizeFits(im.g.types, next.id);
      SameProduct(s.offset, a % WRAP, ResolveSize.SizeOf(im.g.types, next.id));
    } else {
      PendingComposite(im, from, seg, st.id);
    }
  }

  lemma PendingComposite(im: Image, from: nat, seg: seq<nat>, id: nat)
    requires SourceOk(im.g) && from < |im.g.types| && seg != [] && Pending(im, from, seg, id)
    ensures im.g.types[Skip(im.g, from)].info.kind in {KStruct, KUnion}
  {
  }

  lemma SignedAgain(a: int)
    requires -0x8000_0000 <= a < 0x8000_0000
    ensures ToInt32(a % WRAP) == a
  {
  }

  lemma SizeFits(T: seq<BtfType>, id: nat)
    requires ResolveSize.Records(T) && ResolveSize.SizeOf(T, id) >= 0
    ensures ToInt32(ResolveSize.SizeOf(T, id)) >= 0 <==> ResolveSize.SizeOf(T, id) < 0x8000_0000
    ensures ResolveSize.SizeOf(T, id) < 0x8000_0000 ==> ToInt32(ResolveSize.SizeOf(T, id)) == ResolveSize.SizeOf(T, id)
  {
    hide ResolveSize.SizeOf, ResolveSize.Records;
    ResolveSize.SizeIsExact(T, id);
  }

  lemma MatchAccsIndex(im: Image, from: nat, s: Spec, fin: At, r: Found)
    requires SourceOk(im.g) && LocalSpec(im, fin.accs) && from < |im.g.types| && |s.raw| <= MAX_LEN
    requires 0 < |s.accs| < |fin.accs| && fin.accs[|s.accs|].name.None?
    requires var acc := fin.accs[|s.accs|]; r == MatchIndex(im, Accessor(acc.typeId, acc.idx, None), false, from, s)
    ensures |r.spec.raw| <= MAX_LEN && r.next < |im.g.types|
    ensures MatchAccs(im, fin.accs, im, |s.accs|, from, s) ==
            if r.code <= 0 then r else MatchAccs(im, fin.accs, im, |s.accs| + 1, r.next, r.spec)
  {
    hide SourceOk, Skip, MatchIndex;
    assert LocalOk(im, fin.accs[|s.accs|]);
    hide LocalOk;
  }

  // ---------------------------------------------------------------- the theorem

  /** Matched against the image and the root it was parsed from, a spec gives itself, indices, accessors and
      offset, exactly under the condition of SelfMatches.  Indices are those of a C int. */
  lemma SelfMatchIff(im: Image, root: nat, raw: seq<int>)
    requires SourceOk(im.g) && root < |im.g.types| && UniqueNames(im) && NamesOk(im) && Signed32(raw)
    requires ParseSpec(im, root, raw).Ok?
    ensures raw != []
    ensures var spec := ParseSpec(im, root, raw).value;
            LocalSpec(im, spec.accs) &&
            var r := SpecMatch(im, spec.accs, im, root);
            r.code == 1 && r.spec == spec <==> SelfMatches(im, root, raw)
  {
    hide SourceOk, Skip, UniqueNames, NamesOk, ParseAll, ParseStep, LocalSpec, MatchAccs, MatchIndex, Recovers,
         ResolveSize.SizeOf, ResolveSize.Records, Recovered;
    ParsedIsLocal(im, root, raw);
    RecordsOk(im.g);
    var id, rest := Skip(im.g, root), raw[1..];
    var st := ParseRoot(im, root, raw[0]).value;
    var fin := ParseAll(im, st, rest).value;
    ParseGrows(im, st, rest);
    assert fin.accs[0] == fin.accs[..1][0];
    var r := FoundRoot(im, root, raw[0]);
    MatchAccsFirst(im, root, fin, r);
    if r.code == 1 {
      assert raw == [raw[0]] + rest;
      StandNext(im, r.spec, st, raw, fin);
      WalkIff(im, id, r.spec, [], st, rest, fin);
      assert [raw[0]] + [] + rest == raw;
      SameOutcome(im, root, fin, id, r.spec, raw);
    }
  }

  /** The first index. */
  lemma FoundRoot(im: Image, root: nat, a: int) returns (r: Found)
    requires SourceOk(im.g) && root < |im.g.types| && -0x8000_0000 <= a < 0x8000_0000 && ParseRoot(im, root, a).Ok?
    ensures ResolveSize.Records(im.g.types)
    ensures var st := ParseRoot(im, root, a).value;
            && st.id == Skip(im.g, root) && st.accs == [Accessor(st.id, a % WRAP, None)] && st.offset < WRAP
            && r == MatchIndex(im, Accessor(st.id, a % WRAP, None), true, root, EMPTY) && r.code <= 1
            && (r.code == 1 <==> ResolveSize.SizeOf(im.g.types, st.id) < 0x8000_0000)
            && (r.code == 1 ==> r.next == st.id && r.spec == Spec(st.accs, [a], st.offset))
  {
    hide SourceOk, Skip, ResolveSize.SizeOf, ResolveSize.Records;
    RecordsOk(im.g);
    var st := ParseRoot(im, root, a).value;
    r := MatchIndex(im, Accessor(st.id, a % WRAP, None), true, root, EMPTY);
    SignedAgain(a);
    SizeFits(im.g.types, st.id);
    ModMul(a, ResolveSize.SizeOf(im.g.types, st.id));
  }

  lemma MatchAccsFirst(im: Image, root: nat, fin: At, r: Found)
    requires SourceOk(im.g) && LocalSpec(im, fin.accs) && root < |im.g.types|
    requires var acc := fin.accs[0]; r == MatchIndex(im, Accessor(acc.typeId, acc.idx, None), true, root, EMPTY)
    ensures |r.spec.raw| <= MAX_LEN && r.next < |im.g.types|
    ensures SpecMatch(im, fin.accs, im, root) ==
            if r.code <= 0 then r else MatchAccs(im, fin.accs, im, 1, r.next, r.spec)
  {
    hide SourceOk, Skip, MatchIndex;
    assert LocalOk(im, fin.accs[0]);
    hide LocalOk;
  }

  lemma SameOutcome(im: Image, root: nat, fin: At, id: nat, t: Spec, raw: seq<int>)
    requires SourceOk(im.g) && LocalSpec(im, fin.accs) && root < |im.g.types| && id < |im.g.types|
    requires |t.raw| <= MAX_LEN && |t.accs| == 1 <= |fin.accs|
    requires SpecMatch(im, fin.accs, im, root) == MatchAccs(im, fin.accs, im, 1, id, t)
    ensures var r := SpecMatch(im, fin.accs, im, root);
            r.code == 1 && r.spec == Spec(fin.accs, raw, fin.offset) <==> Recovered(im, id, t, raw, fin)
  {
    hide MatchAccs, LocalSpec, SourceOk, SpecMatch;
  }
}
