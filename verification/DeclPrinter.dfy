/** The declaration printer on type ids (lib/libbpf/src/btf_dump.c:956-1236): chains of types are pushed
    on a shared stack, and each frame of it is popped while its declaration is written. */
module DeclPrinter {
  import opened Btf
  import opened DedupState
  import opened DumpOrder
  import opened Declarator

  predicate ChainKind(k: Kind) { k == KPtr || IsMod(k) || k == KFuncProto || k == KArray }

  predicate Odd(T: seq<BtfType>, id: nat)
    requires id < |T|
  {
    var k := T[id].info.kind;
    id != 0 && (k == KUnkn || k == KFunc || k == KVar || k == KDatasec)
  }

  /** The type a link of a chain is applied to. */
  function Target(t: BtfType): nat
    requires WellFormed(t) && ChainKind(t.info.kind)
  {
    if t.info.kind == KArray then t.tail.elem else t.size
  }

  lemma RecordOk(g: Source, id: nat)
    requires SourceOk(g) && id < |g.types|
    ensures WellFormed(g.types[id]) && 0 < |g.types| && g.types[0] == VOID
  {
  }

  lemma ChainHeights(g: Source, id: nat)
    requires SourceOk(g) && id < |g.types| && ChainKind(g.types[id].info.kind)
    ensures WellFormed(g.types[id])
    ensures Target(g.types[id]) < |g.types| && Height(g, Target(g.types[id])) < Height(g, id)
  {
    RecordOk(g, id);
    hide SourceOk, Height;
    var t := g.types[id];
    assert RefKind(t.info.kind) && |Refs(t)| > 0 && Refs(t)[0] == Target(t);
    HeightDrops(g, id, 0);
  }

  lemma ParamHeight(g: Source, id: nat, k: nat)
    requires SourceOk(g) && id < |g.types| && g.types[id].info.kind == KFuncProto
    requires WellFormed(g.types[id]) && k < |g.types[id].tail.params|
    ensures var p := g.types[id].tail.params[k].typ; p < |g.types| && Height(g, p) < Height(g, id)
  {
    hide SourceOk, Height;
    var t := g.types[id];
    assert RefKind(t.info.kind) && k + 1 < |Refs(t)| && Refs(t)[k + 1] == t.tail.params[k].typ;
    HeightDrops(g, id, k + 1);
  }

  /** The last parameter of type void stands for "..."; a single one for no parameters. */
  predicate VoidLast(ps: seq<Param>) { ps != [] && ps[|ps| - 1].typ == 0 }

  ghost function ElemOf(g: Source, read: nat -> string, id: nat): Elem
    requires SourceOk(g) && id < |g.types|
    decreases Height(g, id), 1, 0
  {
    var t := g.types[id];
    match t.info.kind
    case KPtr => EPtr
    case KConst => EMod(QConst)
    case KVolatile => EMod(QVolatile)
    case KRestrict => EMod(QRestrict)
    case KArray => EArr(t.tail.nelems)
    case KFuncProto =>
      var ps := t.tail.params;
      EFun(ParamDecls(g, read, id, if VoidLast(ps) then |ps| - 1 else |ps|), |ps| > 1 && VoidLast(ps))
    case _ => if Odd(g.types, id) then EOdd else EBase(id)
  }

  ghost function ParamDecls(g: Source, read: nat -> string, id: nat, k: nat): (ds: seq<ParamDecl>)
    requires SourceOk(g) && id < |g.types| && g.types[id].info.kind == KFuncProto
    requires WellFormed(g.types[id]) && k <= |g.types[id].tail.params|
    ensures |ds| == k
    decreases Height(g, id), 0, k
  {
    if k == 0 then []
    else
      var p := g.types[id].tail.params[k - 1];
      ParamHeight(g, id, k - 1);
      ParamDecls(g, read, id, k - 1) + [ParamDecl(read(p.name), ChainOf(g, read, p.typ))]
  }

  /** The type as a chain, its base first. */
  ghost function ChainOf(g: Source, read: nat -> string, id: nat): Chain
    requires SourceOk(g) && id < |g.types|
    decreases Height(g, id), 2, 0
  {
    if ChainKind(g.types[id].info.kind) then
      ChainHeights(g, id);
      ChainOf(g, read, Target(g.types[id])) + [ElemOf(g, read, id)]
    else [ElemOf(g, read, id)]
  }

  /** A stack frame as the chain that popping it gives. */
  ghost function Elems(g: Source, read: nat -> string, ids: seq<nat>): (c: Chain)
    requires SourceOk(g) && InRange(g, ids)
    ensures |c| == |ids|
    ensures forall k :: 0 <= k < |ids| ==> c[k] == ElemOf(g, read, ids[|ids| - 1 - k])
  {
    if ids == [] then []
    else [ElemOf(g, read, ids[|ids| - 1])] + Elems(g, read, ids[..|ids| - 1])
  }

  ghost predicate InRange(g: Source, ids: seq<nat>) { forall k :: 0 <= k < |ids| ==> ids[k] < |g.types| }

  lemma ElemsPush(g: Source, read: nat -> string, ids: seq<nat>, id: nat)
    requires SourceOk(g) && InRange(g, ids) && id < |g.types|
    ensures InRange(g, ids + [id]) && Elems(g, read, ids + [id]) == [ElemOf(g, read, id)] + Elems(g, read, ids)
  {
    assert (ids + [id])[..|ids|] == ids;
  }

  lemma ParamDeclsAt(g: Source, read: nat -> string, id: nat, k: nat, i: nat)
    requires SourceOk(g) && id < |g.types| && g.types[id].info.kind == KFuncProto
    requires WellFormed(g.types[id]) && i < k <= |g.types[id].tail.params|
    ensures g.types[id].tail.params[i].typ < |g.types|
    ensures var p := g.types[id].tail.params[i];
            ParamDecls(g, read, id, k)[i] == ParamDecl(read(p.name), ChainOf(g, read, p.typ))
    decreases k
  {
    hide SourceOk, Height, ChainOf;
    ParamHeight(g, id, i);
    if i < k - 1 {
      ParamDeclsAt(g, read, id, k - 1, i);
    }
  }

  /** What is still to be written of a parameter list before its i-th parameter. */
  function Remaining(ps: seq<ParamDecl>, dots: bool, i: nat): seq<Token>
    requires i <= |ps|
  {
    (if i > 0 && (i < |ps| || dots) then [Comma, Space] else []) + PrintParams(ps[i..], dots)
  }

  lemma RemainingStep(ps: seq<ParamDecl>, dots: bool, i: nat)
    requires i < |ps|
    ensures Remaining(ps, dots, i) ==
            (if i > 0 then [Comma, Space] else []) + PrintChain(ps[i].typ, ps[i].name, true)
              + Remaining(ps, dots, i + 1)
  {
    hide PrintChain;
    assert ps[i..][1..] == ps[i + 1..];
    var sep := if i + 1 < |ps| || dots then [Comma, Space] else [];
    assert PrintParams(ps[i..], dots) == PrintChain(ps[i].typ, ps[i].name, true) + sep + PrintParams(ps[i + 1..], dots);
  }

  lemma RemainingEnds(ps: seq<ParamDecl>, dots: bool)
    ensures Remaining(ps, dots, 0) == PrintParams(ps, dots)
    ensures Remaining(ps, dots, |ps|) == if !dots then [] else if ps == [] then [Dots] else [Comma, Space, Dots]
  {
    assert ps[0..] == ps && ps[|ps|..] == [];
  }

  lemma UnfoldFun(c: Chain, name: string, lastWasPtr: bool)
    requires c != [] && c[0].EFun?
    ensures var inner := AfterMods(c[1..]);
            PrintChain(c, name, lastWasPtr) ==
            EmitMods(Mods(c[1..]))
            + (if inner == [] then EmitName(name, lastWasPtr)
               else [Space, LParen] + PrintChain(inner, name, true) + [RParen])
            + [LParen] + PrintParams(c[0].params, c[0].dots) + [RParen]
  {
  }

  function ModOf(k: Kind): Qual { if k == KConst then QConst else if k == KVolatile then QVolatile else QRestrict }

  lemma ElemKind(g: Source, read: nat -> string, id: nat)
    requires SourceOk(g) && id < |g.types|
    ensures var e, k := ElemOf(g, read, id), g.types[id].info.kind;
            && (e.EPtr? <==> k == KPtr) && (e.EArr? <==> k == KArray) && (e.EFun? <==> k == KFuncProto)
            && (e.EMod? <==> IsMod(k)) && (IsMod(k) ==> e == EMod(ModOf(k)))
            && (e.EOdd? <==> Odd(g.types, id)) && (e.EBase? ==> e == EBase(id))
            && (k == KArray ==> WellFormed(g.types[id]) && e == EArr(g.types[id].tail.nelems))
  {
    RecordOk(g, id);
  }

  lemma {:induction false} ModStep(c: Chain, out: seq<Token>, q: Qual)
    requires c != [] && c[0] == EMod(q)
    ensures out + EmitMods(Mods(c)) == out + [QualTok(q), Space] + EmitMods(Mods(c[1..]))
    ensures AfterMods(c) == AfterMods(c[1..])
  {
  }

  lemma StepOut(out: seq<Token>, a: seq<Token>, b: seq<Token>)
    ensures out + (a + b) == out + a + b
  {
  }

  lemma Enclosed(out: seq<Token>, gap: seq<Token>, p: seq<Token>)
    ensures out + gap + [LParen] + p + [RParen] == out + (gap + [LParen] + p + [RParen])
  {
  }

  lemma UnfoldOdd(c: Chain, name: string, lastWasPtr: bool)
    requires c != [] && c[0].EOdd?
    ensures PrintChain(c, name, lastWasPtr) == []
  {
  }

  lemma NothingLeft(c: Chain, name: string, lastWasPtr: bool)
    requires c == []
    ensures PrintChain(c, name, lastWasPtr) == EmitName(name, lastWasPtr)
  {
  }

  lemma UnfoldChainOf(g: Source, read: nat -> string, id: nat)
    requires SourceOk(g) && id < |g.types|
    ensures if ChainKind(g.types[id].info.kind)
            then ChainHeights(g, id); ChainOf(g, read, id) ==
              ChainOf(g, read, Target(g.types[id])) + [ElemOf(g, read, id)]
            else ChainOf(g, read, id) == [ElemOf(g, read, id)]
  {
  }

  /** The parameters a function declares. */
  lemma FunParams(g: Source, read: nat -> string, id: nat)
    requires SourceOk(g) && id < |g.types| && g.types[id].info.kind == KFuncProto
    ensures WellFormed(g.types[id]) && ElemOf(g, read, id).EFun?
    ensures var ps, e := g.types[id].tail.params, ElemOf(g, read, id);
            && |e.params| == (if VoidLast(ps) then |ps| - 1 else |ps|)
            && e.dots == (|ps| > 1 && VoidLast(ps))
            && forall i :: 0 <= i < |e.params| ==>
                 ps[i].typ < |g.types| && e.params[i] == ParamDecl(read(ps[i].name), ChainOf(g, read, ps[i].typ))
  {
    RecordOk(g, id);
    hide SourceOk, Height, ChainOf;
    var ps, e := g.types[id].tail.params, ElemOf(g, read, id);
    forall i | 0 <= i < |e.params|
      ensures ps[i].typ < |g.types| && e.params[i] == ParamDecl(read(ps[i].name), ChainOf(g, read, ps[i].typ))
    {
      ParamDeclsAt(g, read, id, |e.params|, i);
    }
  }

  lemma CallText(out: seq<Token>, mods: seq<Token>, head: seq<Token>, ps: seq<Token>)
    ensures out + mods + head + [LParen] + ps + [RParen] == out + (mods + head + [LParen] + ps + [RParen])
  {
  }

  // ---------------------------------------------------------------- chains by kind

  /** A function type: its parameters in order, each with its name and type; a last one of type void stands
      for the ellipsis, and a single one for no parameters. */
  ghost predicate Declares(g: Source, read: nat -> string, ps: seq<Param>, e: Elem)
    requires SourceOk(g)
  {
    var lastVoid := |ps| > 0 && ps[|ps| - 1].typ == 0;
    && e.EFun? && |e.params| == (if lastVoid then |ps| - 1 else |ps|)
    && (e.dots <==> lastVoid && |ps| > 1)
    && forall i :: 0 <= i < |e.params| ==>
         ps[i].typ < |g.types| && e.params[i] == ParamDecl(read(ps[i].name), ChainOf(g, read, ps[i].typ))
  }

  /** What the chain of a type is, kind by kind. */
  lemma ChainByKind(g: Source, read: nat -> string, id: nat)
    requires SourceOk(g) && id < |g.types|
    ensures var t := g.types[id];
            match t.info.kind
            case KConst => t.size < |g.types| && ChainOf(g, read, id) == ChainOf(g, read, t.size) + [EMod(QConst)]
            case KVolatile => t.size < |g.types| && ChainOf(g, read, id) == ChainOf(g, read, t.size) + [EMod(QVolatile)]
            case KRestrict => t.size < |g.types| && ChainOf(g, read, id) == ChainOf(g, read, t.size) + [EMod(QRestrict)]
            case KPtr => t.size < |g.types| && ChainOf(g, read, id) == ChainOf(g, read, t.size) + [EPtr]
            case KArray =>
              && t.tail.ArrayOf? && t.tail.elem < |g.types|
              && ChainOf(g, read, id) == ChainOf(g, read, t.tail.elem) + [EArr(t.tail.nelems)]
            case KFuncProto =>
              var c := ChainOf(g, read, id);
              && t.tail.Params? && t.size < |g.types| && c != []
              && c[..|c| - 1] == ChainOf(g, read, t.size) && Declares(g, read, t.tail.params, c[|c| - 1])
            case KUnkn => id == 0 && ChainOf(g, read, id) == [EBase(0)]
            case KFunc => ChainOf(g, read, id) == [EOdd]
            case KVar => ChainOf(g, read, id) == [EOdd]
            case KDatasec => ChainOf(g, read, id) == [EOdd]
            case _ => ChainOf(g, read, id) == [EBase(id)]
  {
    hide ChainOf, ParamDecls, Elems, Declares, SourceOk, Height;
    NamedKinds(g, id);
    RecordOk(g, id);
    if g.types[id].info.kind == KFuncProto {
      FunctionByKind(g, read, id);
    } else {
      UnfoldChainOf(g, read, id);
      if ChainKind(g.types[id].info.kind) {
        ChainHeights(g, id);
      }
    }
  }

  lemma FunctionByKind(g: Source, read: nat -> string, id: nat)
    requires SourceOk(g) && id < |g.types| && g.types[id].info.kind == KFuncProto
    ensures var t, c := g.types[id], ChainOf(g, read, id);
            && t.tail.Params? && t.size < |g.types| && c != []
            && c[..|c| - 1] == ChainOf(g, read, t.size) && Declares(g, read, t.tail.params, c[|c| - 1])
  {
    hide ChainOf, ParamDecls, Elems, SourceOk, Height, ElemOf;
    RecordOk(g, id);
    ChainHeights(g, id);
    UnfoldChainOf(g, read, id);
    FunParams(g, read, id);
  }

  lemma NamedKinds(g: Source, id: nat)
    requires SourceOk(g) && id < |g.types|
    ensures g.types[id].info.kind == KUnkn <==> id == 0
  {
  }

  lemma {:induction false} EmitModsAt(qs: seq<Qual>)
    ensures |EmitMods(qs)| == 2 * |qs|
    ensures forall i :: 0 <= i < |qs| ==> EmitMods(qs)[2 * i] == QualTok(qs[i]) && EmitMods(qs)[2 * i + 1] == Space
  {
    if qs != [] {
      EmitModsAt(qs[1..]);
      var w, v := EmitMods(qs), EmitMods(qs[1..]);
      assert w == [QualTok(qs[0]), Space] + v;
      forall i | 0 <= i < |qs|
        ensures w[2 * i] == QualTok(qs[i]) && w[2 * i + 1] == Space
      {
        if i > 0 {
          assert w[2 * i] == v[2 * (i - 1)] && w[2 * i + 1] == v[2 * (i - 1) + 1];
        }
      }
    }
  }

  lemma {:induction false} ModsAt(c: Chain)
    ensures |Mods(c)| <= |c| && (|Mods(c)| < |c| ==> !c[|Mods(c)|].EMod?)
    ensures forall i :: 0 <= i < |Mods(c)| ==> c[i] == EMod(Mods(c)[i])
  {
    if c != [] && c[0].EMod? {
      ModsAt(c[1..]);
    }
  }

  /** The words written for the modifiers on top of a frame: one for each, the top first, down to the first
      entry that is no modifier. */
  lemma WordsByKind(g: Source, read: nat -> string, ids: seq<nat>)
    requires SourceOk(g) && InRange(g, ids)
    ensures var w := EmitMods(Mods(Elems(g, read, ids)));
            && |w| % 2 == 0 && |w| / 2 <= |ids|
            && (forall i :: 0 <= i < |w| / 2 ==> WordFor(g, ids[|ids| - 1 - i], w[2 * i]) && w[2 * i + 1] == Space)
            && (|w| / 2 < |ids| ==> g.types[ids[|ids| - 1 - |w| / 2]].info.kind !in {KConst, KVolatile, KRestrict})
  {
    hide SourceOk, Height, ElemOf, EmitMods, Mods, Elems, WordFor, Odd, ModOf, WellFormed;
    var c := Elems(g, read, ids);
    ModsAt(c);
    EmitModsAt(Mods(c));
    var w := EmitMods(Mods(c));
    forall i | 0 <= i < |w| / 2
      ensures WordFor(g, ids[|ids| - 1 - i], w[2 * i]) && w[2 * i + 1] == Space
    {
      assert c[i] == ElemOf(g, read, ids[|ids| - 1 - i]);
      WordSays(g, read, ids[|ids| - 1 - i], Mods(c)[i]);
    }
    if |w| / 2 < |ids| {
      ElemKind(g, read, ids[|ids| - 1 - |w| / 2]);
    }
  }

  /** The word for a modifier record. */
  ghost predicate WordFor(g: Source, id: nat, w: Token)
    requires id < |g.types|
  {
    var k := g.types[id].info.kind;
    (k == KConst && w == QualTok(QConst)) || (k == KVolatile && w == QualTok(QVolatile))
    || (k == KRestrict && w == QualTok(QRestrict))
  }

  lemma WordSays(g: Source, read: nat -> string, id: nat, q: Qual)
    requires SourceOk(g) && id < |g.types| && ElemOf(g, read, id) == EMod(q)
    ensures WordFor(g, id, QualTok(q))
  {
    ElemKind(g, read, id);
    hide SourceOk, ElemOf;
  }

  ghost predicate Low(g: Source, ids: seq<nat>, h: nat)
    requires SourceOk(g) && InRange(g, ids)
  {
    forall k {:trigger ids[k]} :: 0 <= k < |ids| ==> Height(g, ids[k]) <= h
  }

  class Printer {
    const g: Source
    const read: nat -> string
    var stack: seq<nat>
    var out: seq<Token>

    constructor (g: Source, read: nat -> string)
      requires SourceOk(g)
      ensures this.g == g && this.read == read && stack == [] && out == []
    {
      this.g, this.read, stack, out := g, read, [], [];
    }

    /** The frame of cnt ids that begins at start. */
    ghost predicate Frame(start: nat, cnt: nat)
      reads this`stack
    {
      SourceOk(g) && start + cnt <= |stack| && InRange(g, stack[start..start + cnt])
    }

    ghost function Rest(start: nat, cnt: nat): (c: Chain)
      requires Frame(start, cnt)
      reads this`stack
      ensures |c| == cnt
    {
      Elems(g, read, stack[start..start + cnt])
    }

    ghost predicate Below(start: nat, cnt: nat, h: nat)
      requires Frame(start, cnt)
      reads this`stack
    {
      Low(g, stack[start..start + cnt], h)
    }

    lemma Top(start: nat, cnt: nat)
      requires Frame(start, cnt) && cnt > 0
      ensures start + cnt <= |stack| && stack[start + cnt - 1] < |g.types| && Frame(start, cnt - 1)
      ensures WellFormed(g.types[stack[start + cnt - 1]]) && SourceOk(g)
      ensures Rest(start, cnt)[0] == ElemOf(g, read, stack[start + cnt - 1])
      ensures Rest(start, cnt)[1..] == Rest(start, cnt - 1)
    {
      var ids := stack[start..start + cnt];
      assert ids[..cnt - 1] == stack[start..start + cnt - 1];
      assert ids[cnt - 1] == stack[start + cnt - 1];
      RecordOk(g, ids[cnt - 1]);
    }

    lemma TopLow(start: nat, cnt: nat, h: nat)
      requires Frame(start, cnt) && cnt > 0 && Below(start, cnt, h)
      ensures Frame(start, cnt - 1) && Below(start, cnt - 1, h) && start + cnt <= |stack|
      ensures stack[start + cnt - 1] < |g.types|
      ensures Height(g, stack[start + cnt - 1]) <= h
    {
      hide SourceOk, Height;
      var ids := stack[start..start + cnt];
      assert ids[..cnt - 1] == stack[start..start + cnt - 1];
      assert ids[cnt - 1] == stack[start + cnt - 1];
    }

    lemma LowPrefix(start: nat, cnt: nat, left: nat, h: nat)
      requires Frame(start, cnt) && left <= cnt && Below(start, cnt, h)
      ensures Frame(start, left) && Below(start, left, h)
    {
      hide SourceOk, Height;
      var ids := stack[start..start + cnt];
      assert ids[..left] == stack[start..start + left];
    }

    /** btf_dump_emit_mods */
    method WriteMods(start: nat, cnt: nat) returns (left: nat)
      requires Frame(start, cnt)
      modifies this`out
      ensures left <= cnt && Frame(start, left)
      ensures out == old(out) + EmitMods(Mods(Rest(start, cnt)))
      ensures Rest(start, left) == AfterMods(Rest(start, cnt))
    {
      hide Frame, Rest;
      left := cnt;
      while left > 0
        invariant left <= cnt && Frame(start, left)
        invariant out + EmitMods(Mods(Rest(start, left))) == old(out) + EmitMods(Mods(Rest(start, cnt)))
        invariant AfterMods(Rest(start, left)) == AfterMods(Rest(start, cnt))
      {
        Top(start, left);
        var id := stack[start + left - 1];
        var k := g.types[id].info.kind;
        ElemKind(g, read, id);
        if !IsMod(k) {
          assert out + [] == out;
          return;
        }
        var q := ModOf(k);
        ModStep(Rest(start, left), out, q);
        out := out + [QualTok(q), Space];
        left := left - 1;
      }
      assert out + [] == out;
    }

    /** The loop that drops modifiers of an array. */
    method SkipMods(start: nat, cnt: nat) returns (left: nat)
      requires Frame(start, cnt)
      ensures left <= cnt && Frame(start, left) && Rest(start, left) == AfterMods(Rest(start, cnt))
    {
      hide Frame, Rest;
      left := cnt;
      while left > 0
        invariant left <= cnt && Frame(start, left)
        invariant AfterMods(Rest(start, left)) == AfterMods(Rest(start, cnt))
      {
        Top(start, left);
        ElemKind(g, read, stack[start + left - 1]);
        if !IsMod(g.types[stack[start + left - 1]].info.kind) {
          return;
        }
        left := left - 1;
      }
    }

    method WriteName(name: string, lastWasPtr: bool)
      modifies this`out
      ensures out == old(out) + EmitName(name, lastWasPtr)
    {
      if name != "" && !lastWasPtr {
        out := out + [Space];
      }
      if name != "" {
        out := out + [Name(name)];
      }
    }

    /** The loop that pushes a chain down to its base. */
    method PushChain(id: nat) returns (ghost pushed: seq<nat>)
      requires SourceOk(g) && id < |g.types|
      modifies this`stack
      ensures stack == old(stack) + pushed && InRange(g, pushed) && Low(g, pushed, Height(g, id))
      ensures Elems(g, read, pushed) == ChainOf(g, read, id)
    {
      hide SourceOk, Height, ElemOf, ChainOf;
      var cur: nat := id;
      pushed := [];
      RecordOk(g, cur);
      assert ChainOf(g, read, id) + [] == ChainOf(g, read, id);
      while ChainKind(g.types[cur].info.kind)
        invariant cur < |g.types| && WellFormed(g.types[cur])
        invariant stack == old(stack) + pushed && InRange(g, pushed)
        invariant ChainOf(g, read, id) == ChainOf(g, read, cur) + Elems(g, read, pushed)
        invariant Height(g, cur) <= Height(g, id) && Low(g, pushed, Height(g, id))
        decreases Height(g, cur)
      {
        ChainHeights(g, cur);
        ElemsPush(g, read, pushed, cur);
        UnfoldChainOf(g, read, cur);
        Assoc(ChainOf(g, read, Target(g.types[cur])), [ElemOf(g, read, cur)], Elems(g, read, pushed));
        stack := stack + [cur];
        pushed := pushed + [cur];
        cur := Target(g.types[cur]);
        RecordOk(g, cur);
      }
      UnfoldChainOf(g, read, cur);
      ElemsPush(g, read, pushed, cur);
      stack := stack + [cur];
      pushed := pushed + [cur];
    }

    /** btf_dump_emit_type_decl: writes the declaration and leaves the stack as it was. */
    method EmitTypeDecl(id: nat, name: string)
      requires SourceOk(g) && id < |g.types|
      modifies this
      ensures stack == old(stack)
      ensures out == old(out) + PrintChain(ChainOf(g, read, id), name, true)
      decreases Height(g, id), 1, 0, 0
    {
      hide PrintChain, SourceOk, Height, ElemOf, ChainOf;
      var start := |stack|;
      ghost var pushed := PushChain(id);
      assert stack[start..start + |pushed|] == pushed;
      var _ := EmitTypeChain(start, |stack| - start, name, Height(g, id));
      stack := stack[..start];
    }

    /** btf_dump_emit_type_chain: writes what a frame stands for. */
    method EmitTypeChain(start: nat, cnt: nat, name: string, ghost h: nat) returns (left: nat)
      requires Frame(start, cnt) && Below(start, cnt, h)
      modifies this
      ensures stack == old(stack) && left <= cnt
      ensures out == old(out) + PrintChain(Rest(start, cnt), name, true)
      decreases h, 0, cnt, 0
    {
      hide PrintChain, Frame, Below, Rest, ElemOf, SourceOk, Height, WellFormed;
      var lastWasPtr := true;
      left := cnt;
      ghost var goal := out + PrintChain(Rest(start, cnt), name, true);
      while left > 0
        invariant stack == old(stack) && left <= cnt
        invariant Frame(start, left) && Below(start, left, h)
        invariant out + PrintChain(Rest(start, left), name, lastWasPtr) == goal
      {
        Top(start, left);
        TopLow(start, left, h);
        ghost var c := Rest(start, left);
        left := left - 1;
        assert c == [c[0]] + Rest(start, left);
        var id := stack[start + left];
        var k := g.types[id].info.kind;
        ElemKind(g, read, id);
        if k == KPtr {
          UnfoldPtr(c, name, lastWasPtr);
          var star := if lastWasPtr then [Star] else [Space, Star];
          StepOut(out, star, PrintChain(c[1..], name, true));
          out := out + star;
        } else if IsMod(k) {
          UnfoldMod(c, name, lastWasPtr);
          var word := [Space, QualTok(ModOf(k))];
          StepOut(out, word, PrintChain(c[1..], name, false));
          out := out + word;
        } else if k == KArray {
          left := WriteArray(start, left, name, lastWasPtr, id, h);
          return;
        } else if k == KFuncProto {
          left := WriteFunction(start, left, name, lastWasPtr, id, h);
          return;
        } else if Odd(g.types, id) {
          UnfoldOdd(c, name, lastWasPtr);
          return;
        } else {
          left := WriteBase(start, left, name, lastWasPtr, id, h);
        }
        lastWasPtr := k == KPtr;
      }
      NothingLeft(Rest(start, 0), name, lastWasPtr);
      WriteName(name, lastWasPtr);
    }

    /** A base type, its id already popped. */
    method WriteBase(start: nat, cnt: nat, name: string, lastWasPtr: bool, id: nat, ghost h: nat) returns (left: nat)
      requires Frame(start, cnt) && Below(start, cnt, h)
      modifies this`out
      ensures left <= cnt && Frame(start, left) && Below(start, left, h)
      ensures out + PrintChain(Rest(start, left), name, false) ==
                old(out) + PrintChain([EBase(id)] + Rest(start, cnt), name, lastWasPtr)
    {
      hide PrintChain, Frame, Below, Rest;
      ghost var c := [EBase(id)] + Rest(start, cnt);
      assert c[1..] == Rest(start, cnt);
      UnfoldBase(c, name, lastWasPtr);
      left := WriteMods(start, cnt);
      LowPrefix(start, cnt, left, h);
      out := out + [Spec(id)];
    }

    /** The array case, its id already popped. */
    method WriteArray(start: nat, cnt: nat, name: string, lastWasPtr: bool, id: nat, ghost h: nat) returns (left: nat)
      requires Frame(start, cnt) && Below(start, cnt, h)
      requires id < |g.types| && g.types[id].info.kind == KArray && WellFormed(g.types[id])
      modifies this
      ensures stack == old(stack) && left <= cnt
      ensures out == old(out) + PrintChain([EArr(g.types[id].tail.nelems)] + Rest(start, cnt), name, lastWasPtr)
      decreases h, 0, cnt, 2
    {
      hide PrintChain, Frame, Below, Rest, ElemOf, SourceOk, Height, EmitName, Gap, AfterMods;
      var n := g.types[id].tail.nelems;
      ghost var c := [EArr(n)] + Rest(start, cnt);
      assert c[1..] == Rest(start, cnt);
      UnfoldArr(c, name, lastWasPtr);
      left := SkipMods(start, cnt);
      LowPrefix(start, cnt, left, h);
      if left == 0 {
        WriteName(name, lastWasPtr);
        out := out + [Bracket(n)];
      } else {
        left := WriteElement(start, left, name, lastWasPtr, h);
        out := out + [Bracket(n)];
      }
    }

    /** What an array declarator declares, in parentheses unless it is another array. */
    method WriteElement(start: nat, cnt: nat, name: string, lastWasPtr: bool, ghost h: nat) returns (left: nat)
      requires Frame(start, cnt) && Below(start, cnt, h) && cnt > 0
      modifies this
      ensures stack == old(stack) && left <= cnt
      ensures var inner := Rest(start, cnt);
              out == old(out) + if inner[0].EArr? then Gap(name, lastWasPtr) + PrintChain(inner, name, true)
                                else Gap(name, lastWasPtr) + [LParen] + PrintChain(inner, name, true) + [RParen]
      decreases h, 0, cnt, 1
    {
      hide PrintChain, Frame, Below, Rest, ElemOf, SourceOk, Height;
      Top(start, cnt);
      var next := stack[start + cnt - 1];
      ElemKind(g, read, next);
      var multidim := g.types[next].info.kind == KArray;
      if name != "" && !lastWasPtr {
        out := out + [Space];
      }
      ghost var gap, p := Gap(name, lastWasPtr), PrintChain(Rest(start, cnt), name, true);
      assert out == old(out) + gap;
      hide Gap;
      if multidim {
        left := EmitTypeChain(start, cnt, name, h);
        StepOut(old(out), gap, p);
      } else {
        out := out + [LParen];
        left := EmitTypeChain(start, cnt, name, h);
        out := out + [RParen];
        Enclosed(old(out), gap, p);
      }
    }

    /** The function case, its id already popped. */
    method WriteFunction(start: nat, cnt: nat, name: string, lastWasPtr: bool, id: nat, ghost h: nat)
      returns (left: nat)
      requires Frame(start, cnt) && Below(start, cnt, h)
      requires SourceOk(g) && id < |g.types| && g.types[id].info.kind == KFuncProto && Height(g, id) <= h
      modifies this
      ensures stack == old(stack) && left <= cnt
      ensures out == old(out) + PrintChain([ElemOf(g, read, id)] + Rest(start, cnt), name, lastWasPtr)
      decreases h, 0, cnt, 2
    {
      hide PrintChain, Frame, Below, Rest, ElemOf, PrintParams, Height, SourceOk, EmitMods, EmitName;
      ghost var e := ElemOf(g, read, id);
      ghost var c := [e] + Rest(start, cnt);
      ElemKind(g, read, id);
      assert c[1..] == Rest(start, cnt);
      UnfoldFun(c, name, lastWasPtr);
      left := WriteMods(start, cnt);
      LowPrefix(start, cnt, left, h);
      ghost var mods, inner := EmitMods(Mods(c[1..])), Rest(start, left);
      ghost var head := if inner == [] then EmitName(name, lastWasPtr)
                        else [Space, LParen] + PrintChain(inner, name, true) + [RParen];
      left := WriteInner(start, left, name, lastWasPtr, h);
      out := out + [LParen];
      WriteParams(id, h);
      out := out + [RParen];
      CallText(old(out), mods, head, PrintParams(e.params, e.dots));
    }

    /** What a function declarator declares: the rest of the frame in parentheses, or the name. */
    method WriteInner(start: nat, cnt: nat, name: string, lastWasPtr: bool, ghost h: nat) returns (left: nat)
      requires Frame(start, cnt) && Below(start, cnt, h)
      modifies this
      ensures stack == old(stack) && left <= cnt
      ensures out == old(out) + if Rest(start, cnt) == [] then EmitName(name, lastWasPtr)
                                else [Space, LParen] + PrintChain(Rest(start, cnt), name, true) + [RParen]
      decreases h, 0, cnt, 1
    {
      hide PrintChain, Frame, Below, Rest, EmitName;
      left := cnt;
      if left > 0 {
        out := out + [Space, LParen];
        left := EmitTypeChain(start, left, name, h);
        out := out + [RParen];
      } else {
        WriteName(name, lastWasPtr);
      }
    }

    method WriteParams(id: nat, ghost h: nat)
      requires SourceOk(g) && id < |g.types| && g.types[id].info.kind == KFuncProto && Height(g, id) <= h
      modifies this
      ensures stack == old(stack)
      ensures ElemOf(g, read, id).EFun?
      ensures out == old(out) + PrintParams(ElemOf(g, read, id).params, ElemOf(g, read, id).dots)
      decreases h, 0, 0, 1
    {
      hide PrintChain, PrintParams, Height, SourceOk, ElemOf, ParamDecls, ChainOf, Remaining;
      RecordOk(g, id);
      var ps := g.types[id].tail.params;
      FunParams(g, read, id);
      ghost var ds, dots := ElemOf(g, read, id).params, ElemOf(g, read, id).dots;
      RemainingEnds(ds, dots);
      if |ps| == 1 && ps[0].typ == 0 {
        assert out + [] == out;
        return;
      }
      var i: nat := 0;
      while i < |ps|
        invariant stack == old(stack) && i <= |ds|
        invariant out + Remaining(ds, dots, i) == old(out) + PrintParams(ds, dots)
      {
        if i == |ps| - 1 && ps[i].typ == 0 {
          out := out + if i > 0 then [Comma, Space] else [];
          out := out + [Dots];
          return;
        }
        WriteParam(id, i, h);
        i := i + 1;
      }
      assert out + [] == out;
    }

    method WriteParam(id: nat, i: nat, ghost h: nat)
      requires SourceOk(g) && id < |g.types| && g.types[id].info.kind == KFuncProto && Height(g, id) <= h
      requires var e := ElemOf(g, read, id); e.EFun? && i < |e.params|
      modifies this
      ensures stack == old(stack)
      ensures var e := ElemOf(g, read, id);
              out + Remaining(e.params, e.dots, i + 1) == old(out) + Remaining(e.params, e.dots, i)
      decreases h, 0, 0, 0
    {
      hide PrintChain, PrintParams, Height, SourceOk, ElemOf, ParamDecls, ChainOf, Remaining;
      RecordOk(g, id);
      FunParams(g, read, id);
      ghost var e := ElemOf(g, read, id);
      var p := g.types[id].tail.params[i];
      ParamHeight(g, id, i);
      RemainingStep(e.params, e.dots, i);
      if i > 0 {
        out := out + [Comma, Space];
      }
      EmitTypeDecl(p.typ, read(p.name));
    }
  }

  // ---------------------------------------------------------------- what is printed reads back

  /** Chains lead to types that C can declare. */
  ghost predicate Declarable(g: Source)
    requires SourceOk(g)
  {
    forall i, k :: 0 <= i < |g.types| && ChainKind(g.types[i].info.kind) && 0 <= k < |Refs(g.types[i])| ==>
      Refs(g.types[i])[k] < |g.types| && !Odd(g.types, Refs(g.types[i])[k])
  }

  lemma DeclarableTarget(g: Source, id: nat)
    requires SourceOk(g) && Declarable(g) && id < |g.types| && ChainKind(g.types[id].info.kind)
    ensures WellFormed(g.types[id]) && Target(g.types[id]) < |g.types| && !Odd(g.types, Target(g.types[id]))
  {
    RecordOk(g, id);
    hide SourceOk;
    assert 0 < |Refs(g.types[id])| && Refs(g.types[id])[0] == Target(g.types[id]);
  }

  lemma DeclarableParam(g: Source, id: nat, k: nat)
    requires SourceOk(g) && Declarable(g) && id < |g.types| && g.types[id].info.kind == KFuncProto
    requires WellFormed(g.types[id]) && k < |g.types[id].tail.params|
    ensures var p := g.types[id].tail.params[k].typ; p < |g.types| && !Odd(g.types, p)
  {
    hide SourceOk;
    assert k + 1 < |Refs(g.types[id])| && Refs(g.types[id])[k + 1] == g.types[id].tail.params[k].typ;
  }

  lemma {:induction false} ShapedPush(c: Chain, e: Elem)
    requires ShapedOuter(c) && ShapedOuter([e])
    ensures ShapedOuter(c + [e])
    decreases |c|
  {
    if c != [] {
      assert (c + [e])[1..] == c[1..] + [e];
      ShapedPush(c[1..], e);
    } else {
      assert c + [e] == [e];
    }
  }

  lemma {:induction false} ShapedAll(ps: seq<ParamDecl>)
    requires forall i :: 0 <= i < |ps| ==> Shaped(ps[i].typ)
    ensures ShapedParams(ps)
    decreases |ps|
  {
    hide Shaped;
    if ps != [] {
      ShapedAll(ps[1..]);
    }
  }

  /** Every chain has its base first and no other. */
  lemma {:induction false} ShapedChain(g: Source, read: nat -> string, id: nat)
    requires SourceOk(g) && Declarable(g) && id < |g.types| && !Odd(g.types, id)
    ensures Shaped(ChainOf(g, read, id))
    decreases Height(g, id), 1
  {
    hide SourceOk, Height, Declarable, ElemOf, ChainOf, ShapedOuter, Odd;
    var k := g.types[id].info.kind;
    UnfoldChainOf(g, read, id);
    if ChainKind(k) {
      ChainHeights(g, id);
      DeclarableTarget(g, id);
      var c, e := ChainOf(g, read, Target(g.types[id])), ElemOf(g, read, id);
      ShapedChain(g, read, Target(g.types[id]));
      ShapedLink(g, read, id);
      ShapedPush(c[1..], e);
      assert (c + [e])[1..] == c[1..] + [e];
    } else {
      ElemKind(g, read, id);
      NoOuter();
      assert [ElemOf(g, read, id)][1..] == [];
    }
  }

  lemma NoOuter()
    ensures ShapedOuter([])
  {
  }

  lemma {:induction false} ShapedLink(g: Source, read: nat -> string, id: nat)
    requires SourceOk(g) && Declarable(g) && id < |g.types| && ChainKind(g.types[id].info.kind)
    ensures ShapedOuter([ElemOf(g, read, id)])
    decreases Height(g, id), 0
  {
    hide SourceOk, Height, Declarable, ElemOf, ChainOf, Shaped;
    var e := ElemOf(g, read, id);
    ElemKind(g, read, id);
    assert [e][1..] == [];
    if e.EFun? {
      RecordOk(g, id);
      FunParams(g, read, id);
      var ps := g.types[id].tail.params;
      forall i | 0 <= i < |e.params|
        ensures Shaped(e.params[i].typ)
      {
        ParamHeight(g, id, i);
        DeclarableParam(g, id, i);
        ShapedChain(g, read, ps[i].typ);
      }
      ShapedAll(e.params);
    }
  }

  /** What EmitTypeDecl writes for a type, read as C, declares the name with that type, array modifiers
      dropped, exactly when no function in it carries a modifier, and with that very type exactly when no
      array does either. */
  lemma DeclarationReads(g: Source, read: nat -> string, id: nat, name: string)
    requires SourceOk(g) && Declarable(g) && id < |g.types| && !Odd(g.types, id)
    ensures var c := ChainOf(g, read, id);
            && (ReadText(PrintChain(c, name, true)) == Got(Declaration(Norm(c), name), []) <==> Clean(c))
            && (ReadText(PrintChain(c, name, true)) == Got(Declaration(c, name), []) <==> Clean(c) && PlainArrays(c))
  {
    hide *;
    ShapedChain(g, read, id);
    RoundTripIff(ChainOf(g, read, id), name);
    ReadsItselfIff(ChainOf(g, read, id), name);
  }

  /** No modifier record refers to a function type. */
  ghost predicate NoModifiedFunction(g: Source)
    requires SourceOk(g)
  {
    forall i :: 0 <= i < |g.types| && IsMod(g.types[i].info.kind) ==>
      WellFormed(g.types[i]) && g.types[i].size < |g.types| && g.types[g.types[i].size].info.kind != KFuncProto
  }

  lemma {:induction false} CleanPush(c: Chain, e: Elem)
    requires Clean(c) && c != [] && Clean([e]) && !(e.EMod? && c[|c| - 1].EFun?)
    ensures Clean(c + [e])
    decreases |c|
  {
    assert (c + [e])[1..] == c[1..] + [e];
    if |c| == 1 {
      assert c[1..] + [e] == [e];
    } else {
      CleanPush(c[1..], e);
    }
  }

  lemma {:induction false} CleanAll(ps: seq<ParamDecl>)
    requires forall i :: 0 <= i < |ps| ==> Clean(ps[i].typ)
    ensures CleanParams(ps)
    decreases |ps|
  {
    hide Clean;
    if ps != [] {
      CleanAll(ps[1..]);
    }
  }

  /** In a graph without such records every type prints to a declaration that reads back. */
  lemma {:induction false} CleanChain(g: Source, read: nat -> string, id: nat)
    requires SourceOk(g) && NoModifiedFunction(g) && id < |g.types|
    ensures Clean(ChainOf(g, read, id))
    decreases Height(g, id), 1
  {
    hide SourceOk, Height, ElemOf, ChainOf, Clean;
    UnfoldChainOf(g, read, id);
    CleanLink(g, read, id);
    if ChainKind(g.types[id].info.kind) {
      ChainHeights(g, id);
      var x := Target(g.types[id]);
      var c, e := ChainOf(g, read, x), ElemOf(g, read, id);
      CleanChain(g, read, x);
      UnfoldChainOf(g, read, x);
      ElemKind(g, read, x);
      ElemKind(g, read, id);
      assert c[|c| - 1] == ElemOf(g, read, x);
      CleanPush(c, e);
    }
  }

  lemma {:induction false} CleanLink(g: Source, read: nat -> string, id: nat)
    requires SourceOk(g) && NoModifiedFunction(g) && id < |g.types|
    ensures Clean([ElemOf(g, read, id)])
    decreases Height(g, id), 0
  {
    hide SourceOk, Height, NoModifiedFunction, ElemOf, ChainOf;
    var e := ElemOf(g, read, id);
    ElemKind(g, read, id);
    assert [e][1..] == [];
    if e.EFun? {
      RecordOk(g, id);
      FunParams(g, read, id);
      var ps := g.types[id].tail.params;
      forall i | 0 <= i < |e.params|
        ensures Clean(e.params[i].typ)
      {
        ParamHeight(g, id, i);
        CleanChain(g, read, ps[i].typ);
      }
      CleanAll(e.params);
    }
  }
}
