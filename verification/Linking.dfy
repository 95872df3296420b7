/** Applying relocations to a program and linking .text behind it
    (lib/libbpf/src/libbpf-old.c:3187-3292). */
module Linking {
  import opened Basics

  const ENOMEM: int := -12
  const RELOC: int := -4005
  const PSEUDO_MAP_FD: nat := 1
  const PSEUDO_MAP_VALUE: nat := 2
  const LIMIT: nat := 0x8000_0000

  datatype Insn = Insn(code: nat, dst: nat, src: nat, off: int, imm: int)

  /** A map address loaded by a two-slot instruction, the address of data in a map, or a call into .text. */
  datatype Reloc = Ld64(at: nat, m: nat) | Data(at: nat, m: nat) | Call(at: nat)

  function Wrap32(x: int): int {
    var y := x % (2 * LIMIT);
    if y >= LIMIT then y - 2 * LIMIT else y
  }

  /** Where a call at position `at` goes. */
  function CallTarget(at: nat, insn: Insn): int { at + insn.imm + 1 }

  /** A relocation touches its slot; a map load is two slots wide. */
  predicate Touches(r: Reloc, j: nat) { j == r.at || (!r.Call? && j == r.at + 1) }

  /** Relocations lie in the main program and touch different slots. */
  ghost predicate Separate(relocs: seq<Reloc>, main: nat, maps: nat) {
    && (forall i, j: nat :: 0 <= i < |relocs| && Touches(relocs[i], j) ==> j < main)
    && (forall i :: 0 <= i < |relocs| && !relocs[i].Call? ==> relocs[i].m < maps)
    && (forall a, b, j: nat {:trigger Touches(relocs[a], j), Touches(relocs[b], j)} ::
          0 <= a < |relocs| && 0 <= b < |relocs| && Touches(relocs[a], j) && Touches(relocs[b], j) ==> a == b)
  }

  predicate HasCall(relocs: seq<Reloc>) { exists i :: 0 <= i < |relocs| && relocs[i].Call? }

  /** What a relocation makes of its slots; the source registers are those the uapi header names
      BPF_PSEUDO_MAP_FD and BPF_PSEUDO_MAP_VALUE. */
  predicate Applied(orig: seq<Insn>, now: seq<Insn>, main: nat, fds: seq<int>, r: Reloc)
    requires r.at < |orig| && r.at < |now| && (!r.Call? ==> r.at + 1 < |orig| && r.at + 1 < |now| && r.m < |fds|)
  {
    match r
    case Call(j) => now[j] == orig[j].(imm := Wrap32(orig[j].imm + main - j))
    case Ld64(j, m) => now[j] == orig[j].(src := 1, imm := fds[m]) && now[j + 1] == orig[j + 1]
    case Data(j, m) =>
      && now[j] == orig[j].(src := 2, imm := fds[m])
      && now[j + 1] == orig[j + 1].(imm := orig[j].imm)
  }

  /** The program after the first n relocations. */
  ghost predicate Linked(orig: seq<Insn>, now: seq<Insn>, text: seq<Insn>, fds: seq<int>, relocs: seq<Reloc>, n: nat)
    requires n <= |relocs| && Separate(relocs, |orig|, |fds|)
  {
    && |now| == |orig| + (if HasCall(relocs[..n]) then |text| else 0)
    && (HasCall(relocs[..n]) ==> now[|orig|..] == text)
    && (forall i :: 0 <= i < n ==> InPlace(orig, now, fds, relocs[i]) && Applied(orig, now, |orig|, fds, relocs[i]))
    && (forall j: nat :: j < |orig| && Untouched(relocs[..n], j) ==> now[j] == orig[j])
  }

  predicate InPlace(orig: seq<Insn>, now: seq<Insn>, fds: seq<int>, r: Reloc) {
    r.at < |orig| && r.at < |now| && (!r.Call? ==> r.at + 1 < |orig| && r.at + 1 < |now| && r.m < |fds|)
  }

  predicate Untouched(relocs: seq<Reloc>, j: nat) { forall i :: 0 <= i < |relocs| ==> !Touches(relocs[i], j) }

  lemma WrapFits(x: int)
    requires 0 - LIMIT <= x < LIMIT
    ensures Wrap32(x) == x
  {
  }

  lemma SomeCall(relocs: seq<Reloc>, i: nat)
    requires i < |relocs| && relocs[i].Call?
    ensures HasCall(relocs)
  {
  }

  /** Every call lands on the instruction of .text that its immediate names, in the one copy of .text. */
  lemma CallsLand(orig: seq<Insn>, now: seq<Insn>, text: seq<Insn>, fds: seq<int>, relocs: seq<Reloc>, i: nat)
    requires Separate(relocs, |orig|, |fds|) && Linked(orig, now, text, fds, relocs, |relocs|)
    requires i < |relocs| && relocs[i].Call? && |orig| + |text| < LIMIT
    requires InPlace(orig, now, fds, relocs[i])
    requires 0 <= orig[relocs[i].at].imm + 1 < |text|
    ensures var j, k := relocs[i].at, orig[relocs[i].at].imm;
            var target := CallTarget(j, now[j]);
            && target == |orig| + k + 1 && target < |now| && now[target] == text[k + 1]
            && now[j] == orig[j].(imm := now[j].imm)
  {
    hide Separate, Wrap32, HasCall, Untouched;
    var j, k := relocs[i].at, orig[relocs[i].at].imm;
    assert relocs[..|relocs|] == relocs;
    SomeCall(relocs, i);
    assert Applied(orig, now, |orig|, fds, relocs[i]);
    WrapFits(k + |orig| - j);
    assert now[|orig|..][k + 1] == now[|orig| + k + 1];
  }

  /** Calls and jumps inside .text are relative and keep their targets in the copy. */
  lemma TextKeepsTargets(orig: seq<Insn>, now: seq<Insn>, text: seq<Insn>, fds: seq<int>, relocs: seq<Reloc>, a: nat)
    requires Separate(relocs, |orig|, |fds|) && Linked(orig, now, text, fds, relocs, |relocs|) && HasCall(relocs)
    requires a < |text| && 0 <= CallTarget(a, text[a]) < |text|
    ensures |orig| + a < |now| && CallTarget(|orig| + a, now[|orig| + a]) == |orig| + CallTarget(a, text[a])
    ensures |orig| + CallTarget(a, text[a]) < |now|
    ensures now[|orig| + CallTarget(a, text[a])] == text[CallTarget(a, text[a])]
  {
    assert relocs[..|relocs|] == relocs;
    assert now[|orig|..][a] == now[|orig| + a];
    var t := CallTarget(a, text[a]);
    assert now[|orig|..][t] == now[|orig| + t];
  }

  lemma HasCallStep(relocs: seq<Reloc>, n: nat)
    requires n < |relocs|
    ensures HasCall(relocs[..n + 1]) <==> HasCall(relocs[..n]) || relocs[n].Call?
    ensures HasCall(relocs[..n]) ==> HasCall(relocs)
    ensures forall j: nat :: Untouched(relocs[..n + 1], j) <==> Untouched(relocs[..n], j) && !Touches(relocs[n], j)
  {
    assert relocs[..n + 1] == relocs[..n] + [relocs[n]];
    var a, b := relocs[..n], relocs[..n + 1];
    assert b[n] == relocs[n];
    if HasCall(a) {
      var i :| 0 <= i < |a| && a[i].Call?;
      assert b[i].Call? && relocs[i].Call?;
    }
    forall j: nat
      ensures Untouched(b, j) <==> Untouched(a, j) && !Touches(relocs[n], j)
    {
      if Untouched(b, j) {
        assert forall i :: 0 <= i < |a| ==> a[i] == b[i];
        assert !Touches(b[n], j);
      }
    }
  }

  /** One more relocation whose slots nobody touched before. */
  lemma LinkStep(orig: seq<Insn>, before: seq<Insn>, now: seq<Insn>, text: seq<Insn>, fds: seq<int>,
                 relocs: seq<Reloc>, n: nat)
    requires Separate(relocs, |orig|, |fds|) && n < |relocs| && Linked(orig, before, text, fds, relocs, n)
    requires |now| == |orig| + (if HasCall(relocs[..n + 1]) then |text| else 0)
    requires HasCall(relocs[..n + 1]) ==> now[|orig|..] == text
    requires InPlace(orig, now, fds, relocs[n]) && Applied(orig, now, |orig|, fds, relocs[n])
    requires forall j: nat :: j < |orig| && !Touches(relocs[n], j) ==> now[j] == before[j]
    ensures Linked(orig, now, text, fds, relocs, n + 1)
  {
    HasCallStep(relocs, n);
    forall i | 0 <= i < n + 1
      ensures InPlace(orig, now, fds, relocs[i]) && Applied(orig, now, |orig|, fds, relocs[i])
    {
      if i < n {
        var r := relocs[i];
        assert Touches(r, r.at) && (!r.Call? ==> Touches(r, r.at + 1));
        assert !Touches(relocs[n], r.at) && (!r.Call? ==> !Touches(relocs[n], r.at + 1));
      }
    }
  }

  // ---------------------------------------------------------------- the relocation loop on values

  /** What relocation finds: whether the program is .text itself, .text, the maps' descriptors, whether
      memory suffices, and the results of relocating .BTF.ext for the program and for .text. */
  datatype Setting = Setting(isText: bool, text: Option<seq<Insn>>, fds: seq<int>, enough: bool, mainExt: int,
                             textExt: int) {
    function Lib(): seq<Insn> { if text.Some? then text.value else [] }

    /** Calls can be linked. */
    predicate Linkable() { !isText && text.Some? && enough && textExt == 0 }
  }

  datatype Code = Code(insns: seq<Insn>, mainCnt: nat)

  datatype Outcome = Outcome(err: int, code: Code)

  predicate InRange(e: Setting, insns: nat, r: Reloc) { r.at < insns && (!r.Call? ==> r.m < |e.fds|) }

  /** .text is appended at the first call. */
  function LinkText(e: Setting, c: Code): (o: Outcome)
    ensures |o.code.insns| >= |c.insns|
  {
    if e.isText then Outcome(-4005, c)
    else if c.mainCnt > 0 then Outcome(0, c)
    else if e.text.None? then Outcome(-4005, c)
    else if !e.enough then Outcome(-12, c)
    else if e.textExt != 0 then Outcome(e.textExt, c)
    else Outcome(0, Code(c.insns + e.text.value, |c.insns|))
  }

  function RelocOne(e: Setting, c: Code, r: Reloc): (o: Outcome)
    requires InRange(e, |c.insns|, r)
    ensures |o.code.insns| >= |c.insns|
  {
    if r.Call? then
      var o := LinkText(e, c);
      if o.err != 0 then o
      else
        var slot := o.code.insns[r.at];
        Outcome(0, o.code.(insns := o.code.insns[r.at := slot.(imm := Wrap32(slot.imm + o.code.mainCnt - r.at))]))
    else if r.at + 1 >= |c.insns| then Outcome(-4005, c)
    else
      var slot, next := c.insns[r.at], c.insns[r.at + 1];
      var now := if r.Data? then c.insns[r.at + 1 := next.(imm := slot.imm)] else c.insns;
      var src := if r.Data? then PSEUDO_MAP_VALUE else PSEUDO_MAP_FD;
      Outcome(0, c.(insns := now[r.at := slot.(src := src, imm := e.fds[r.m])]))
  }

  /** After the first n relocations, or where they failed. */
  function After(e: Setting, c: Code, relocs: seq<Reloc>, n: nat): (o: Outcome)
    requires n <= |relocs| && forall i :: 0 <= i < |relocs| ==> InRange(e, |c.insns|, relocs[i])
    ensures |o.code.insns| >= |c.insns|
  {
    if n == 0 then Outcome(0, c)
    else
      var o := After(e, c, relocs, n - 1);
      if o.err != 0 then o else RelocOne(e, o.code, relocs[n - 1])
  }

  lemma {:induction false} Stopped(e: Setting, c: Code, relocs: seq<Reloc>, i: nat, n: nat)
    requires i <= n <= |relocs| && forall k :: 0 <= k < |relocs| ==> InRange(e, |c.insns|, relocs[k])
    requires After(e, c, relocs, i).err != 0
    ensures After(e, c, relocs, n) == After(e, c, relocs, i)
    decreases n
  {
    if i < n {
      Stopped(e, c, relocs, i, n - 1);
    }
  }

  /** Relocations that touch different slots of the main program: linking succeeds exactly when calls can
      be linked, and then .text is there once, every relocation is applied to its slots, and nothing
      else has changed. */
  lemma {:induction false} SeparateLinks(e: Setting, orig: seq<Insn>, relocs: seq<Reloc>, n: nat)
    requires Separate(relocs, |orig|, |e.fds|) && n <= |relocs|
    requires forall i :: 0 <= i < |relocs| ==> InRange(e, |orig|, relocs[i])
    ensures var o := After(e, Code(orig, 0), relocs, n);
            && (o.err == 0 <==> (HasCall(relocs[..n]) ==> e.Linkable()))
            && (o.err == 0 ==>
                  && Linked(orig, o.code.insns, e.Lib(), e.fds, relocs, n)
                  && o.code.mainCnt == if HasCall(relocs[..n]) then |orig| else 0)
    decreases n
  {
    hide Linked, HasCall, Applied, Separate, RelocOne;
    if n == 0 {
      LinkNothing(orig, e.Lib(), e.fds, relocs);
    } else {
      SeparateLinks(e, orig, relocs, n - 1);
      HasCallStep(relocs, n - 1);
      var o := After(e, Code(orig, 0), relocs, n - 1);
      if o.err == 0 {
        Slots(orig, o.code.insns, e.Lib(), e.fds, relocs, n - 1);
        OneLinks(e, orig, o.code, relocs, n - 1);
      }
    }
  }

  lemma OneLinks(e: Setting, orig: seq<Insn>, c: Code, relocs: seq<Reloc>, n: nat)
    requires Separate(relocs, |orig|, |e.fds|) && n < |relocs| && InRange(e, |c.insns|, relocs[n])
    requires relocs[n].at < |orig|
    requires Linked(orig, c.insns, e.Lib(), e.fds, relocs, n) && (HasCall(relocs[..n]) ==> e.Linkable())
    requires c.mainCnt == if HasCall(relocs[..n]) then |orig| else 0
    requires InPlace(orig, c.insns, e.fds, relocs[n]) && |orig| <= |c.insns|
    ensures var o := RelocOne(e, c, relocs[n]);
            && (o.err == 0 <==> (relocs[n].Call? ==> e.Linkable()))
            && (o.err == 0 ==>
                  && Linked(orig, o.code.insns, e.Lib(), e.fds, relocs, n + 1)
                  && o.code.mainCnt == if HasCall(relocs[..n + 1]) then |orig| else 0)
  {
    hide Linked, HasCall, Separate;
    HasCallStep(relocs, n);
    Slots(orig, c.insns, e.Lib(), e.fds, relocs, n);
    var o := RelocOne(e, c, relocs[n]);
    if o.err == 0 {
      if relocs[n].Call? {
        CallStep(orig, c.insns, o.code.insns, e.Lib(), e.fds, relocs, n);
      } else {
        MapStep(orig, c.insns, o.code.insns, e.Lib(), e.fds, relocs, n);
      }
    }
  }

  // ---------------------------------------------------------------- the code

  class Program {
    const e: Setting
    var insns: seq<Insn>
    var mainCnt: nat

    constructor (insns: seq<Insn>, e: Setting)
      ensures this.insns == insns && mainCnt == 0 && this.e == e
    {
      this.e, this.insns, mainCnt := e, insns, 0;
    }

    ghost function State(): Code
      reads this
    {
      Code(insns, mainCnt)
    }

    /** bpf_program__reloc_text */
    method RelocText(r: Reloc) returns (err: int)
      requires r.Call? && r.at < |insns|
      modifies this
      ensures Outcome(err, State()) == RelocOne(e, old(State()), r)
    {
      if e.isText {
        return RELOC;
      }
      if mainCnt == 0 {
        if e.text.None? {
          return RELOC;
        }
        if !e.enough {
          return ENOMEM;
        }
        if e.textExt != 0 {
          return e.textExt;
        }
        mainCnt := |insns|;
        insns := insns + e.text.value;
      }
      insns := insns[r.at := insns[r.at].(imm := Wrap32(insns[r.at].imm + mainCnt - r.at))];
      err := 0;
    }

    /** A map relocation: file descriptor and, for data, the offset in the second slot. */
    method RelocMap(r: Reloc) returns (err: int)
      requires !r.Call? && InRange(e, |insns|, r)
      modifies this`insns
      ensures Outcome(err, State()) == RelocOne(e, old(State()), r)
    {
      if r.at + 1 >= |insns| {
        return RELOC;
      }
      var slot, next := insns[r.at], insns[r.at + 1];
      if r.Data? {
        insns := insns[r.at + 1 := next.(imm := slot.imm)];
      }
      insns := insns[r.at := slot.(src := if r.Data? then PSEUDO_MAP_VALUE else PSEUDO_MAP_FD, imm := e.fds[r.m])];
      err := 0;
    }

    /** bpf_program__relocate: the exact outcome for every list of relocations in range, and what it means
        for relocations that touch different slots. */
    method Relocate(relocs: seq<Reloc>) returns (err: int)
      requires mainCnt == 0 && forall i :: 0 <= i < |relocs| ==> InRange(e, |insns|, relocs[i])
      modifies this
      ensures e.mainExt != 0 ==> err == e.mainExt && State() == old(State())
      ensures e.mainExt == 0 ==> Outcome(err, State()) == After(e, old(State()), relocs, |relocs|)
      ensures e.mainExt == 0 && Separate(relocs, |old(insns)|, |e.fds|) ==>
                && (err == 0 <==> (HasCall(relocs) ==> e.Linkable()))
                && (err == 0 ==> Linked(old(insns), insns, e.Lib(), e.fds, relocs, |relocs|))
    {
      hide Linked, HasCall, Separate, RelocOne;
      ghost var start := State();
      if e.mainExt != 0 {
        return e.mainExt;
      }
      assert relocs[..|relocs|] == relocs;
      if Separate(relocs, |insns|, |e.fds|) {
        SeparateLinks(e, insns, relocs, |relocs|);
      }
      for i := 0 to |relocs|
        invariant Outcome(0, State()) == After(e, start, relocs, i)
      {
        if relocs[i].Call? {
          err := RelocText(relocs[i]);
        } else {
          err := RelocMap(relocs[i]);
        }
        assert Outcome(err, State()) == After(e, start, relocs, i + 1);
        if err != 0 {
          Stopped(e, start, relocs, i + 1, |relocs|);
          return;
        }
      }
      err := 0;
    }
  }

  lemma LinkNothing(orig: seq<Insn>, text: seq<Insn>, fds: seq<int>, relocs: seq<Reloc>)
    requires Separate(relocs, |orig|, |fds|)
    ensures Linked(orig, orig, text, fds, relocs, 0) && !HasCall(relocs[..0])
  {
  }

  /** The slots of the next relocation are still the original ones. */
  lemma Slots(orig: seq<Insn>, before: seq<Insn>, text: seq<Insn>, fds: seq<int>, relocs: seq<Reloc>, n: nat)
    requires Separate(relocs, |orig|, |fds|) && n < |relocs| && Linked(orig, before, text, fds, relocs, n)
    ensures |before| == |orig| + (if HasCall(relocs[..n]) then |text| else 0)
    ensures HasCall(relocs[..n]) ==> before[|orig|..] == text
    ensures InPlace(orig, before, fds, relocs[n]) && before[relocs[n].at] == orig[relocs[n].at]
    ensures !relocs[n].Call? ==> before[relocs[n].at + 1] == orig[relocs[n].at + 1]
  {
    var r := relocs[n];
    assert Touches(r, r.at) && (!r.Call? ==> Touches(r, r.at + 1));
    assert Untouched(relocs[..n], r.at) && (!r.Call? ==> Untouched(relocs[..n], r.at + 1));
  }

  lemma CallStep(orig: seq<Insn>, before: seq<Insn>, now: seq<Insn>, text: seq<Insn>, fds: seq<int>,
                 relocs: seq<Reloc>, n: nat)
    requires Separate(relocs, |orig|, |fds|) && n < |relocs| && Linked(orig, before, text, fds, relocs, n)
    requires relocs[n].Call?
    requires relocs[n].at < |orig| <= |before|
    requires var linked := if HasCall(relocs[..n]) then before else before + text;
             var j := relocs[n].at;
             now == linked[j := linked[j].(imm := Wrap32(linked[j].imm + |orig| - j))]
    ensures Linked(orig, now, text, fds, relocs, n + 1)
  {
    hide Linked, HasCall, Separate;
    var r := relocs[n];
    var linked := if HasCall(relocs[..n]) then before else before + text;
    HasCallStep(relocs, n);
    Slots(orig, before, text, fds, relocs, n);
    assert linked[|orig|..] == text;
    assert now[|orig|..] == linked[|orig|..];
    LinkStep(orig, before, now, text, fds, relocs, n);
  }

  lemma MapStep(orig: seq<Insn>, before: seq<Insn>, now: seq<Insn>, text: seq<Insn>, fds: seq<int>, relocs: seq<Reloc>,
                n: nat)
    requires Separate(relocs, |orig|, |fds|) && n < |relocs| && Linked(orig, before, text, fds, relocs, n)
    requires !relocs[n].Call?
    requires |now| == |before| && InPlace(before, now, fds, relocs[n]) && Applied(before, now, 0, fds, relocs[n])
    requires forall j: nat :: j < |now| && !Touches(relocs[n], j) ==> now[j] == before[j]
    ensures Linked(orig, now, text, fds, relocs, n + 1)
  {
    hide Linked, HasCall, Separate;
    HasCallStep(relocs, n);
    Slots(orig, before, text, fds, relocs, n);
    assert relocs[n].at + 1 < |orig|;
    assert now[|orig|..] == before[|orig|..];
    LinkStep(orig, before, now, text, fds, relocs, n);
  }
}
