/** Ordering of type definitions for C output (lib/libbpf/src/btf_dump.c:186-458). */
module DumpOrder {
  import opened Btf
  import opened RecordCompare
  import opened DedupState

  const EINVAL: int := -22
  const ELOOP: int := -40

  datatype State = NotOrdered | Ordering | Ordered

  predicate Anonymous(t: BtfType) { t.name == 0 }

  /** Kinds that are passed through on the way to a definition. */
  predicate Plain(k: Kind) { k == KArray || IsMod(k) }

  /** Kinds from which the walk goes on to one other type. */
  predicate Passing(k: Kind) { k == KPtr || k == KTypedef || Plain(k) }

  /** The type graph with a layering of its reference types: cycles pass through structs and unions. */
  datatype Source = Source(types: seq<BtfType>, depth: seq<nat>)

  ghost predicate SourceOk(g: Source) {
    Graph(g.types) && Layered(g.types, g.depth)
  }

  ghost function Height(g: Source, i: nat): nat
    requires SourceOk(g) && i < |g.types|
  {
    if RefKind(g.types[i].info.kind) then g.depth[i] + 1 else 0
  }

  lemma HeightDrops(g: Source, i: nat, k: nat)
    requires SourceOk(g) && i < |g.types| && RefKind(g.types[i].info.kind) && k < |Refs(g.types[i])|
    ensures Refs(g.types[i])[k] < |g.types| && Height(g, Refs(g.types[i])[k]) < Height(g, i)
  {
  }

  /** What a use of type i, by value or only behind a pointer, needs from the definitions `q` so far.
      `done` says at which length of `q` an anonymous composite was completed. */
  ghost predicate Ready(g: Source, q: seq<nat>, done: map<nat, nat>, i: nat, ptr: bool)
    requires SourceOk(g) && i < |g.types|
    decreases Height(g, i)
  {
    var t := g.types[i];
    match t.info.kind
    case KEnum => Anonymous(t) || i in q
    case KFwd => Anonymous(t) || i in q
    case KStruct => if Anonymous(t) then i in done && done[i] <= |q| else ptr || i in q
    case KUnion => if Anonymous(t) then i in done && done[i] <= |q| else ptr || i in q
    case KPtr => HeightDrops(g, i, 0); Ready(g, q, done, Refs(t)[0], true)
    case KTypedef => HeightDrops(g, i, 0); (ptr || i in q) && Ready(g, q, done, Refs(t)[0], ptr)
    case KArray => HeightDrops(g, i, 0); Ready(g, q, done, Refs(t)[0], ptr)
    case KConst => HeightDrops(g, i, 0); Ready(g, q, done, Refs(t)[0], ptr)
    case KVolatile => HeightDrops(g, i, 0); Ready(g, q, done, Refs(t)[0], ptr)
    case KRestrict => HeightDrops(g, i, 0); Ready(g, q, done, Refs(t)[0], ptr)
    case KFuncProto =>
      forall k :: 0 <= k < |Refs(t)| ==> (HeightDrops(g, i, k); Ready(g, q, done, Refs(t)[k], true))
    case _ => true
  }

  ghost predicate Grown(q: seq<nat>, done: map<nat, nat>, q': seq<nat>, done': map<nat, nat>) {
    && |q| <= |q'| && q == q'[..|q|]
    && forall i :: i in done ==> i in done' && done'[i] == done[i]
  }

  lemma {:induction false} ReadyGrows(g: Source, q: seq<nat>, done: map<nat, nat>, q': seq<nat>, done': map<nat, nat>,
                                      i: nat, ptr: bool)
    requires SourceOk(g) && i < |g.types| && Grown(q, done, q', done') && Ready(g, q, done, i, ptr)
    ensures Ready(g, q', done', i, ptr)
    decreases Height(g, i)
  {
    var t := g.types[i];
    var k := t.info.kind;
    if k == KPtr {
      HeightDrops(g, i, 0);
      ReadyGrows(g, q, done, q', done', Refs(t)[0], true);
    } else if k == KTypedef || Plain(k) {
      HeightDrops(g, i, 0);
      ReadyGrows(g, q, done, q', done', Refs(t)[0], ptr);
    } else if k == KFuncProto {
      forall j | 0 <= j < |Refs(t)|
        ensures Refs(t)[j] < |g.types| && Ready(g, q', done', Refs(t)[j], true)
      {
        HeightDrops(g, i, j);
        ReadyGrows(g, q, done, q', done', Refs(t)[j], true);
      }
    }
  }

  /** What suffices by value suffices behind a pointer. */
  lemma {:induction false} ReadyWeaker(g: Source, q: seq<nat>, done: map<nat, nat>, i: nat)
    requires SourceOk(g) && i < |g.types| && Ready(g, q, done, i, false)
    ensures Ready(g, q, done, i, true)
    decreases Height(g, i)
  {
    var k := g.types[i].info.kind;
    if k == KTypedef || Plain(k) {
      HeightDrops(g, i, 0);
      ReadyWeaker(g, q, done, Refs(g.types[i])[0]);
    }
  }

  /** All members of a composite, or the target of a typedef, are ready. */
  ghost predicate PartsReady(g: Source, q: seq<nat>, done: map<nat, nat>, i: nat)
    requires SourceOk(g) && i < |g.types|
  {
    forall k :: 0 <= k < |Refs(g.types[i])| ==>
      Refs(g.types[i])[k] < |g.types| && Ready(g, q, done, Refs(g.types[i])[k], false)
  }

  lemma PartsGrow(g: Source, q: seq<nat>, done: map<nat, nat>, q': seq<nat>, done': map<nat, nat>, i: nat)
    requires SourceOk(g) && i < |g.types| && Grown(q, done, q', done') && PartsReady(g, q, done, i)
    ensures PartsReady(g, q', done', i)
  {
    forall k | 0 <= k < |Refs(g.types[i])|
      ensures Ready(g, q', done', Refs(g.types[i])[k], false)
    {
      ReadyGrows(g, q, done, q', done', Refs(g.types[i])[k], false);
    }
  }

  predicate Single(k: Kind) { IsComposite(k) || k == KEnum || k == KFwd }

  /** A set of ids that no reference leaves. */
  ghost predicate ClosedSet(g: Source, S: set<nat>)
    requires SourceOk(g)
  {
    forall i, k :: i in S && i < |g.types| && 0 <= k < |Refs(g.types[i])| ==> Refs(g.types[i])[k] in S
  }

  /** S holds everything that type i refers to, directly or not, without i. */
  ghost predicate Escapes(g: Source, i: nat, S: set<nat>)
    requires SourceOk(g) && i < |g.types|
  {
    ClosedSet(g, S) && i !in S && forall k :: 0 <= k < |Refs(g.types[i])| ==> Refs(g.types[i])[k] in S
  }

  /** No reference leads from i back to i. */
  ghost predicate OffCycle(g: Source, i: nat)
    requires SourceOk(g) && i < |g.types|
  {
    exists S :: Escapes(g, i, S)
  }

  /** No function prototype comes next on the way through pointers, arrays, modifiers and typedefs. */
  ghost predicate Straight(g: Source, i: nat)
    requires SourceOk(g) && i < |g.types|
    decreases Height(g, i)
  {
    var k := g.types[i].info.kind;
    if Passing(k) then HeightDrops(g, i, 0); Straight(g, Refs(g.types[i])[0]) else k != KFuncProto
  }

  /** Types that are queued at most once. */
  ghost predicate Once(g: Source, i: nat)
    requires SourceOk(g) && i < |g.types|
  {
    Single(g.types[i].info.kind) || (g.types[i].info.kind == KTypedef && (OffCycle(g, i) || Straight(g, i)))
  }

  /** What every call keeps, failed ones included: only composites are left open, what is queued is
      ordered, and nothing that Once names is queued twice. */
  ghost predicate Sound(g: Source, st: seq<State>, q: seq<nat>, done: map<nat, nat>)
    requires SourceOk(g)
  {
    && |st| == |g.types| && st[0] == Ordered
    && (forall i :: 0 <= i < |st| && st[i] == Ordering ==> IsComposite(g.types[i].info.kind))
    && (forall k :: 0 <= k < |q| ==> q[k] < |g.types| && st[q[k]] == Ordered)
    && (forall k, l :: 0 <= k < l < |q| && Once(g, q[k]) ==> q[k] != q[l])
    && (forall i :: i in done ==> i < |st| && st[i] == Ordered && done[i] <= |q|)
  }

  /** What successful calls keep: everything ordered is ready, and what is queued or completed came
      after what it needs. */
  ghost predicate Sane(g: Source, st: seq<State>, q: seq<nat>, done: map<nat, nat>)
    requires SourceOk(g) && Sound(g, st, q, done)
  {
    && (forall i :: 0 <= i < |st| && st[i] == Ordered ==> Ready(g, q, done, i, false))
    && (forall k :: 0 <= k < |q| && Parted(g.types[q[k]].info.kind) ==> PartsReady(g, q[..k], done, q[k]))
    && (forall i :: i in done ==> PartsReady(g, q[..done[i]], done, i))
  }

  ghost predicate Inv(g: Source, st: seq<State>, q: seq<nat>, done: map<nat, nat>)
    requires SourceOk(g)
  {
    Sound(g, st, q, done) && Sane(g, st, q, done)
  }

  /** Kinds whose definition needs other definitions. */
  predicate Parted(k: Kind) { IsComposite(k) || k == KTypedef }

  // ---------------------------------------------------------------- steps of the walk

  lemma StartComposite(g: Source, st: seq<State>, q: seq<nat>, done: map<nat, nat>, i: nat)
    requires SourceOk(g) && Sound(g, st, q, done) && i < |st| && st[i] == NotOrdered
    requires IsComposite(g.types[i].info.kind)
    ensures Sound(g, st[i := Ordering], q, done)
    ensures Inv(g, st, q, done) ==> Inv(g, st[i := Ordering], q, done)
  {
    hide Ready, PartsReady, Once;
  }

  /** An id that is ready by itself is marked as ordered. */
  lemma MarkOrdered(g: Source, st: seq<State>, q: seq<nat>, done: map<nat, nat>, i: nat)
    requires SourceOk(g) && Sound(g, st, q, done) && i < |st|
    ensures Sound(g, st[i := Ordered], q, done)
    ensures Inv(g, st, q, done) && Ready(g, q, done, i, false) ==> Inv(g, st[i := Ordered], q, done)
  {
    hide Ready, PartsReady, Once;
  }

  lemma PushSound(g: Source, st: seq<State>, q: seq<nat>, done: map<nat, nat>, i: nat)
    requires SourceOk(g) && Sound(g, st, q, done) && i < |st| && (Once(g, i) ==> st[i] != Ordered)
    ensures Sound(g, st[i := Ordered], q + [i], done)
  {
    hide Once;
  }

  /** A named definition joins the queue once its parts are ready. */
  lemma PushDefinition(g: Source, st: seq<State>, q: seq<nat>, done: map<nat, nat>, i: nat)
    requires SourceOk(g) && Inv(g, st, q, done) && i < |st| && (Once(g, i) ==> st[i] != Ordered)
    requires (Single(g.types[i].info.kind) && !Anonymous(g.types[i])) || g.types[i].info.kind == KTypedef
    requires Parted(g.types[i].info.kind) ==> PartsReady(g, q, done, i)
    ensures Inv(g, st[i := Ordered], q + [i], done)
  {
    hide Ready, PartsReady, Once;
    var q' := q + [i];
    PushSound(g, st, q, done, i);
    forall j | 0 <= j < |st| && st[i := Ordered][j] == Ordered
      ensures Ready(g, q', done, j, false)
    {
      if j == i {
        ReadyPushed(g, q, done, i);
      } else {
        ReadyGrows(g, q, done, q', done, j, false);
      }
    }
    assert q'[..|q|] == q;
    assert forall k :: 0 <= k < |q| ==> q'[..k] == q[..k];
    forall j | j in done
      ensures PartsReady(g, q'[..done[j]], done, j)
    {
      assert q'[..done[j]] == q[..done[j]];
    }
  }

  lemma ReadyPushed(g: Source, q: seq<nat>, done: map<nat, nat>, i: nat)
    requires SourceOk(g) && i < |g.types|
    requires (Single(g.types[i].info.kind) && !Anonymous(g.types[i]))
          || (g.types[i].info.kind == KTypedef && PartsReady(g, q, done, i))
    ensures Ready(g, q + [i], done, i, false)
  {
    if g.types[i].info.kind == KTypedef {
      HeightDrops(g, i, 0);
      ReadyGrows(g, q, done, q + [i], done, Refs(g.types[i])[0], false);
    }
  }

  lemma CloseSound(g: Source, st: seq<State>, q: seq<nat>, done: map<nat, nat>, i: nat)
    requires SourceOk(g) && Sound(g, st, q, done) && i < |st| && st[i] == Ordering
    ensures Sound(g, st[i := Ordered], q, done[i := |q|]) && Grown(q, done, q, done[i := |q|])
  {
    hide Once;
  }

  /** An anonymous composite is completed without being queued. */
  lemma CloseAnonymous(g: Source, st: seq<State>, q: seq<nat>, done: map<nat, nat>, i: nat)
    requires SourceOk(g) && Inv(g, st, q, done) && i < |st| && st[i] == Ordering
    requires Anonymous(g.types[i]) && PartsReady(g, q, done, i)
    ensures Inv(g, st[i := Ordered], q, done[i := |q|]) && Grown(q, done, q, done[i := |q|])
  {
    hide Once;
    var done' := done[i := |q|];
    CloseSound(g, st, q, done, i);
    assert q[..|q|] == q;
    forall p | 0 <= p <= |q|
      ensures Grown(q[..p], done, q[..p], done')
    {
    }
    forall j | 0 <= j < |st| && st[i := Ordered][j] == Ordered
      ensures Ready(g, q, done', j, false)
    {
      if j != i {
        ReadyGrows(g, q, done, q, done', j, false);
      }
    }
    forall j | j in done'
      ensures PartsReady(g, q[..done'[j]], done', j)
    {
      if j != i {
        PartsGrow(g, q[..done[j]], done, q[..done[j]], done', j);
      } else {
        PartsGrow(g, q, done, q, done', j);
      }
    }
    forall k | 0 <= k < |q| && Parted(g.types[q[k]].info.kind)
      ensures PartsReady(g, q[..k], done', q[k])
    {
      PartsGrow(g, q[..k], done, q[..k], done', q[k]);
    }
  }

  // ---------------------------------------------------------------- success

  ghost function Lay(lf: seq<nat>, lt: seq<nat>, i: nat, ptr: bool): nat
    requires i < |lf| == |lt|
  {
    if ptr then lt[i] else lf[i]
  }

  /** A use behind a pointer that a forward declaration satisfies. */
  predicate Forwardable(t: BtfType, ptr: bool) {
    ptr && IsComposite(t.info.kind) && !Anonymous(t)
  }

  /** Containment by value is well founded: members lie below their composite, and going through
      reference types never goes up, except to a named composite behind a pointer. */
  ghost predicate Orderable(g: Source, lf: seq<nat>, lt: seq<nat>)
    requires SourceOk(g)
  {
    && |lf| == |lt| == |g.types|
    && (forall i :: 0 <= i < |g.types| && IsComposite(g.types[i].info.kind) ==> lf[i] == lt[i] && Below(g, lf, i))
    && (forall i :: 0 <= i < |g.types| && RefKind(g.types[i].info.kind) ==>
        NotUp(g, lf, lt, i, true) && NotUp(g, lf, lt, i, false))
  }

  ghost predicate Below(g: Source, lf: seq<nat>, i: nat)
    requires SourceOk(g) && |lf| == |g.types| && i < |lf|
  {
    forall k :: 0 <= k < |Refs(g.types[i])| ==> Refs(g.types[i])[k] < |lf| && lf[Refs(g.types[i])[k]] < lf[i]
  }

  ghost predicate NotUp(g: Source, lf: seq<nat>, lt: seq<nat>, i: nat, ptr: bool)
    requires SourceOk(g) && |lf| == |lt| == |g.types| && i < |lf|
  {
    var p := ptr || g.types[i].info.kind == KPtr;
    forall k :: 0 <= k < |Refs(g.types[i])| ==>
      && Refs(g.types[i])[k] < |lf|
      && (Forwardable(g.types[Refs(g.types[i])[k]], p) || Lay(lf, lt, Refs(g.types[i])[k], p) <= Lay(lf, lt, i, ptr))
  }

  ghost predicate Busy(st: seq<State>, lf: seq<nat>, d: nat) {
    |lf| == |st| && forall i :: 0 <= i < |st| && st[i] == Ordering ==> lf[i] > d
  }

  /** What guarantees that ordering id does not fail. */
  ghost predicate Safe(g: Source, st: seq<State>, lf: seq<nat>, lt: seq<nat>, id: nat, ptr: bool)
    requires SourceOk(g) && id < |g.types|
  {
    || Forwardable(g.types[id], ptr)
    || (Orderable(g, lf, lt) && Busy(st, lf, Lay(lf, lt, id, ptr)))
  }

  ghost predicate Moved(a: seq<State>, b: seq<State>) {
    && |a| == |b|
    && forall i :: 0 <= i < |a| ==> (a[i] == NotOrdered && b[i] != Ordering) || (a[i] != NotOrdered && b[i] == a[i])
  }

  ghost function Fresh(g: Source, st: seq<State>): set<nat> {
    set i: nat | i < |st| && i < |g.types| && st[i] == NotOrdered && IsComposite(g.types[i].info.kind)
  }

  lemma SafeKid(g: Source, st: seq<State>, st': seq<State>, lf: seq<nat>, lt: seq<nat>, id: nat, ptr: bool, k: nat)
    requires SourceOk(g) && id < |g.types| && RefKind(g.types[id].info.kind) && k < |Refs(g.types[id])|
    requires Moved(st, st')
    ensures Refs(g.types[id])[k] < |g.types|
    ensures Safe(g, st, lf, lt, id, ptr) ==>
              Safe(g, st', lf, lt, Refs(g.types[id])[k], ptr || g.types[id].info.kind == KPtr)
  {
    HeightDrops(g, id, k);
  }

  lemma SafeMember(g: Source, st: seq<State>, st': seq<State>, lf: seq<nat>, lt: seq<nat>, id: nat, ptr: bool, k: nat)
    requires SourceOk(g) && id < |g.types| == |st| && IsComposite(g.types[id].info.kind) && k < |Refs(g.types[id])|
    requires !Forwardable(g.types[id], ptr) && Moved(st[id := Ordering], st')
    ensures Refs(g.types[id])[k] < |g.types|
    ensures Safe(g, st, lf, lt, id, ptr) ==> Safe(g, st', lf, lt, Refs(g.types[id])[k], false)
  {
  }

  // ---------------------------------------------------------------- the walk on values

  /** Result code, states and definitions after a walk. */
  datatype Res = Res(r: int, st: seq<State>, log: seq<nat>)

  datatype Fuelled = Spent | Ended(res: Res)

  /** btf_dump_order_type on values; `fuel` bounds the depth of the recursion. */
  ghost function Walk(T: seq<BtfType>, st: seq<State>, log: seq<nat>, id: nat, ptr: bool, fuel: nat): (x: Fuelled)
    requires Graph(T) && |st| == |T| && id < |T|
    ensures x.Ended? ==> |x.res.st| == |T|
    decreases fuel, 0, 0
  {
    var t := T[id];
    var k := t.info.kind;
    if fuel == 0 then Spent
    else if st[id] == Ordered then Ended(Res(1, st, log))
    else if st[id] == Ordering then
      Ended(Res(if IsComposite(k) && ptr && t.name != 0 then 0 else ELOOP, st, log))
    else if IsComposite(k) then
      if ptr && t.name != 0 then Ended(Res(0, st, log))
      else CloseComposite(t, id, WalkAll(T, st[id := Ordering], log, id, |Refs(t)|, false, fuel - 1))
    else if k == KFuncProto then WalkAll(T, st, log, id, |Refs(t)|, ptr, fuel - 1)
    else if RefKind(k) && k != KFunc && |Refs(t)| > 0 then
      CloseReference(k, id, ptr, Walk(T, st, log, Refs(t)[0], ptr || k == KPtr, fuel - 1))
    else
      Ended(Res(if Single(k) then 1 else 0, st[id := Ordered], if Single(k) && t.name != 0 then log + [id] else log))
  }

  function CloseComposite(t: BtfType, id: nat, x: Fuelled): (y: Fuelled)
    requires x.Ended? ==> id < |x.res.st|
    ensures y.Ended? ==> x.Ended? && |y.res.st| == |x.res.st|
  {
    if x.Spent? || x.res.r < 0 then x
    else Ended(Res(1, x.res.st[id := Ordered], if t.name != 0 then x.res.log + [id] else x.res.log))
  }

  function CloseReference(k: Kind, id: nat, ptr: bool, x: Fuelled): (y: Fuelled)
    requires x.Ended? ==> id < |x.res.st|
    ensures y.Ended? ==> x.Ended? && |y.res.st| == |x.res.st|
  {
    if x.Spent? then x
    else if k == KPtr then Ended(x.res.(st := x.res.st[id := Ordered]))
    else if x.res.r < 0 || k != KTypedef || (ptr && x.res.r == 0) then x
    else Ended(Res(1, x.res.st[id := Ordered], x.res.log + [id]))
  }

  /** The first k references of type id, in order; strong if one of them is. */
  ghost function WalkAll(T: seq<BtfType>, st: seq<State>, log: seq<nat>, id: nat, k: nat, ptr: bool, fuel: nat)
    : (x: Fuelled)
    requires Graph(T) && |st| == |T| && id < |T| && k <= |Refs(T[id])|
    ensures x.Ended? ==> |x.res.st| == |T|
    decreases fuel, 1, k
  {
    if k == 0 then Ended(Res(0, st, log))
    else
      var x := WalkAll(T, st, log, id, k - 1, ptr, fuel);
      if x.Spent? || x.res.r < 0 then x
      else Join(x.res.r, Walk(T, x.res.st, x.res.log, Refs(T[id])[k - 1], ptr, fuel))
  }

  function Join(r: int, y: Fuelled): (z: Fuelled)
    ensures z.Ended? ==> y.Ended? && z.res.st == y.res.st && z.res.log == y.res.log
  {
    if y.Spent? || y.res.r < 0 then y else Ended(y.res.(r := if r == 1 || y.res.r == 1 then 1 else 0))
  }

  /** More fuel does not change a walk that ended. */
  lemma {:induction false} WalkMore(T: seq<BtfType>, st: seq<State>, log: seq<nat>, id: nat, ptr: bool, f: nat,
                                    more: nat)
    requires Graph(T) && |st| == |T| && id < |T| && f <= more && Walk(T, st, log, id, ptr, f).Ended?
    ensures Walk(T, st, log, id, ptr, more) == Walk(T, st, log, id, ptr, f)
    decreases f, 0, 0
  {
    hide Graph, Refs, Walk, WalkAll, RefKind;
    WalkStart(T, st, log, id, ptr, f);
    RefCount(T, id);
    WalkKnown(T, st, log, id, ptr, f);
    WalkKnown(T, st, log, id, ptr, more);
    var t := T[id];
    var k := t.info.kind;
    if st[id] == NotOrdered {
      if IsComposite(k) {
        if !(ptr && t.name != 0) {
          WalkComposite(T, st, log, id, ptr, f - 1);
          WalkComposite(T, st, log, id, ptr, more - 1);
          WalkAllMore(T, st[id := Ordering], log, id, |Refs(t)|, false, f - 1, more - 1);
        }
      } else if k == KFuncProto {
        WalkPrototype(T, st, log, id, ptr, f - 1);
        WalkPrototype(T, st, log, id, ptr, more - 1);
        WalkAllMore(T, st, log, id, |Refs(t)|, ptr, f - 1, more - 1);
      } else if RefKind(k) && k != KFunc {
        WalkReference(T, st, log, id, ptr, f - 1);
        WalkReference(T, st, log, id, ptr, more - 1);
        WalkMore(T, st, log, Refs(t)[0], ptr || k == KPtr, f - 1, more - 1);
      } else {
        WalkLeaf(T, st, log, id, ptr, f);
        WalkLeaf(T, st, log, id, ptr, more);
      }
    }
  }

  lemma WalkStart(T: seq<BtfType>, st: seq<State>, log: seq<nat>, id: nat, ptr: bool, f: nat)
    requires Graph(T) && |st| == |T| && id < |T|
    ensures Walk(T, st, log, id, ptr, f).Ended? ==> f > 0
  {
    hide WalkAll;
  }

  lemma {:induction false} WalkAllMore(T: seq<BtfType>, st: seq<State>, log: seq<nat>, id: nat, k: nat, ptr: bool,
                                       f: nat, more: nat)
    requires Graph(T) && |st| == |T| && id < |T| && k <= |Refs(T[id])| && f <= more
    requires WalkAll(T, st, log, id, k, ptr, f).Ended?
    ensures WalkAll(T, st, log, id, k, ptr, more) == WalkAll(T, st, log, id, k, ptr, f)
    decreases f, 1, k
  {
    hide *;
    RefCount(T, id);
    if k == 0 {
      WalkNone(T, st, log, id, ptr, f);
      WalkNone(T, st, log, id, ptr, more);
    } else {
      UnfoldAll(T, st, log, id, k, ptr, f);
      UnfoldAll(T, st, log, id, k, ptr, more);
      var x := WalkAll(T, st, log, id, k - 1, ptr, f);
      WalkAllMore(T, st, log, id, k - 1, ptr, f, more);
      if x.res.r >= 0 {
        WalkMore(T, x.res.st, x.res.log, Refs(T[id])[k - 1], ptr, f, more);
      }
    }
  }

  lemma UnfoldAll(T: seq<BtfType>, st: seq<State>, log: seq<nat>, id: nat, k: nat, ptr: bool, f: nat)
    requires Graph(T) && |st| == |T| && id < |T| && 0 < k <= |Refs(T[id])|
    ensures Refs(T[id])[k - 1] < |T|
    ensures var x := WalkAll(T, st, log, id, k - 1, ptr, f);
            WalkAll(T, st, log, id, k, ptr, f) ==
            if x.Spent? || x.res.r < 0 then x
            else Join(x.res.r, Walk(T, x.res.st, x.res.log, Refs(T[id])[k - 1], ptr, f))
  {
    hide Walk;
  }

  /** A failure among the first references is the failure of all. */
  lemma {:induction false} WalkFailsUpTo(T: seq<BtfType>, st: seq<State>, log: seq<nat>, id: nat, k: nat, n: nat,
                                         ptr: bool, f: nat)
    requires Graph(T) && |st| == |T| && id < |T| && k <= n <= |Refs(T[id])|
    requires var x := WalkAll(T, st, log, id, k, ptr, f); x.Ended? && x.res.r < 0
    ensures WalkAll(T, st, log, id, n, ptr, f) == WalkAll(T, st, log, id, k, ptr, f)
    decreases n
  {
    hide *;
    RefCount(T, id);
    if k < n {
      UnfoldAll(T, st, log, id, n, ptr, f);
      WalkFailsUpTo(T, st, log, id, k, n - 1, ptr, f);
    }
  }

  lemma WalkFails(T: seq<BtfType>, st: seq<State>, log: seq<nat>, id: nat, k: nat, ptr: bool, f: nat)
    requires Graph(T) && |st| == |T| && id < |T| && k <= |Refs(T[id])|
    requires var x := WalkAll(T, st, log, id, k, ptr, f); x.Ended? && x.res.r < 0
    ensures WalkAll(T, st, log, id, |Refs(T[id])|, ptr, f) == WalkAll(T, st, log, id, k, ptr, f)
  {
    RefCount(T, id);
    hide Graph, Refs, WalkAll;
    WalkFailsUpTo(T, st, log, id, k, |Refs(T[id])|, ptr, f);
  }

  lemma WalkNone(T: seq<BtfType>, st: seq<State>, log: seq<nat>, id: nat, ptr: bool, f: nat)
    requires Graph(T) && |st| == |T| && id < |T|
    ensures WalkAll(T, st, log, id, 0, ptr, f) == Ended(Res(0, st, log))
  {
  }

  // One level of the walk, by the kind of the type.

  lemma WalkKnown(T: seq<BtfType>, st: seq<State>, log: seq<nat>, id: nat, ptr: bool, f: nat)
    requires Graph(T) && |st| == |T| && id < |T| && f > 0
    ensures st[id] == Ordered ==> Walk(T, st, log, id, ptr, f) == Ended(Res(1, st, log))
    ensures st[id] == Ordering ==>
              var r := if IsComposite(T[id].info.kind) && ptr && T[id].name != 0 then 0 else ELOOP;
              Walk(T, st, log, id, ptr, f) == Ended(Res(r, st, log))
    ensures st[id] == NotOrdered && IsComposite(T[id].info.kind) && ptr && T[id].name != 0 ==>
              Walk(T, st, log, id, ptr, f) == Ended(Res(0, st, log))
  {
  }

  lemma WalkLeaf(T: seq<BtfType>, st: seq<State>, log: seq<nat>, id: nat, ptr: bool, f: nat)
    requires Graph(T) && |st| == |T| && id < |T| && st[id] == NotOrdered && f > 0
    requires !IsComposite(T[id].info.kind) && (RefKind(T[id].info.kind) ==> T[id].info.kind == KFunc)
    ensures Walk(T, st, log, id, ptr, f) ==
            Ended(Res(if Single(T[id].info.kind) then 1 else 0, st[id := Ordered],
                      if Single(T[id].info.kind) && T[id].name != 0 then log + [id] else log))
  {
  }

  lemma WalkReference(T: seq<BtfType>, st: seq<State>, log: seq<nat>, id: nat, ptr: bool, f: nat)
    requires Graph(T) && |st| == |T| && id < |T| && st[id] == NotOrdered && RefKind(T[id].info.kind)
    requires T[id].info.kind != KFunc && T[id].info.kind != KFuncProto && |Refs(T[id])| > 0
    ensures Walk(T, st, log, id, ptr, f + 1) ==
            CloseReference(T[id].info.kind, id, ptr,
                           Walk(T, st, log, Refs(T[id])[0], ptr || T[id].info.kind == KPtr, f))
  {
  }

  lemma WalkPrototype(T: seq<BtfType>, st: seq<State>, log: seq<nat>, id: nat, ptr: bool, f: nat)
    requires Graph(T) && |st| == |T| && id < |T| && st[id] == NotOrdered && T[id].info.kind == KFuncProto
    ensures Walk(T, st, log, id, ptr, f + 1) == WalkAll(T, st, log, id, |Refs(T[id])|, ptr, f)
  {
  }

  lemma WalkComposite(T: seq<BtfType>, st: seq<State>, log: seq<nat>, id: nat, ptr: bool, f: nat)
    requires Graph(T) && |st| == |T| && id < |T| && st[id] == NotOrdered && IsComposite(T[id].info.kind)
    requires !(ptr && T[id].name != 0)
    ensures Walk(T, st, log, id, ptr, f + 1) ==
            CloseComposite(T[id], id, WalkAll(T, st[id := Ordering], log, id, |Refs(T[id])|, false, f))
  {
  }

  lemma JoinEnded(r: int, y: Res)
    ensures Join(r, Ended(y)) == Ended(if y.r < 0 then y else Res(if r == 1 || y.r == 1 then 1 else 0, y.st, y.log))
  {
  }

  /** One more reference walked. */
  lemma WalkNext(T: seq<BtfType>, st: seq<State>, log: seq<nat>, id: nat, k: nat, ptr: bool, f: nat, x: Res, f': nat,
                 y: Res)
    requires Graph(T) && |st| == |T| == |x.st| && id < |T| && k < |Refs(T[id])| && Refs(T[id])[k] < |T|
    requires WalkAll(T, st, log, id, k, ptr, f) == Ended(x) && x.r >= 0
    requires Walk(T, x.st, x.log, Refs(T[id])[k], ptr, f') == Ended(y)
    ensures WalkAll(T, st, log, id, k + 1, ptr, f + f') ==
            Ended(if y.r < 0 then y else Res(if x.r == 1 || y.r == 1 then 1 else 0, y.st, y.log))
  {
    JoinEnded(x.r, y);
    hide *;
    RefCount(T, id);
    UnfoldAll(T, st, log, id, k + 1, ptr, f + f');
    WalkAllMore(T, st, log, id, k, ptr, f, f + f');
    WalkMore(T, x.st, x.log, Refs(T[id])[k], ptr, f', f + f');
  }

  // ---------------------------------------------------------------- a typedef while its target is walked

  /** While composite e is open, the passing types in C all lead to e. */
  ghost predicate Locked(T: seq<BtfType>, st: seq<State>, C: set<nat>, e: nat)
    requires Graph(T)
  {
    && |st| == |T| && e < |T| && IsComposite(T[e].info.kind) && st[e] == Ordering
    && forall c :: c in C ==>
         && c < |T| && Passing(T[c].info.kind) && st[c] == NotOrdered && |Refs(T[c])| > 0
         && (Refs(T[c])[0] in C || Refs(T[c])[0] == e) && (T[c].info.kind == KPtr ==> Anonymous(T[e]))
  }

  /** A visit to one of them that does not fail is weak and changes nothing. */
  lemma {:induction false} LockedVisit(T: seq<BtfType>, st: seq<State>, log: seq<nat>, C: set<nat>, e: nat,
                                       id: nat, ptr: bool, f: nat)
    requires Graph(T) && Locked(T, st, C, e) && |st| == |T| && id < |T| && (id in C || id == e)
    requires Walk(T, st, log, id, ptr, f).Ended? && Walk(T, st, log, id, ptr, f).res.r >= 0
    ensures Walk(T, st, log, id, ptr, f) == Ended(Res(0, st, log)) && ptr && !Anonymous(T[e])
    decreases f
  {
    hide Graph, Refs, Walk, WalkAll;
    WalkStart(T, st, log, id, ptr, f);
    RefCount(T, id);
    WalkKnown(T, st, log, id, ptr, f);
    if id != e {
      WalkReference(T, st, log, id, ptr, f - 1);
      LockedVisit(T, st, log, C, e, Refs(T[id])[0], ptr || T[id].info.kind == KPtr, f - 1);
    }
  }

  /** Whatever else is walked leaves them as they are. */
  lemma {:induction false} LockedKept(T: seq<BtfType>, st: seq<State>, log: seq<nat>, C: set<nat>, e: nat,
                                      id: nat, ptr: bool, f: nat)
    requires Graph(T) && Locked(T, st, C, e) && |st| == |T| && id < |T|
    requires Walk(T, st, log, id, ptr, f).Ended? && Walk(T, st, log, id, ptr, f).res.r >= 0
    ensures Locked(T, Walk(T, st, log, id, ptr, f).res.st, C, e)
    decreases f, 0, 0
  {
    hide Graph, Refs, Walk, WalkAll, RefKind, Locked;
    WalkStart(T, st, log, id, ptr, f);
    RefCount(T, id);
    WalkKnown(T, st, log, id, ptr, f);
    var t := T[id];
    var k := t.info.kind;
    if id in C || id == e {
      LockedVisit(T, st, log, C, e, id, ptr, f);
    } else if st[id] == NotOrdered {
      if IsComposite(k) {
        if !(ptr && t.name != 0) {
          WalkComposite(T, st, log, id, ptr, f - 1);
          LockedMark(T, st, C, e, id, Ordering);
          LockedAll(T, st[id := Ordering], log, C, e, id, |Refs(t)|, false, f - 1);
          LockedMark(T, WalkAll(T, st[id := Ordering], log, id, |Refs(t)|, false, f - 1).res.st, C, e, id, Ordered);
        }
      } else if k == KFuncProto {
        WalkPrototype(T, st, log, id, ptr, f - 1);
        LockedAll(T, st, log, C, e, id, |Refs(t)|, ptr, f - 1);
      } else if RefKind(k) && k != KFunc {
        WalkReference(T, st, log, id, ptr, f - 1);
        LockedKept(T, st, log, C, e, Refs(t)[0], ptr || k == KPtr, f - 1);
        LockedMark(T, Walk(T, st, log, Refs(t)[0], ptr || k == KPtr, f - 1).res.st, C, e, id, Ordered);
      } else {
        WalkLeaf(T, st, log, id, ptr, f);
        LockedMark(T, st, C, e, id, Ordered);
      }
    }
  }

  lemma LockedMark(T: seq<BtfType>, st: seq<State>, C: set<nat>, e: nat, id: nat, x: State)
    requires Graph(T) && Locked(T, st, C, e) && id < |st| && id !in C && id != e
    ensures Locked(T, st[id := x], C, e)
  {
  }

  lemma {:induction false} LockedAll(T: seq<BtfType>, st: seq<State>, log: seq<nat>, C: set<nat>, e: nat,
                                     id: nat, k: nat, ptr: bool, f: nat)
    requires Graph(T) && Locked(T, st, C, e) && |st| == |T| && id < |T| && k <= |Refs(T[id])|
    requires WalkAll(T, st, log, id, k, ptr, f).Ended? && WalkAll(T, st, log, id, k, ptr, f).res.r >= 0
    ensures Locked(T, WalkAll(T, st, log, id, k, ptr, f).res.st, C, e)
    decreases f, 1, k
  {
    hide Graph, Refs, Walk, WalkAll, Locked;
    RefCount(T, id);
    if k == 0 {
      WalkNone(T, st, log, id, ptr, f);
    } else {
      UnfoldAll(T, st, log, id, k, ptr, f);
      LockedAll(T, st, log, C, e, id, k - 1, ptr, f);
      var x := WalkAll(T, st, log, id, k - 1, ptr, f).res;
      LockedSize(T, x.st, C, e);
      LockedKept(T, x.st, x.log, C, e, Refs(T[id])[k - 1], ptr, f);
    }
  }

  lemma LockedSize(T: seq<BtfType>, st: seq<State>, C: set<nat>, e: nat)
    requires Graph(T) && Locked(T, st, C, e)
    ensures |st| == |T|
  {
  }

  /** The passing types in C have been entered on the way to type id. */
  ghost predicate Entered(g: Source, st: seq<State>, C: set<nat>, id: nat, ptr: bool)
    requires SourceOk(g) && id < |g.types|
  {
    |st| == |g.types|
    && forall c :: c in C ==>
         && c < |st| && Passing(g.types[c].info.kind) && st[c] == NotOrdered && |Refs(g.types[c])| > 0
         && (Refs(g.types[c])[0] in C || Refs(g.types[c])[0] == id) && (g.types[c].info.kind == KPtr ==> ptr)
         && Height(g, c) > Height(g, id)
  }

  lemma EnterNext(g: Source, st: seq<State>, C: set<nat>, id: nat, ptr: bool)
    requires SourceOk(g) && id < |g.types| && Entered(g, st, C, id, ptr) && Passing(g.types[id].info.kind)
    requires st[id] == NotOrdered
    ensures |Refs(g.types[id])| > 0 && Refs(g.types[id])[0] < |g.types| && id !in C
    ensures Entered(g, st, C + {id}, Refs(g.types[id])[0], ptr || g.types[id].info.kind == KPtr)
  {
    PassingRef(g, id);
    hide Graph, Layered, Refs, Height, RefKind;
  }

  lemma PassingRef(g: Source, i: nat)
    requires SourceOk(g) && i < |g.types| && Passing(g.types[i].info.kind)
    ensures |Refs(g.types[i])| > 0 && Refs(g.types[i])[0] < |g.types| && Height(g, Refs(g.types[i])[0]) < Height(g, i)
  {
    RefCount(g.types, i);
    HeightDrops(g, i, 0);
  }

  lemma EnteredLocked(g: Source, st: seq<State>, C: set<nat>, id: nat, ptr: bool)
    requires SourceOk(g) && id < |g.types| && Entered(g, st, C, id, ptr) && IsComposite(g.types[id].info.kind)
    requires !(ptr && g.types[id].name != 0)
    ensures Locked(g.types, st[id := Ordering], C, id)
  {
  }

  /** Walking on from id, none of them is completed from inside, unless a prototype comes next. */
  lemma {:induction false} EnteredKept(g: Source, st: seq<State>, log: seq<nat>, C: set<nat>, id: nat, ptr: bool,
                                       f: nat)
    requires SourceOk(g) && id < |g.types| && Straight(g, id) && Entered(g, st, C, id, ptr) && |st| == |g.types|
    requires Walk(g.types, st, log, id, ptr, f).Ended? && Walk(g.types, st, log, id, ptr, f).res.r >= 0
    ensures forall c :: c in C ==> c < |st| && Walk(g.types, st, log, id, ptr, f).res.st[c] == NotOrdered
    decreases f
  {
    hide Graph, Layered, Refs, Walk, WalkAll, Straight, Height, RefKind;
    var T, t := g.types, g.types[id];
    var k := t.info.kind;
    WalkStart(T, st, log, id, ptr, f);
    StraightNext(g, id);
    RefCount(T, id);
    WalkKnown(T, st, log, id, ptr, f);
    if st[id] == NotOrdered {
      if IsComposite(k) {
        if !(ptr && t.name != 0) {
          WalkComposite(T, st, log, id, ptr, f - 1);
          EnteredLocked(g, st, C, id, ptr);
          LockedAll(T, st[id := Ordering], log, C, id, id, |Refs(t)|, false, f - 1);
        }
      } else if Passing(k) {
        WalkReference(T, st, log, id, ptr, f - 1);
        EnterNext(g, st, C, id, ptr);
        EnteredKept(g, st, log, C + {id}, Refs(t)[0], ptr || k == KPtr, f - 1);
      } else {
        WalkLeaf(T, st, log, id, ptr, f);
      }
    }
  }

  lemma StraightNext(g: Source, i: nat)
    requires SourceOk(g) && i < |g.types| && Straight(g, i)
    ensures g.types[i].info.kind != KFuncProto
    ensures RefKind(g.types[i].info.kind) && g.types[i].info.kind != KFunc <==> Passing(g.types[i].info.kind)
    ensures Passing(g.types[i].info.kind) ==>
              |Refs(g.types[i])| > 0 && Refs(g.types[i])[0] < |g.types| && Straight(g, Refs(g.types[i])[0])
  {
    RefCount(g.types, i);
  }

  /** So a typedef that leads straight to a definition is still open when its target has been walked. */
  lemma TypedefStillOpen(g: Source, st: seq<State>, log: seq<nat>, i: nat, ptr: bool, f: nat)
    requires SourceOk(g) && i < |g.types| == |st| && g.types[i].info.kind == KTypedef && st[i] == NotOrdered
    requires Straight(g, i) && |Refs(g.types[i])| > 0 && Refs(g.types[i])[0] < |g.types|
    requires Walk(g.types, st, log, Refs(g.types[i])[0], ptr, f).Ended?
    requires Walk(g.types, st, log, Refs(g.types[i])[0], ptr, f).res.r >= 0
    ensures Walk(g.types, st, log, Refs(g.types[i])[0], ptr, f).res.st[i] == NotOrdered
  {
    hide Walk, WalkAll;
    EnterNext(g, st, {}, i, ptr);
    EnteredKept(g, st, log, {i}, Refs(g.types[i])[0], ptr, f);
  }

  // ---------------------------------------------------------------- the dumper

  class Dump {
    const types: seq<BtfType>
    var states: seq<State>
    var queue: seq<nat>
    ghost const depth: seq<nat>
    /** Everything queued so far, in this call and earlier ones. */
    ghost var log: seq<nat>
    ghost var done: map<nat, nat>

    ghost function G(): Source { Source(types, depth) }

    ghost function Now(): Snap
      reads this
    {
      Snap(states, queue, log, done)
    }

    ghost predicate Valid()
      reads this
    {
      SourceOk(G()) && Sound(G(), states, log, done)
    }

    /** As left by successful calls. */
    ghost predicate Orderly()
      reads this
    {
      SourceOk(G()) && Inv(G(), states, log, done)
    }

    constructor (types: seq<BtfType>, ghost depth: seq<nat>)
      requires Graph(types) && Layered(types, depth)
      ensures Valid() && Orderly() && this.types == types && this.depth == depth && log == [] && queue == []
      ensures |states| == |types|
      ensures forall i :: 0 <= i < |states| ==> states[i] == if i == 0 then Ordered else NotOrdered
    {
      this.types, this.depth := types, depth;
      states := seq(|types|, i => if i == 0 then Ordered else NotOrdered);
      queue, log, done := [], [], map[];
    }

    /** btf_dump_order_type: 1 for a strong link, 0 for a weak one, negative for an unsatisfiable cycle. */
    method OrderType(id: nat, ptr: bool, ghost lf: seq<nat>, ghost lt: seq<nat>, ghost S: set<nat>)
      returns (r: int, ghost f: nat)
      requires Valid() && id < |types| && ClosedSet(G(), S) && id in S
      modifies this`states, this`queue, this`log, this`done
      ensures Valid() && (r == 0 || r == 1 || r == ELOOP)
      ensures r >= 0 ==> Stepped(old(Now()), Now()) && Within(S, old(Now()), Now())
      ensures r >= 0 && old(Orderly()) ==> Orderly() && Ready(G(), log, done, id, true)
      ensures old(Orderly()) && (r == 1 || (r == 0 && !ptr)) ==> Ready(G(), log, done, id, false)
      ensures Safe(G(), old(states), lf, lt, id, ptr) ==> r >= 0
      ensures Walk(types, old(states), old(log), id, ptr, f) == Ended(Res(r, states, log))
      decreases Fresh(G(), states), 0, Height(G(), id), 2
    {
      hide Ready, Graph, Layered, Orderable, Refs, Within, ClosedSet, Once, WalkAll, Walk, Inv;
      SteppedSelf(Now());
      WithinSelf(S, Now());
      f := 1;
      WalkKnown(types, states, log, id, ptr, 1);
      if states[id] == Ordered {
        OrderedReady(G(), states, log, done, id);
        return 1, f;
      }
      var t := types[id];
      if states[id] == Ordering {
        if IsComposite(t.info.kind) && ptr && t.name != 0 {
          ReadyForwarded(G(), log, done, id);
          return 0, f;
        }
        BusyItself(G(), states, lf, lt, id, ptr);
        return ELOOP, f;
      }
      if RefKind(t.info.kind) && t.info.kind != KFunc {
        r, f := OrderReference(id, ptr, lf, lt, S);
      } else if IsComposite(t.info.kind) {
        r, f := OrderComposite(id, ptr, lf, lt, S);
      } else {
        r, f := OrderLeaf(id, S);
      }
    }

    /** INT, FUNC, VAR, DATASEC, ENUM and FWD. */
    method OrderLeaf(id: nat, ghost S: set<nat>) returns (r: int, ghost f: nat)
      requires Valid() && id < |types| && states[id] == NotOrdered && id in S
      requires !IsComposite(types[id].info.kind) && (RefKind(types[id].info.kind) ==> types[id].info.kind == KFunc)
      modifies this`states, this`queue, this`log
      ensures Valid() && (r == 0 || r == 1)
      ensures Stepped(old(Now()), Now()) && Within(S, old(Now()), Now())
      ensures old(Orderly()) ==> Orderly() && Ready(G(), log, done, id, false) && Ready(G(), log, done, id, true)
      ensures forall ptr :: Walk(types, old(states), old(log), id, ptr, f) == Ended(Res(r, states, log))
    {
      hide Ready, Graph, Layered, Refs, Within, Once, WalkAll, Walk, Inv, RefKind, Sound, Stepped;
      SoundSize(G(), states, log, done);
      r, f := if Single(types[id].info.kind) then 1 else 0, 1;
      WalkLeaf(types, states, log, id, true, 1);
      WalkLeaf(types, states, log, id, false, 1);
      FinishLeaf(G(), Now(), id);
      if Single(types[id].info.kind) && types[id].name != 0 {
        queue, log := queue + [id], log + [id];
      }
      states := states[id := Ordered];
      WithinSelf(S, old(Now()));
      WithinPush(S, old(Now()), old(Now()), Now(), id, Ordered);
    }

    /** Pointers, arrays, typedefs, modifiers and function prototypes. */
    method OrderReference(id: nat, ptr: bool, ghost lf: seq<nat>, ghost lt: seq<nat>, ghost S: set<nat>)
      returns (r: int, ghost f: nat)
      requires Valid() && id < |types| && RefKind(types[id].info.kind) && types[id].info.kind != KFunc
      requires states[id] == NotOrdered && ClosedSet(G(), S) && id in S
      modifies this`states, this`queue, this`log, this`done
      ensures Valid() && (r == 0 || r == 1 || r == ELOOP)
      ensures r >= 0 ==> Stepped(old(Now()), Now()) && Within(S, old(Now()), Now())
      ensures r >= 0 && old(Orderly()) ==> Orderly() && Ready(G(), log, done, id, true)
      ensures old(Orderly()) && (r == 1 || (r == 0 && !ptr)) ==> Ready(G(), log, done, id, false)
      ensures Safe(G(), old(states), lf, lt, id, ptr) ==> r >= 0
      ensures Walk(types, old(states), old(log), id, ptr, f) == Ended(Res(r, states, log))
      decreases Fresh(G(), states), 0, Height(G(), id), 1
    {
      hide Ready, Graph, Layered, Orderable, Inv, Sound, Refs, Within, ClosedSet, Once, OffCycle, Straight, WalkAll,
           Walk, Safe, Fresh, RefKind, Height;
      SoundSize(G(), states, log, done);
      if types[id].info.kind == KFuncProto {
        r, f := OrderPrototype(id, ptr, lf, lt, S);
        return;
      }
      RefCount(types, id);
      HeightDrops(G(), id, 0);
      MovedSelf(states);
      SafeKid(G(), states, states, lf, lt, id, ptr, 0);
      BeneathFacts(G(), S, id);
      ghost var a := Now();
      r, f := OrderType(Refs(types[id])[0], ptr || types[id].info.kind == KPtr, lf, lt, Beneath(G(), S, id));
      WalkReference(types, a.st, a.log, id, ptr, f);
      SoundSize(G(), states, log, done);
      ghost var b := Now();
      if types[id].info.kind == KPtr {
        MarkOrdered(G(), states, log, done, id);
        states := states[id := Ordered];
        f := f + 1;
        if r >= 0 {
          FinishPointer(G(), a, b, id);
          WithinMore(Beneath(G(), S, id), S, a, b);
          WithinPush(S, a, b, Now(), id, Ordered);
        }
        return;
      }
      if r < 0 {
        f := f + 1;
        return;
      }
      WithinMore(Beneath(G(), S, id), S, a, b);
      ReadyThrough(G(), log, done, id);
      if types[id].info.kind == KTypedef {
        if ptr && r == 0 {
          f := f + 1;
          return;
        }
        NotYetQueued(G(), S, a, b, id, ptr, f, r);
        FinishTypedef(G(), a, b, id);
        queue, log := queue + [id], log + [id];
        states := states[id := Ordered];
        WithinPush(S, a, b, Now(), id, Ordered);
        r := 1;
      }
      f := f + 1;
    }

    method OrderPrototype(id: nat, ptr: bool, ghost lf: seq<nat>, ghost lt: seq<nat>, ghost S: set<nat>)
      returns (r: int, ghost f: nat)
      requires Valid() && id < |types| && types[id].info.kind == KFuncProto && states[id] == NotOrdered
      requires ClosedSet(G(), S) && id in S
      modifies this`states, this`queue, this`log, this`done
      ensures Valid() && (r == 0 || r == 1 || r == ELOOP)
      ensures r >= 0 ==> Stepped(old(Now()), Now()) && Within(S, old(Now()), Now())
      ensures r >= 0 && old(Orderly()) ==> Orderly() && Ready(G(), log, done, id, true)
      ensures old(Orderly()) && (r == 1 || (r == 0 && !ptr)) ==> Ready(G(), log, done, id, false)
      ensures Safe(G(), old(states), lf, lt, id, ptr) ==> r >= 0
      ensures Walk(types, old(states), old(log), id, ptr, f) == Ended(Res(r, states, log))
      decreases Fresh(G(), states), 0, Height(G(), id), 0
    {
      hide Ready, Inv, Sound, Graph, Layered, Orderable, Refs, Within, ClosedSet, Once, WalkAll, Walk, Safe, Height,
           Stepped, Fresh, KidsReady, Moved, Grown, WellFormed, Forwardable, RefKind;
      SoundSize(G(), states, log, done);
      SteppedSelf(Now());
      PrototypeRefers(types[id].info.kind);
      RefCount(types, id);
      var strong := false;
      f := 0;
      WalkNone(types, states, log, id, ptr, f);
      WithinSelf(S, Now());
      KidsNone(G(), log, done, id, true);
      for k := 0 to |Refs(types[id])|
        invariant Valid() && Stepped(old(Now()), Now()) && Fresh(G(), states) <= Fresh(G(), old(states))
        invariant old(Orderly()) ==> Orderly() && KidsReady(G(), log, done, id, k, true)
        invariant Within(S, old(Now()), Now())
        invariant WalkAll(types, old(states), old(log), id, k, ptr, f) ==
                    Ended(Res(if strong then 1 else 0, states, log))
      {
        ghost var before := Now();
        HeightDrops(G(), id, k);
        SoundSize(G(), states, log, done);
        SteppedMoved(old(Now()), before);
        SafeKid(G(), old(states), states, lf, lt, id, ptr, k);
        ClosedKid(G(), S, id, k);
        ghost var f';
        assert Fresh(G(), states) == Fresh(G(), old(states)) || Fresh(G(), states) < Fresh(G(), old(states));
        r, f' := OrderType(Refs(types[id])[k], ptr, lf, lt, S);
        WalkNext(types, old(states), old(log), id, k, ptr, f, Res(if strong then 1 else 0, before.st, before.log),
                 f', Res(r, states, log));
        f := f + f';
        if r < 0 {
          WalkFails(types, old(states), old(log), id, k + 1, ptr, f);
          WalkPrototype(types, old(states), old(log), id, ptr, f);
          f := f + 1;
          return;
        }
        strong := strong || r == 1;
        KidDone(G(), S, old(Now()), before, Now(), id, k, true);
      }
      ReadyPrototype(G(), log, done, id);
      WalkPrototype(types, old(states), old(log), id, ptr, f);
      r, f := if strong then 1 else 0, f + 1;
    }

    method OrderComposite(id: nat, ptr: bool, ghost lf: seq<nat>, ghost lt: seq<nat>, ghost S: set<nat>)
      returns (r: int, ghost f: nat)
      requires Valid() && id < |types| && IsComposite(types[id].info.kind) && states[id] == NotOrdered
      requires ClosedSet(G(), S) && id in S
      modifies this`states, this`queue, this`log, this`done
      ensures Valid() && (r == 0 || r == 1 || r == ELOOP)
      ensures r >= 0 ==> Stepped(old(Now()), Now()) && Within(S, old(Now()), Now())
      ensures r >= 0 && old(Orderly()) ==> Orderly() && Ready(G(), log, done, id, true)
      ensures old(Orderly()) && (r == 1 || (r == 0 && !ptr)) ==> Ready(G(), log, done, id, false)
      ensures Safe(G(), old(states), lf, lt, id, ptr) ==> r >= 0
      ensures Walk(types, old(states), old(log), id, ptr, f) == Ended(Res(r, states, log))
      decreases Fresh(G(), states), 0, Height(G(), id), 1
    {
      hide Ready, Graph, Layered, Orderable, Inv, Sound, Refs, Within, ClosedSet, Once, WalkAll, Walk, Safe, KidsReady;
      SoundSize(G(), states, log, done);
      SteppedSelf(Now());
      WithinSelf(S, Now());
      WalkKnown(types, states, log, id, ptr, 1);
      if ptr && types[id].name != 0 {
        ReadyForwarded(G(), log, done, id);
        return 0, 1;
      }
      StartComposite(G(), states, log, done, id);
      FreshShrinks(G(), states, id);
      states := states[id := Ordering];
      r, f := OrderMembers(id, ptr, lf, lt, old(states), S);
      WalkComposite(types, old(states), old(log), id, ptr, f);
      f := f + 1;
      if r < 0 {
        return;
      }
      ghost var before := Now();
      SoundSize(G(), states, log, done);
      WithinEntered(S, old(Now()), before, id);
      if types[id].name != 0 {
        queue, log := queue + [id], log + [id];
      } else {
        done := done[id := |log|];
      }
      states := states[id := Ordered];
      r := 1;
      WithinPush(S, old(Now()), before, Now(), id, Ordered);
      FinishComposite(G(), old(Now()), before, Now(), id);
    }

    /** btf_dump__dump_type, up to the emission of the queue.  A failed call may leave composites open
        and pointers marked, and the next call starts from there. */
    method DumpType(id: nat, ghost lf: seq<nat>, ghost lt: seq<nat>) returns (err: int, ghost f: nat)
      requires Valid()
      modifies this`states, this`queue, this`log, this`done
      ensures Valid() && (err == 0 || err == ELOOP || err == EINVAL)
      ensures err == EINVAL <==> id >= |types|
      ensures id < |types| ==>
                var x := Walk(types, old(states), old(log), id, false, f);
                x.Ended? && x.res.st == states && x.res.log == log && err == if x.res.r < 0 then x.res.r else 0
      ensures err == 0 ==> log == old(log) + queue && Moved(old(states), states)
      ensures err == 0 && old(Orderly()) ==> Orderly() && Ready(G(), log, done, id, false)
      ensures Orderable(G(), lf, lt) && old(Idle(states)) && id < |types| ==> err == 0
    {
      hide Ready, Inv, Sound, Orderable, Within, ClosedSet, Walk, Graph, Layered;
      f := 0;
      if id >= |types| {
        return EINVAL, f;
      }
      SoundSize(G(), states, log, done);
      queue := [];
      ghost var before := Now();
      IdleSafe(G(), states, lf, lt, id);
      AllClosed(G(), id);
      err, f := OrderType(id, false, lf, lt, AllIds(G()));
      if err >= 0 {
        err := 0;
        assert log == log[..|before.log|] + log[|before.log|..];
      }
    }

    /** The loop over the members of a composite that has just been entered. */
    method OrderMembers(id: nat, ptr: bool, ghost lf: seq<nat>, ghost lt: seq<nat>, ghost entry: seq<State>,
                        ghost S: set<nat>)
      returns (r: int, ghost f: nat)
      requires Valid() && id < |types| == |entry| && IsComposite(types[id].info.kind) && !Forwardable(types[id], ptr)
      requires states == entry[id := Ordering] && ClosedSet(G(), S) && id in S
      modifies this`states, this`queue, this`log, this`done
      ensures Valid() && (r == 0 || r == ELOOP)
      ensures r >= 0 ==> Stepped(old(Now()), Now()) && Within(S, old(Now()), Now())
      ensures r >= 0 && old(Orderly()) ==> Orderly() && KidsReady(G(), log, done, id, |Refs(types[id])|, false)
      ensures Safe(G(), entry, lf, lt, id, ptr) ==> r >= 0
      ensures var x := WalkAll(types, old(states), old(log), id, |Refs(types[id])|, false, f);
              x.Ended? && x.res.st == states && x.res.log == log && (if r < 0 then x.res.r == r else x.res.r >= 0)
      decreases Fresh(G(), states), 1, 0, 0
    {
      hide Ready, Inv, Sound, Graph, Layered, Orderable, Refs, Within, ClosedSet, Once, WalkAll, Walk, Safe, Height,
           Stepped, Fresh, KidsReady, Moved, Grown, WellFormed;
      SoundSize(G(), states, log, done);
      SteppedSelf(Now());
      RefCount(types, id);
      WithinSelf(S, Now());
      KidsNone(G(), log, done, id, false);
      f := 0;
      ghost var strong := 0;
      WalkNone(types, states, log, id, false, f);
      for k := 0 to |Refs(types[id])|
        invariant Valid() && Stepped(old(Now()), Now()) && Fresh(G(), states) <= Fresh(G(), old(states))
        invariant old(Orderly()) ==> Orderly() && KidsReady(G(), log, done, id, k, false)
        invariant Within(S, old(Now()), Now())
        invariant WalkAll(types, old(states), old(log), id, k, false, f) == Ended(Res(strong, states, log))
        invariant strong >= 0
      {
        ghost var before := Now();
        SoundSize(G(), states, log, done);
        SteppedMoved(old(Now()), before);
        SafeMember(G(), entry, states, lf, lt, id, ptr, k);
        ClosedKid(G(), S, id, k);
        ghost var f';
        r, f' := OrderType(Refs(types[id])[k], false, lf, lt, S);
        WalkNext(types, old(states), old(log), id, k, false, f, Res(strong, before.st, before.log), f',
                 Res(r, states, log));
        f := f + f';
        if r < 0 {
          WalkFails(types, old(states), old(log), id, k + 1, false, f);
          return;
        }
        strong := if strong == 1 || r == 1 then 1 else 0;
        KidDone(G(), S, old(Now()), before, Now(), id, k, false);
      }
      r := 0;
    }
  }

  /** The first k references are ready. */
  ghost predicate KidsReady(g: Source, q: seq<nat>, done: map<nat, nat>, i: nat, k: nat, ptr: bool)
    requires SourceOk(g) && i < |g.types|
  {
    k <= |Refs(g.types[i])|
    && forall j :: 0 <= j < k ==> Refs(g.types[i])[j] < |g.types| && Ready(g, q, done, Refs(g.types[i])[j], ptr)
  }

  lemma KidsGrow(g: Source, q: seq<nat>, done: map<nat, nat>, q': seq<nat>, done': map<nat, nat>, i: nat, k: nat,
                 ptr: bool)
    requires SourceOk(g) && i < |g.types| && Grown(q, done, q', done') && KidsReady(g, q, done, i, k, ptr)
    requires k < |Refs(g.types[i])| && Refs(g.types[i])[k] < |g.types| && Ready(g, q', done', Refs(g.types[i])[k], ptr)
    ensures KidsReady(g, q', done', i, k + 1, ptr)
  {
    hide Ready, Refs;
    forall j | 0 <= j < k
      ensures Ready(g, q', done', Refs(g.types[i])[j], ptr)
    {
      ReadyGrows(g, q, done, q', done', Refs(g.types[i])[j], ptr);
    }
  }

  lemma PrototypeRefers(k: Kind)
    ensures k == KFuncProto ==> RefKind(k)
  {
  }

  lemma KidsNone(g: Source, q: seq<nat>, done: map<nat, nat>, i: nat, ptr: bool)
    requires SourceOk(g) && i < |g.types|
    ensures KidsReady(g, q, done, i, 0, ptr)
  {
  }

  lemma SoundSize(g: Source, st: seq<State>, q: seq<nat>, done: map<nat, nat>)
    requires SourceOk(g) && Sound(g, st, q, done)
    ensures |st| == |g.types|
  {
  }

  lemma RefCount(T: seq<BtfType>, i: nat)
    requires Graph(T) && i < |T|
    ensures WellFormed(T[i]) && (RefKind(T[i].info.kind) ==> |Refs(T[i])| > 0)
    ensures forall k :: 0 <= k < |Refs(T[i])| ==> Refs(T[i])[k] < |T|
  {
  }

  lemma ReadyPrototype(g: Source, q: seq<nat>, done: map<nat, nat>, i: nat)
    requires SourceOk(g) && i < |g.types| && g.types[i].info.kind == KFuncProto
    ensures KidsReady(g, q, done, i, |Refs(g.types[i])|, true) ==>
              Ready(g, q, done, i, true) && Ready(g, q, done, i, false)
  {
  }

  /** Readiness of a pointer, typedef, array or modifier from that of its target. */
  lemma ReadyThrough(g: Source, q: seq<nat>, done: map<nat, nat>, i: nat)
    requires SourceOk(g) && i < |g.types| && RefKind(g.types[i].info.kind)
    requires g.types[i].info.kind != KFunc && g.types[i].info.kind != KFuncProto
    requires |Refs(g.types[i])| > 0 && Refs(g.types[i])[0] < |g.types|
    ensures Ready(g, q, done, Refs(g.types[i])[0], true) ==> Ready(g, q, done, i, true)
    ensures Ready(g, q, done, Refs(g.types[i])[0], true) && g.types[i].info.kind == KPtr ==> Ready(g, q, done, i, false)
    ensures Ready(g, q, done, Refs(g.types[i])[0], false) ==>
              if g.types[i].info.kind == KTypedef then PartsReady(g, q, done, i) else Ready(g, q, done, i, false)
  {
    if Ready(g, q, done, Refs(g.types[i])[0], false) {
      ReadyWeaker(g, q, done, Refs(g.types[i])[0]);
    }
  }

  lemma FreshShrinks(g: Source, st: seq<State>, i: nat)
    requires i < |st| == |g.types| && st[i] == NotOrdered && IsComposite(g.types[i].info.kind)
    ensures Fresh(g, st[i := Ordering]) < Fresh(g, st)
  {
    assert i in Fresh(g, st) && i !in Fresh(g, st[i := Ordering]);
  }

  /** The pointer is marked once its target has been walked. */
  lemma FinishPointer(g: Source, a: Snap, b: Snap, i: nat)
    requires SourceOk(g) && Sound(g, b.st, b.log, b.done) && Stepped(a, b) && i < |a.st| && a.st[i] == NotOrdered
    requires i < |g.types| && g.types[i].info.kind == KPtr && |Refs(g.types[i])| > 0 && Refs(g.types[i])[0] < |g.types|
    ensures Stepped(a, b.(st := b.st[i := Ordered]))
    ensures Inv(g, b.st, b.log, b.done) && Ready(g, b.log, b.done, Refs(g.types[i])[0], true) ==>
              Inv(g, b.st[i := Ordered], b.log, b.done)
              && Ready(g, b.log, b.done, i, false) && Ready(g, b.log, b.done, i, true)
  {
    hide Ready, Sound, Inv, Refs;
    SoundSize(g, b.st, b.log, b.done);
    ReadyThrough(g, b.log, b.done, i);
    MarkOrdered(g, b.st, b.log, b.done, i);
  }

  /** The typedef has not been queued from inside the walk of its target. */
  lemma NotYetQueued(g: Source, S: set<nat>, a: Snap, b: Snap, i: nat, ptr: bool, f: nat, r: int)
    requires SourceOk(g) && i < |g.types| == |a.st| && g.types[i].info.kind == KTypedef && a.st[i] == NotOrdered
    requires i in S
    requires |Refs(g.types[i])| > 0 && Refs(g.types[i])[0] < |g.types| && r >= 0
    requires Within(Beneath(g, S, i), a, b) && (OffCycle(g, i) ==> i !in Beneath(g, S, i))
    requires Walk(g.types, a.st, a.log, Refs(g.types[i])[0], ptr, f) == Ended(Res(r, b.st, b.log))
    ensures |b.st| == |a.st| && (Once(g, i) ==> b.st[i] == NotOrdered)
  {
    hide Walk, Refs, OffCycle, Straight, Beneath;
    if Straight(g, i) {
      TypedefStillOpen(g, a.st, a.log, i, ptr, f);
    }
  }

  lemma FinishTypedef(g: Source, a: Snap, b: Snap, i: nat)
    requires SourceOk(g) && Sound(g, b.st, b.log, b.done) && Stepped(a, b) && i < |a.st| && a.st[i] == NotOrdered
    requires i < |g.types| && g.types[i].info.kind == KTypedef && (Once(g, i) ==> b.st[i] == NotOrdered)
    ensures Stepped(a, Snap(b.st[i := Ordered], b.queue + [i], b.log + [i], b.done))
    ensures Sound(g, b.st[i := Ordered], b.log + [i], b.done)
    ensures Inv(g, b.st, b.log, b.done) && PartsReady(g, b.log, b.done, i) ==>
              Inv(g, b.st[i := Ordered], b.log + [i], b.done)
              && Ready(g, b.log + [i], b.done, i, false) && Ready(g, b.log + [i], b.done, i, true)
  {
    hide Ready, PartsReady, Inv, Sound, Once;
    SoundSize(g, b.st, b.log, b.done);
    PushSound(g, b.st, b.log, b.done, i);
    assert (b.log + [i])[|a.log|..] == b.log[|a.log|..] + [i];
    if Inv(g, b.st, b.log, b.done) && PartsReady(g, b.log, b.done, i) {
      PushDefinition(g, b.st, b.log, b.done, i);
      OrderedReady(g, b.st[i := Ordered], b.log + [i], b.done, i);
    }
  }

  lemma LeafReady(g: Source, q: seq<nat>, done: map<nat, nat>, i: nat)
    requires SourceOk(g) && i < |g.types| && !IsComposite(g.types[i].info.kind)
    requires RefKind(g.types[i].info.kind) ==> g.types[i].info.kind == KFunc
    requires !(Single(g.types[i].info.kind) && g.types[i].name != 0)
    ensures Ready(g, q, done, i, false)
  {
  }

  lemma FinishLeaf(g: Source, a: Snap, i: nat)
    requires SourceOk(g) && Sound(g, a.st, a.log, a.done) && i < |a.st| && a.st[i] == NotOrdered && i < |g.types|
    requires !IsComposite(g.types[i].info.kind) && (RefKind(g.types[i].info.kind) ==> g.types[i].info.kind == KFunc)
    ensures var c := if Single(g.types[i].info.kind) && g.types[i].name != 0
                     then Snap(a.st[i := Ordered], a.queue + [i], a.log + [i], a.done)
                     else a.(st := a.st[i := Ordered]);
            Stepped(a, c) && Sound(g, c.st, c.log, c.done)
            && (Inv(g, a.st, a.log, a.done) ==>
                  Inv(g, c.st, c.log, c.done) && Ready(g, c.log, c.done, i, false) && Ready(g, c.log, c.done, i, true))
  {
    hide Ready, PartsReady, Inv, Sound, Once, RefKind;
    SoundSize(g, a.st, a.log, a.done);
    if Single(g.types[i].info.kind) && g.types[i].name != 0 {
      PushSound(g, a.st, a.log, a.done, i);
      if Inv(g, a.st, a.log, a.done) {
        PushDefinition(g, a.st, a.log, a.done, i);
        OrderedReady(g, a.st[i := Ordered], a.log + [i], a.done, i);
      }
    } else {
      LeafReady(g, a.log, a.done, i);
      ReadyWeaker(g, a.log, a.done, i);
      MarkOrdered(g, a.st, a.log, a.done, i);
    }
  }

  /** Leaving a composite: `b` is the state after its members, `c` the final one. */
  lemma FinishComposite(g: Source, a: Snap, b: Snap, c: Snap, i: nat)
    requires SourceOk(g) && i < |a.st| == |g.types| && IsComposite(g.types[i].info.kind) && a.st[i] == NotOrdered
    requires Sound(g, b.st, b.log, b.done) && Stepped(a.(st := a.st[i := Ordering]), b)
    requires c == if Anonymous(g.types[i])
                  then Snap(b.st[i := Ordered], b.queue, b.log, b.done[i := |b.log|])
                  else Snap(b.st[i := Ordered], b.queue + [i], b.log + [i], b.done)
    ensures Stepped(a, c) && Sound(g, c.st, c.log, c.done)
    ensures Inv(g, b.st, b.log, b.done) && KidsReady(g, b.log, b.done, i, |Refs(g.types[i])|, false) ==>
              Inv(g, c.st, c.log, c.done) && Ready(g, c.log, c.done, i, false) && Ready(g, c.log, c.done, i, true)
  {
    hide Ready, Refs, Inv, Sound, PartsReady, KidsReady, Once;
    SoundSize(g, b.st, b.log, b.done);
    assert b.st[i] == Ordering;
    if Anonymous(g.types[i]) {
      CloseSound(g, b.st, b.log, b.done, i);
      NotDone(g, b.st, b.log, b.done, i);
    } else {
      PushSound(g, b.st, b.log, b.done, i);
      assert (b.log + [i])[|a.log|..] == b.log[|a.log|..] + [i];
    }
    if Inv(g, b.st, b.log, b.done) && KidsReady(g, b.log, b.done, i, |Refs(g.types[i])|, false) {
      KidsAreParts(g, b.log, b.done, i);
      if Anonymous(g.types[i]) {
        CloseAnonymous(g, b.st, b.log, b.done, i);
      } else {
        PushDefinition(g, b.st, b.log, b.done, i);
      }
      OrderedReady(g, c.st, c.log, c.done, i);
    }
  }

  lemma NotDone(g: Source, st: seq<State>, q: seq<nat>, done: map<nat, nat>, i: nat)
    requires SourceOk(g) && Sound(g, st, q, done) && i < |st| && st[i] != Ordered
    ensures i !in done
  {
  }

  lemma KidsAreParts(g: Source, q: seq<nat>, done: map<nat, nat>, i: nat)
    requires SourceOk(g) && i < |g.types| && KidsReady(g, q, done, i, |Refs(g.types[i])|, false)
    ensures PartsReady(g, q, done, i)
  {
  }

  lemma OrderedReady(g: Source, st: seq<State>, q: seq<nat>, done: map<nat, nat>, i: nat)
    requires SourceOk(g) && i < |st| == |g.types| && st[i] == Ordered
    ensures Inv(g, st, q, done) ==> Ready(g, q, done, i, false) && Ready(g, q, done, i, true)
  {
    hide Ready, Once;
    if Inv(g, st, q, done) {
      ReadyWeaker(g, q, done, i);
    }
  }

  datatype Snap = Snap(st: seq<State>, queue: seq<nat>, log: seq<nat>, done: map<nat, nat>)

  /** What a successful step changes. */
  ghost predicate Stepped(a: Snap, b: Snap) {
    && Grown(a.log, a.done, b.log, b.done) && Moved(a.st, b.st)
    && b.queue == a.queue + b.log[|a.log|..]
  }

  /** Only ids in S are queued or change their state. */
  ghost predicate Within(S: set<nat>, a: Snap, b: Snap) {
    && |a.st| == |b.st| && |a.log| <= |b.log|
    && (forall i :: 0 <= i < |a.st| && i !in S ==> b.st[i] == a.st[i])
    && (forall k :: |a.log| <= k < |b.log| ==> b.log[k] in S)
  }

  lemma WithinSelf(S: set<nat>, a: Snap)
    ensures Within(S, a, a)
  {
  }

  lemma WithinTrans(S: set<nat>, a: Snap, b: Snap, c: Snap)
    requires Within(S, a, b) && Within(S, b, c) && Stepped(a, b) && Stepped(b, c)
    ensures Within(S, a, c)
  {
    assert c.log[..|b.log|] == b.log;
    forall k | |a.log| <= k < |c.log|
      ensures c.log[k] in S
    {
      if k < |b.log| {
        assert c.log[k] == c.log[..|b.log|][k];
      }
    }
  }

  /** One more id of S is marked, and perhaps queued. */
  lemma WithinPush(S: set<nat>, a: Snap, b: Snap, c: Snap, i: nat, x: State)
    requires Within(S, a, b) && i in S && i < |b.st| && c.st == b.st[i := x] && (c.log == b.log || c.log == b.log + [i])
    ensures Within(S, a, c)
  {
  }

  lemma WithinEntered(S: set<nat>, a: Snap, b: Snap, i: nat)
    requires i in S && i < |a.st| && Within(S, a.(st := a.st[i := Ordering]), b)
    ensures Within(S, a, b)
  {
  }

  lemma WithinMore(S: set<nat>, S': set<nat>, a: Snap, b: Snap)
    requires S <= S' && Within(S, a, b)
    ensures Within(S', a, b)
  {
  }

  /** What the walk below type i stays within: without i itself if i is on no cycle. */
  ghost function Beneath(g: Source, S: set<nat>, i: nat): (r: set<nat>)
    requires SourceOk(g) && i < |g.types|
  {
    if OffCycle(g, i) then (var E :| Escapes(g, i, E); S * E) else S
  }

  lemma BeneathFacts(g: Source, S: set<nat>, i: nat)
    requires SourceOk(g) && i < |g.types| && ClosedSet(g, S) && i in S
    ensures ClosedSet(g, Beneath(g, S, i)) && Beneath(g, S, i) <= S
    ensures forall k :: 0 <= k < |Refs(g.types[i])| ==> Refs(g.types[i])[k] in Beneath(g, S, i)
    ensures OffCycle(g, i) ==> i !in Beneath(g, S, i)
  {
    hide Refs, SourceOk;
  }

  ghost function IdsBelow(n: nat): (S: set<nat>)
    ensures forall i: nat :: i in S <==> i < n
  {
    if n == 0 then {} else IdsBelow(n - 1) + {n - 1}
  }

  ghost function AllIds(g: Source): set<nat> { IdsBelow(|g.types|) }

  lemma AllClosed(g: Source, id: nat)
    requires SourceOk(g)
    ensures ClosedSet(g, AllIds(g)) && (id < |g.types| ==> id in AllIds(g))
  {
  }

  lemma ClosedKid(g: Source, S: set<nat>, i: nat, k: nat)
    requires SourceOk(g) && i < |g.types| && ClosedSet(g, S) && i in S && k < |Refs(g.types[i])|
    ensures Refs(g.types[i])[k] in S
  {
  }

  lemma MovedSelf(st: seq<State>)
    ensures Moved(st, st)
  {
  }

  lemma SteppedSelf(a: Snap)
    ensures Stepped(a, a)
  {
  }

  lemma SteppedTrans(g: Source, a: Snap, b: Snap, c: Snap)
    requires Stepped(a, b) && Stepped(b, c)
    ensures Stepped(a, c) && Fresh(g, c.st) <= Fresh(g, b.st)
  {
    assert b.log[|a.log|..] + c.log[|b.log|..] == c.log[|a.log|..];
  }

  lemma SteppedMoved(a: Snap, b: Snap)
    requires Stepped(a, b)
    ensures Moved(a.st, b.st)
  {
  }

  /** One more reference is walked: `a` is the state at the start, `b` and `c` before and after it. */
  lemma KidDone(g: Source, S: set<nat>, a: Snap, b: Snap, c: Snap, id: nat, k: nat, ptr: bool)
    requires SourceOk(g) && id < |g.types| && Within(S, a, b) && Within(S, b, c) && Stepped(a, b) && Stepped(b, c)
    requires k < |Refs(g.types[id])| && Refs(g.types[id])[k] < |g.types|
    ensures Within(S, a, c) && Stepped(a, c) && Fresh(g, c.st) <= Fresh(g, b.st)
    ensures KidsReady(g, b.log, b.done, id, k, ptr) && Ready(g, c.log, c.done, Refs(g.types[id])[k], ptr) ==>
              KidsReady(g, c.log, c.done, id, k + 1, ptr)
  {
    hide Ready, Within, KidsReady, Fresh, Refs;
    WithinTrans(S, a, b, c);
    SteppedTrans(g, a, b, c);
    if KidsReady(g, b.log, b.done, id, k, ptr) && Ready(g, c.log, c.done, Refs(g.types[id])[k], ptr) {
      KidsGrow(g, b.log, b.done, c.log, c.done, id, k, ptr);
    }
  }

  lemma ReadyForwarded(g: Source, q: seq<nat>, done: map<nat, nat>, i: nat)
    requires SourceOk(g) && i < |g.types| && IsComposite(g.types[i].info.kind) && !Anonymous(g.types[i])
    ensures Ready(g, q, done, i, true)
  {
  }

  lemma BusyItself(g: Source, st: seq<State>, lf: seq<nat>, lt: seq<nat>, id: nat, ptr: bool)
    requires SourceOk(g) && id < |g.types| == |st| && st[id] == Ordering && IsComposite(g.types[id].info.kind)
    requires !Forwardable(g.types[id], ptr)
    ensures !Safe(g, st, lf, lt, id, ptr)
  {
  }

  ghost predicate Idle(st: seq<State>) {
    forall i :: 0 <= i < |st| ==> st[i] != Ordering
  }

  lemma IdleSafe(g: Source, st: seq<State>, lf: seq<nat>, lt: seq<nat>, id: nat)
    requires SourceOk(g) && |st| == |g.types| && id < |st|
    ensures Orderable(g, lf, lt) && Idle(st) ==> Safe(g, st, lf, lt, id, false)
  {
  }

  // ---------------------------------------------------------------- uses of types

  /** A type as it is used inside a definition: by value, or only behind a pointer. */
  datatype Use = Use(id: nat, ptr: bool)

  /** From a use to the uses it is made of: through pointers, typedefs, arrays, modifiers and
      prototypes, and through the members of anonymous composites, which are written inline. */
  ghost predicate UseStep(g: Source, a: Use, b: Use)
    requires SourceOk(g) && a.id < |g.types|
  {
    var t := g.types[a.id];
    var k := t.info.kind;
    if k == KPtr then b == Use(t.size, true)
    else if k == KTypedef || IsMod(k) then b == Use(t.size, a.ptr)
    else if k == KArray then b == Use(t.tail.elem, a.ptr)
    else if k == KFuncProto then b.ptr && b.id in Refs(t)
    else IsComposite(k) && Anonymous(t) && !b.ptr && b.id in Refs(t)
  }

  ghost predicate UsePath(g: Source, p: seq<Use>)
    requires SourceOk(g)
  {
    && |p| > 0 && (forall i :: 0 <= i < |p| ==> p[i].id < |g.types|)
    && forall i :: 0 <= i < |p| - 1 ==> UseStep(g, p[i], p[i + 1])
  }

  /** Uses that C accepts only after a definition. */
  predicate NeedsDefinition(t: BtfType, ptr: bool) {
    || (IsComposite(t.info.kind) && !Anonymous(t) && !ptr)
    || ((t.info.kind == KEnum || t.info.kind == KFwd) && !Anonymous(t))
    || (t.info.kind == KTypedef && !ptr)
  }

  lemma ReadyStep(g: Source, st: seq<State>, q: seq<nat>, done: map<nat, nat>, n: nat, a: Use, b: Use)
    requires SourceOk(g) && Inv(g, st, q, done) && n <= |q| && a.id < |g.types| && b.id < |g.types|
    requires Ready(g, q[..n], done, a.id, a.ptr) && UseStep(g, a, b)
    ensures Ready(g, q[..n], done, b.id, b.ptr)
  {
    hide Ready, Graph, Layered, Refs, Once, Sound;
    if IsComposite(g.types[a.id].info.kind) {
      InlineDone(g, st, q, done, n, a);
      PartsGrow(g, q[..done[a.id]], done, q[..n], done, a.id);
    } else {
      ReadyThroughUse(g, q[..n], done, a, b);
    }
  }

  /** An anonymous composite that is ready was completed with its parts ready. */
  lemma InlineDone(g: Source, st: seq<State>, q: seq<nat>, done: map<nat, nat>, n: nat, a: Use)
    requires SourceOk(g) && Inv(g, st, q, done) && n <= |q| && a.id < |g.types| && Ready(g, q[..n], done, a.id, a.ptr)
    requires IsComposite(g.types[a.id].info.kind) && Anonymous(g.types[a.id])
    ensures a.id in done && done[a.id] <= n && PartsReady(g, q[..done[a.id]], done, a.id)
    ensures Grown(q[..done[a.id]], done, q[..n], done)
  {
    hide PartsReady, Once;
  }

  lemma ReadyThroughUse(g: Source, q: seq<nat>, done: map<nat, nat>, a: Use, b: Use)
    requires SourceOk(g) && a.id < |g.types| && b.id < |g.types| && !IsComposite(g.types[a.id].info.kind)
    requires Ready(g, q, done, a.id, a.ptr) && UseStep(g, a, b)
    ensures Ready(g, q, done, b.id, b.ptr)
  {
    RefCount(g.types, a.id);
    HeightDrops(g, a.id, 0);
  }

  lemma FirstUse(g: Source, st: seq<State>, q: seq<nat>, done: map<nat, nat>, n: nat, u: Use)
    requires SourceOk(g) && Inv(g, st, q, done) && n < |q| && g.types[q[n]].info.kind in {KStruct, KUnion, KTypedef}
    requires u.id in Refs(g.types[q[n]]) && !u.ptr
    ensures u.id < |g.types| && Ready(g, q[..n], done, u.id, u.ptr)
  {
    hide Ready, Once, Refs, Graph, Layered;
    assert PartsReady(g, q[..n], done, q[n]);
  }

  /** Whatever a queued struct, union or typedef uses by value, however deep inside arrays, modifiers, typedefs
      and anonymous composites, was queued before it. */
  lemma {:induction false} DefinedBefore(g: Source, st: seq<State>, q: seq<nat>, done: map<nat, nat>, n: nat,
                                         p: seq<Use>)
    requires SourceOk(g) && Inv(g, st, q, done) && n < |q|
    requires g.types[q[n]].info.kind in {KStruct, KUnion, KTypedef}
    requires UsePath(g, p) && p[0].id in Refs(g.types[q[n]]) && !p[0].ptr
    ensures Ready(g, q[..n], done, p[|p| - 1].id, p[|p| - 1].ptr)
    ensures NeedsDefinition(g.types[p[|p| - 1].id], p[|p| - 1].ptr) ==> p[|p| - 1].id in q[..n]
  {
    hide Ready, Inv, SourceOk, UseStep, NeedsDefinition, Refs;
    var last := p[|p| - 1];
    if |p| == 1 {
      FirstUse(g, st, q, done, n, last);
    } else {
      var before := p[..|p| - 1];
      assert UsePath(g, before);
      DefinedBefore(g, st, q, done, n, before);
      ReadyStep(g, st, q, done, n, p[|p| - 2], last);
    }
    ReadyNeeds(g, q[..n], done, last);
  }

  /** After a successful call for a type, all that a declaration with it uses by value is queued: the type
      itself if it is a named struct, union, enum or forward declaration or a typedef, and what it is made of. */
  lemma {:induction false} RequestedDefined(g: Source, st: seq<State>, q: seq<nat>, done: map<nat, nat>, id: nat,
                                            p: seq<Use>)
    requires SourceOk(g) && Inv(g, st, q, done) && id < |g.types| && Ready(g, q, done, id, false)
    requires UsePath(g, p) && p[0] == Use(id, false)
    ensures Ready(g, q, done, p[|p| - 1].id, p[|p| - 1].ptr)
    ensures NeedsDefinition(g.types[p[|p| - 1].id], p[|p| - 1].ptr) ==> p[|p| - 1].id in q
  {
    hide Ready, Inv, SourceOk, UseStep, NeedsDefinition;
    var last := p[|p| - 1];
    if |p| > 1 {
      var before := p[..|p| - 1];
      assert UsePath(g, before);
      RequestedDefined(g, st, q, done, id, before);
      assert q[..|q|] == q;
      ReadyStep(g, st, q, done, |q|, p[|p| - 2], last);
    }
    ReadyNeeds(g, q, done, last);
  }

  lemma ReadyNeeds(g: Source, q: seq<nat>, done: map<nat, nat>, u: Use)
    requires SourceOk(g) && u.id < |g.types| && Ready(g, q, done, u.id, u.ptr)
    ensures NeedsDefinition(g.types[u.id], u.ptr) ==> u.id in q
  {
  }

  /** Over all calls, failed ones included, no struct, union, enum or forward declaration is queued
      twice, no typedef that no reference leads back to, and none that leads straight to a definition. */
  lemma QueuedOnce(g: Source, st: seq<State>, q: seq<nat>, done: map<nat, nat>, k: nat, l: nat)
    requires SourceOk(g) && Sound(g, st, q, done) && k < |q| && l < |q| && Once(g, q[k]) && q[k] == q[l]
    ensures k == l
  {
  }

  // ---------------------------------------------------------------- a typedef queued twice

  /** typedef void F(struct S); struct S { F *p; }; */
  const Loop: seq<BtfType> := [
    VOID,
    BtfType(0, Info(KFuncProto, false, 1), 0, Params([Param(0, 2)])),
    BtfType(7, Info(KStruct, false, 1), 8, Members([Member(9, 3, 0)])),
    BtfType(0, Info(KPtr, false, 0), 4, NoTail),
    BtfType(8, Info(KTypedef, false, 0), 1, NoTail)]

  const Depths: seq<nat> := [0, 0, 0, 2, 1]

  lemma LoopOk()
    ensures Graph(Loop) && Layered(Loop, Depths)
    ensures Refs(Loop[1]) == [0, 2] && Refs(Loop[2]) == [3] && Refs(Loop[3]) == [4] && Refs(Loop[4]) == [1]
  {
    LoopRefs();
    hide Refs;
  }

  lemma LoopRefs()
    ensures forall i :: 0 <= i < 5 ==> WellFormed(Loop[i])
    ensures Refs(Loop[0]) == []
    ensures Refs(Loop[1]) == [0, 2] && Refs(Loop[2]) == [3] && Refs(Loop[3]) == [4] && Refs(Loop[4]) == [1]
  {
  }

  const New: seq<State> := [Ordered, NotOrdered, NotOrdered, NotOrdered, NotOrdered]
  const Open: seq<State> := [Ordered, NotOrdered, Ordering, NotOrdered, NotOrdered]
  const Inner: seq<State> := [Ordered, NotOrdered, Ordering, NotOrdered, Ordered]
  const Shut: seq<State> := [Ordered, NotOrdered, Ordering, Ordered, Ordered]
  const Last: seq<State> := [Ordered, NotOrdered, Ordered, Ordered, Ordered]

  /** Two references of the prototype: void, and the struct. */
  lemma LoopPrototype(st: seq<State>, log: seq<nat>, ptr: bool, f: nat, y: Res)
    requires Graph(Loop) && |st| == |Loop| && st[0] == Ordered && st[1] == NotOrdered && f > 0
    requires Refs(Loop[1]) == [0, 2]
    requires Walk(Loop, st, log, 2, ptr, f) == Ended(y) && y.r >= 0
    ensures Walk(Loop, st, log, 1, ptr, f + 1) == Ended(Res(1, y.st, y.log))
  {
    hide Graph, Refs, Walk, WalkAll;
    WalkPrototype(Loop, st, log, 1, ptr, f);
    UnfoldAll(Loop, st, log, 1, 2, ptr, f);
    UnfoldAll(Loop, st, log, 1, 1, ptr, f);
    WalkNone(Loop, st, log, 1, ptr, f);
    WalkKnown(Loop, st, log, 0, ptr, 1);
    WalkMore(Loop, st, log, 0, ptr, 1, f);
  }

  /** The typedef, reached again through the pointer while the struct is open, is queued. */
  lemma LoopInner()
    ensures Graph(Loop) && Walk(Loop, Open, [], 4, true, 3) == Ended(Res(1, Inner, [4]))
  {
    LoopOk();
    hide Graph, Refs, Walk, WalkAll;
    WalkKnown(Loop, Open, [], 2, true, 1);
    LoopPrototype(Open, [], true, 1, Res(0, Open, []));
    WalkReference(Loop, Open, [], 4, true, 2);
    assert Open[4 := Ordered] == Inner && [] + [4] == [4];
  }

  lemma LoopStruct()
    ensures Graph(Loop) && Walk(Loop, New, [], 2, false, 5) == Ended(Res(1, Last, [4, 2]))
  {
    LoopOk();
    LoopInner();
    hide Graph, Refs, Walk, WalkAll;
    WalkReference(Loop, Open, [], 3, false, 3);
    assert Inner[3 := Ordered] == Shut && New[2 := Ordering] == Open;
    UnfoldAll(Loop, Open, [], 2, 1, false, 4);
    WalkNone(Loop, Open, [], 2, false, 4);
    WalkComposite(Loop, New, [], 2, false, 4);
    assert Shut[2 := Ordered] == Last && [4] + [2] == [4, 2];
  }

  lemma LoopTypedef()
    ensures Graph(Loop) && Walk(Loop, New, [], 4, false, 7) == Ended(Res(1, Last, [4, 2, 4]))
  {
    LoopOk();
    LoopStruct();
    hide Graph, Refs, Walk, WalkAll;
    LoopPrototype(New, [], false, 5, Res(1, Last, [4, 2]));
    WalkReference(Loop, New, [], 4, false, 6);
    assert Last[4 := Ordered] == Last && [4, 2] + [4] == [4, 2, 4];
  }

  /** Ordering this typedef puts it on the queue twice. */
  method TypedefQueuedTwice() returns (queue: seq<nat>)
    ensures queue == [4, 2, 4]
  {
    LoopOk();
    LoopTypedef();
    hide Graph, Walk, Ready, Inv, Layered;
    var d := new Dump(Loop, Depths);
    assert d.states == New;
    AllClosed(d.G(), 4);
    var r, f := d.OrderType(4, false, [], [], AllIds(d.G()));
    WalkMore(Loop, New, [], 4, false, 7, 7 + f);
    WalkMore(Loop, New, [], 4, false, f, 7 + f);
    queue := d.queue;
  }

  // ---------------------------------------------------------------- after a failed call

  /** struct B { struct B b; }; struct S { struct { struct B b; } *p; }; */
  const Stuck: seq<BtfType> := [
    VOID,
    BtfType(7, Info(KStruct, false, 1), 8, Members([Member(9, 1, 0)])),
    BtfType(0, Info(KStruct, false, 1), 8, Members([Member(9, 1, 0)])),
    BtfType(0, Info(KPtr, false, 0), 2, NoTail),
    BtfType(8, Info(KStruct, false, 1), 8, Members([Member(9, 3, 0)]))]

  const Flat: seq<nat> := [0, 0, 0, 0, 0]

  lemma StuckRefs()
    ensures forall i :: 0 <= i < 5 ==> WellFormed(Stuck[i])
    ensures Refs(Stuck[0]) == [] && Refs(Stuck[1]) == [1] && Refs(Stuck[2]) == [1]
    ensures Refs(Stuck[3]) == [2] && Refs(Stuck[4]) == [3]
  {
  }

  lemma StuckOk()
    ensures Graph(Stuck) && Layered(Stuck, Flat) && Refs(Stuck[1]) == [1] && Refs(Stuck[2]) == [1]
    ensures Refs(Stuck[3]) == [2] && Refs(Stuck[4]) == [3]
  {
    StuckRefs();
    hide Refs;
  }

  const InB: seq<State> := [Ordered, Ordering, Ordering, NotOrdered, NotOrdered]
  const Failed: seq<State> := [Ordered, Ordering, Ordering, Ordered, NotOrdered]
  const Passed: seq<State> := [Ordered, Ordering, Ordering, Ordered, Ordered]

  /** A composite with one member. */
  lemma OneMember(T: seq<BtfType>, st: seq<State>, log: seq<nat>, id: nat, ptr: bool, m: nat, f: nat, y: Res)
    requires Graph(T) && |st| == |T| && id < |T| && st[id] == NotOrdered && IsComposite(T[id].info.kind)
    requires !(ptr && T[id].name != 0) && Refs(T[id]) == [m] && m < |T|
    requires Walk(T, st[id := Ordering], log, m, false, f) == Ended(y) && |y.st| == |T|
    ensures Walk(T, st, log, id, ptr, f + 1) ==
            if y.r < 0 then Ended(y)
            else Ended(Res(1, y.st[id := Ordered], if T[id].name != 0 then y.log + [id] else y.log))
  {
    JoinEnded(0, y);
    hide Graph, Refs, Walk, WalkAll;
    WalkComposite(T, st, log, id, ptr, f);
    UnfoldAll(T, st[id := Ordering], log, id, 1, false, f);
    WalkNone(T, st[id := Ordering], log, id, false, f);
  }

  /** The pointer is marked as ordered although its target failed. */
  lemma StuckPointer()
    ensures Graph(Stuck) && Walk(Stuck, New, [], 3, false, 4) == Ended(Res(ELOOP, Failed, []))
  {
    StuckOk();
    hide Graph, Refs, Walk, WalkAll;
    WalkKnown(Stuck, InB, [], 1, false, 1);
    assert New[2 := Ordering][1 := Ordering] == InB && InB[3 := Ordered] == Failed;
    OneMember(Stuck, New[2 := Ordering], [], 1, false, 1, 1, Res(ELOOP, InB, []));
    OneMember(Stuck, New, [], 2, true, 1, 2, Res(ELOOP, InB, []));
    WalkReference(Stuck, New, [], 3, false, 3);
  }

  lemma StuckStruct()
    ensures Graph(Stuck) && Walk(Stuck, Failed, [], 4, false, 2) == Ended(Res(1, Passed, [4]))
  {
    StuckOk();
    hide Graph, Refs, Walk, WalkAll;
    var open := Failed[4 := Ordering];
    WalkKnown(Stuck, open, [], 3, false, 1);
    OneMember(Stuck, Failed, [], 4, false, 3, 1, Res(1, open, []));
    assert open[4 := Ordered] == Passed && [] + [4] == [4];
  }

  /** After a failed call the next one succeeds and queues a struct without the struct it contains. */
  method FailedCallBreaksOrder() returns (first: int, second: int, queue: seq<nat>)
    ensures first == ELOOP && second == 0 && queue == [4]
    ensures var g := Source(Stuck, Flat);
            var path := [Use(3, false), Use(2, true), Use(1, false)];
            SourceOk(g) && UsePath(g, path) && 3 in Refs(Stuck[4]) && NeedsDefinition(Stuck[1], false) && 1 !in queue
  {
    StuckOk();
    StuckPointer();
    StuckStruct();
    hide Graph, Walk, Ready, Inv, Layered, Sound;
    var d := new Dump(Stuck, Flat);
    assert d.states == New;
    ghost var f;
    first, f := d.DumpType(3, [], []);
    WalkMore(Stuck, New, [], 3, false, 4, 4 + f);
    WalkMore(Stuck, New, [], 3, false, f, 4 + f);
    second, f := d.DumpType(4, [], []);
    WalkMore(Stuck, Failed, [], 4, false, 2, 2 + f);
    WalkMore(Stuck, Failed, [], 4, false, f, 2 + f);
    queue := d.queue;
  }
}
