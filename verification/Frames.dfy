/** UMEM frames between the free stack, the fill ring and the RX ring
    (src/common/xsk_user_helpers.c:42-66, 103-123; util/af_xdp/af_xdp_user.c:201-244;
    src/adaptor/adaptor_receive.c:103-187; the ring counters of lib/libbpf/src/xsk.h:85-165).

    The kernel is the environment: at any moment it may take the oldest entry of the fill ring and
    append it to the RX ring, if there is room, and it skips entries that are no frame. */
module Frames {
  import opened Basics

  const NUM_FRAMES: nat := 4096
  const FRAME_SIZE: nat := 4096
  const INVALID: nat := 0xffff_ffff_ffff_ffff
  const DEFAULT_DESCS: nat := 2048
  const RX_BATCH_SIZE: nat := 64

  /** `frees` tells the handler that frees received frames from the one that keeps them. */
  datatype Config = Config(num: nat, fillSize: nat, rxSize: nat, batch: nat, frees: bool)

  const AfXdpUser: Config := Config(NUM_FRAMES, DEFAULT_DESCS, DEFAULT_DESCS, RX_BATCH_SIZE, true)
  const Adaptor: Config := Config(NUM_FRAMES, DEFAULT_DESCS, DEFAULT_DESCS, RX_BATCH_SIZE, false)

  ghost predicate ConfigOk(c: Config) { c.num * FRAME_SIZE < INVALID && c.batch > 0 }

  /** Where the receive handler stands; n packets were peeked. */
  datatype Pc = Idle | Peeked(n: nat) | Filling(n: nat, k: nat) | Handling(n: nat, i: nat)

  /** `room` and `avail` are the handler's cached views of the free entries of the fill ring and the
      unread entries of the RX ring; `staged` are entries written and not yet submitted. */
  datatype State = State(stack: seq<nat>, fill: seq<nat>, staged: seq<nat>, rx: seq<nat>,
                         room: nat, avail: nat, kept: seq<nat>, pc: Pc)

  // ---------------------------------------------------------------- steps

  ghost predicate Kernel(c: Config, s: State, s': State) {
    s.fill != [] &&
    if s.fill[0] == INVALID then s' == s.(fill := s.fill[1..])
    else |s.rx| < c.rxSize && s' == s.(fill := s.fill[1..], rx := s.rx + [s.fill[0]])
  }

  /** xsk_ring_cons__peek on the RX ring */
  ghost predicate Poll(c: Config, s: State, s': State) {
    s.pc.Idle? &&
    var avail := if s.avail == 0 then |s.rx| else s.avail;
    var n := if avail > c.batch then c.batch else avail;
    s' == if n == 0 then s.(avail := avail) else s.(avail := avail - n, pc := Peeked(n))
  }

  /** xsk_prod_nb_free on the fill ring, for as many entries as there are free frames */
  function FreeEntries(c: Config, s: State): int {
    if s.room >= |s.stack| then s.room else c.fillSize - |s.fill|
  }

  /** xsk_prod_nb_free and xsk_ring_prod__reserve */
  ghost predicate Plan(c: Config, s: State, s': State) {
    s.pc.Peeked? &&
    var k := FreeEntries(c, s);
    s' == if k <= 0 then s.(room := 0, pc := Handling(s.pc.n, 0)) else s.(room := 0, pc := Filling(s.pc.n, k))
  }

  /** One entry of the fill ring is written with what the allocator returns. */
  ghost predicate Stage(c: Config, s: State, s': State) {
    s.pc.Filling? && |s.staged| < s.pc.k &&
    if s.stack == [] then s' == s.(staged := s.staged + [INVALID])
    else s' == s.(stack := s.stack[..|s.stack| - 1], staged := s.staged + [s.stack[|s.stack| - 1]])
  }

  ghost predicate Submit(c: Config, s: State, s': State) {
    s.pc.Filling? && |s.staged| == s.pc.k
      && s' == s.(fill := s.fill + s.staged, staged := [], pc := Handling(s.pc.n, 0))
  }

  /** One packet is processed, and its frame freed or kept. */
  ghost predicate Process(c: Config, s: State, s': State) {
    s.pc.Handling? && s.pc.i < s.pc.n && s.pc.i < |s.rx| &&
    var frame := s.rx[s.pc.i];
    var t := s.(pc := Handling(s.pc.n, s.pc.i + 1));
    s' == if c.frees then t.(stack := s.stack + [frame]) else t.(kept := s.kept + [frame])
  }

  /** xsk_ring_cons__release */
  ghost predicate Release(c: Config, s: State, s': State) {
    s.pc.Handling? && s.pc.i == s.pc.n && s.pc.n <= |s.rx| && s' == s.(rx := s.rx[s.pc.n..], pc := Idle)
  }

  ghost predicate Step(c: Config, s: State, s': State) {
    || Kernel(c, s, s') || Poll(c, s, s') || Plan(c, s, s') || Stage(c, s, s')
    || Submit(c, s, s') || Process(c, s, s') || Release(c, s, s')
  }

  // ---------------------------------------------------------------- set-up

  function All(n: nat): seq<nat> { seq(n, i => i * FRAME_SIZE) }

  /** k frames popped from the stack, in the order popped. */
  function Popped(stack: seq<nat>, k: nat): seq<nat> {
    if k == 0 then []
    else if stack == [] then [INVALID] + Popped(stack, k - 1)
    else [stack[|stack| - 1]] + Popped(stack[..|stack| - 1], k - 1)
  }

  lemma UnfoldPopped(stack: seq<nat>, k: nat)
    requires k > 0
    ensures stack == [] ==> Popped(stack, k) == [INVALID] + Popped(stack, k - 1)
    ensures stack != [] ==> Popped(stack, k) == [stack[|stack| - 1]] + Popped(stack[..|stack| - 1], k - 1)
  {
  }

  lemma UnfoldNone(stack: seq<nat>)
    ensures Popped(stack, 0) == []
  {
  }

  lemma Shift(a: seq<nat>, x: nat, b: seq<nat>)
    ensures a + ([x] + b) == (a + [x]) + b
  {
  }

  /** After xsk_configure_socket: the fill ring is full. */
  function Initial(c: Config): State {
    State(All(c.num)[..if c.fillSize <= c.num then c.num - c.fillSize else 0],
          Popped(All(c.num), c.fillSize), [], [], 0, 0, [], Idle)
  }

  ghost predicate Run(c: Config, states: seq<State>) {
    && states != [] && states[0] == Initial(c)
    && forall i :: 0 <= i < |states| - 1 ==> Step(c, states[i], states[i + 1])
  }

  // ---------------------------------------------------------------- counting frames

  /** The frames a sequence holds, invalid entries left out. */
  ghost function FramesOf(s: seq<nat>): multiset<nat> {
    if s == [] then multiset{}
    else FramesOf(s[..|s| - 1]) + (if s[|s| - 1] == INVALID then multiset{} else multiset{s[|s| - 1]})
  }

  lemma FramesPush(s: seq<nat>, x: nat)
    ensures FramesOf(s + [x]) == FramesOf(s) + (if x == INVALID then multiset{} else multiset{x})
  {
    assert (s + [x])[..|s|] == s;
  }

  lemma {:induction false} FramesAppend(a: seq<nat>, b: seq<nat>)
    ensures FramesOf(a + b) == FramesOf(a) + FramesOf(b)
    decreases |b|
  {
    if b == [] {
      assert a + b == a;
    } else {
      var b' := b[..|b| - 1];
      assert a + b == (a + b') + [b[|b| - 1]] && b == b' + [b[|b| - 1]];
      FramesAppend(a, b');
      FramesPush(a + b', b[|b| - 1]);
      FramesPush(b', b[|b| - 1]);
    }
  }

  lemma FramesCut(s: seq<nat>, i: nat)
    requires i <= |s|
    ensures FramesOf(s) == FramesOf(s[..i]) + FramesOf(s[i..])
  {
    FramesAppend(s[..i], s[i..]);
    assert s[..i] + s[i..] == s;
  }

  lemma FramesOne(x: nat)
    ensures FramesOf([x]) == if x == INVALID then multiset{} else multiset{x}
  {
    FramesPush([], x);
  }

  lemma FramesFirst(s: seq<nat>)
    requires s != []
    ensures FramesOf(s) == FramesOf(s[1..]) + (if s[0] == INVALID then multiset{} else multiset{s[0]})
  {
    FramesCut(s, 1);
    assert s[..1] == [s[0]];
    FramesOne(s[0]);
  }

  lemma FramesLast(s: seq<nat>)
    requires s != []
    ensures FramesOf(s) == FramesOf(s[..|s| - 1]) + (if s[|s| - 1] == INVALID then multiset{} else multiset{s[|s| - 1]})
  {
  }

  lemma {:induction false} FramesCount(s: seq<nat>)
    ensures |FramesOf(s)| <= |s|
    ensures INVALID !in s ==> |FramesOf(s)| == |s|
    ensures forall x :: x in FramesOf(s) <==> x in s && x != INVALID
    decreases |s|
  {
    if s != [] {
      var t := s[..|s| - 1];
      assert s == t + [s[|s| - 1]];
      FramesCount(t);
    }
  }

  // ---------------------------------------------------------------- the invariant

  function Claimed(pc: Pc): nat { if pc.Idle? then 0 else pc.n }
  function Reserved(pc: Pc): nat { if pc.Filling? then pc.k else 0 }
  function Handled(pc: Pc): nat { if pc.Handling? then pc.i else 0 }

  /** Ring counters. */
  ghost predicate Counters(c: Config, s: State) {
    && |s.rx| <= c.rxSize && Claimed(s.pc) + s.avail <= |s.rx| && Handled(s.pc) <= Claimed(s.pc)
    && |s.staged| <= Reserved(s.pc) && s.room + |s.fill| + Reserved(s.pc) <= c.fillSize
    && INVALID !in s.stack && INVALID !in s.rx && INVALID !in s.kept
  }

  /** Every frame is in exactly one place. */
  ghost predicate Conserved(c: Config, s: State)
    requires Handled(s.pc) <= |s.rx|
  {
    FramesOf(s.stack) + FramesOf(s.fill) + FramesOf(s.staged) + FramesOf(s.rx[Handled(s.pc)..]) + FramesOf(s.kept)
      == FramesOf(All(c.num))
  }

  ghost predicate Inv(c: Config, s: State) {
    Counters(c, s) && Conserved(c, s) && (c.frees ==> s.kept == [])
  }

  /** No invalid frame was allocated, and the stack covers what is still to be written. */
  ghost predicate Supplied(c: Config, s: State) {
    INVALID !in s.fill && INVALID !in s.staged && (s.pc.Filling? ==> s.pc.k <= |s.staged| + |s.stack|)
  }

  lemma KernelKeeps(c: Config, s: State, s': State)
    requires Inv(c, s) && Kernel(c, s, s')
    ensures Inv(c, s') && (Supplied(c, s) ==> Supplied(c, s'))
  {
    hide FramesOf;
    FramesFirst(s.fill);
    if s.fill[0] != INVALID {
      var h := Handled(s.pc);
      assert s'.rx[h..] == s.rx[h..] + [s.fill[0]];
      FramesPush(s.rx[h..], s.fill[0]);
    }
  }

  lemma StageKeeps(c: Config, s: State, s': State)
    requires Inv(c, s) && Stage(c, s, s')
    ensures Inv(c, s') && (Supplied(c, s) ==> Supplied(c, s') && s.stack != [])
  {
    hide FramesOf;
    if s.stack == [] {
      FramesPush(s.staged, INVALID);
    } else {
      var x := s.stack[|s.stack| - 1];
      assert x in s.stack;
      FramesLast(s.stack);
      FramesPush(s.staged, x);
    }
  }

  lemma SubmitKeeps(c: Config, s: State, s': State)
    requires Inv(c, s) && Submit(c, s, s')
    ensures Inv(c, s') && (Supplied(c, s) ==> Supplied(c, s'))
  {
    hide FramesOf;
    FramesAppend(s.fill, s.staged);
    assert FramesOf(s'.staged) == multiset{} by {
      FramesCount([]);
    }
  }

  lemma ProcessKeeps(c: Config, s: State, s': State)
    requires Inv(c, s) && Process(c, s, s')
    ensures Inv(c, s') && (Supplied(c, s) ==> Supplied(c, s'))
  {
    hide FramesOf;
    var i := s.pc.i;
    var x := s.rx[i];
    assert x in s.rx;
    var rest := s.rx[i..];
    FramesFirst(rest);
    assert rest[1..] == s.rx[i + 1..] && rest[0] == x;
    FramesPush(s.stack, x);
    FramesPush(s.kept, x);
  }

  lemma ReleaseKeeps(c: Config, s: State, s': State)
    requires Inv(c, s) && Release(c, s, s')
    ensures Inv(c, s') && (Supplied(c, s) ==> Supplied(c, s'))
  {
    assert s'.rx[0..] == s.rx[s.pc.n..];
  }

  lemma Sum5(a: multiset<nat>, b: multiset<nat>, d: multiset<nat>, e: multiset<nat>, f: multiset<nat>)
    ensures |a + b + d + e + f| == |a| + |b| + |d| + |e| + |f|
  {
  }

  /** The frames in the places add up. */
  lemma Census(c: Config, s: State)
    requires ConfigOk(c) && Inv(c, s) && Supplied(c, s)
    ensures |s.stack| + |s.fill| + |s.staged| + |s.rx| - Handled(s.pc) + |s.kept| == c.num
  {
    hide FramesOf;
    var r := s.rx[Handled(s.pc)..];
    assert INVALID !in r;
    FramesCount(s.stack);
    FramesCount(s.fill);
    FramesCount(s.staged);
    FramesCount(r);
    FramesCount(s.kept);
    AllFrames(c.num);
    Sum5(FramesOf(s.stack), FramesOf(s.fill), FramesOf(s.staged), FramesOf(r), FramesOf(s.kept));
  }

  lemma {:induction false} AllFrames(n: nat)
    requires n * FRAME_SIZE < INVALID
    ensures |FramesOf(All(n))| == n && INVALID !in All(n)
    ensures forall x :: FramesOf(All(n))[x] <= 1
    ensures forall x :: x in FramesOf(All(n)) ==> x < n * FRAME_SIZE
  {
    if n > 0 {
      AllFrames(n - 1);
      assert All(n) == All(n - 1) + [(n - 1) * FRAME_SIZE];
      FramesPush(All(n - 1), (n - 1) * FRAME_SIZE);
    }
  }

  lemma PollKeeps(c: Config, s: State, s': State)
    requires Inv(c, s) && Poll(c, s, s')
    ensures Inv(c, s') && (Supplied(c, s) ==> Supplied(c, s'))
  {
    hide FramesOf;
  }

  /** With at least as many frames as ring entries, every planned entry has a frame. */
  lemma PlanKeeps(c: Config, s: State, s': State)
    requires Inv(c, s) && Plan(c, s, s')
    ensures Inv(c, s')
    ensures ConfigOk(c) && Enough(c) && Supplied(c, s) ==> Supplied(c, s')
  {
    hide FramesOf;
    if ConfigOk(c) && Enough(c) && Supplied(c, s) {
      Census(c, s);
    }
  }

  predicate Enough(c: Config) { c.frees && c.fillSize + c.rxSize <= c.num }

  lemma StepKeeps(c: Config, s: State, s': State)
    requires Inv(c, s) && Step(c, s, s')
    ensures Inv(c, s')
    ensures ConfigOk(c) && Enough(c) && Supplied(c, s) ==> Supplied(c, s')
  {
    hide Inv, Supplied, Kernel, Poll, Plan, Stage, Submit, Process, Release;
    if Kernel(c, s, s') {
      KernelKeeps(c, s, s');
    } else if Poll(c, s, s') {
      PollKeeps(c, s, s');
    } else if Plan(c, s, s') {
      PlanKeeps(c, s, s');
    } else if Stage(c, s, s') {
      StageKeeps(c, s, s');
    } else if Submit(c, s, s') {
      SubmitKeeps(c, s, s');
    } else if Process(c, s, s') {
      ProcessKeeps(c, s, s');
    } else {
      ReleaseKeeps(c, s, s');
    }
  }

  lemma {:induction false} PoppedFrames(stack: seq<nat>, k: nat)
    requires INVALID !in stack
    ensures |Popped(stack, k)| == k
    ensures FramesOf(Popped(stack, k)) + FramesOf(stack[..if k <= |stack| then |stack| - k else 0]) == FramesOf(stack)
    ensures k <= |stack| ==> INVALID !in Popped(stack, k)
    decreases k
  {
    hide FramesOf, Popped;
    FramesCount([]);
    if k == 0 {
      UnfoldNone(stack);
      assert stack[..|stack|] == stack;
    } else if stack == [] {
      PoppedFrames(stack, k - 1);
      UnfoldPopped(stack, k);
      FramesFirst(Popped(stack, k));
      assert Popped(stack, k)[1..] == Popped(stack, k - 1);
    } else {
      var rest, x := stack[..|stack| - 1], stack[|stack| - 1];
      PoppedFrames(rest, k - 1);
      UnfoldPopped(stack, k);
      FramesFirst(Popped(stack, k));
      FramesLast(stack);
      assert Popped(stack, k)[1..] == Popped(rest, k - 1);
      assert x in stack;
      var left := if k <= |stack| then |stack| - k else 0;
      assert rest[..left] == stack[..left];
    }
  }

  lemma InitialInv(c: Config)
    requires ConfigOk(c)
    ensures Inv(c, Initial(c)) && (Enough(c) ==> Supplied(c, Initial(c)))
  {
    FramesCount([]);
    hide FramesOf;
    AllFrames(c.num);
    PoppedFrames(All(c.num), c.fillSize);
    var s := Initial(c);
    assert |All(c.num)| == c.num && s.rx[0..] == [] && FramesOf([]) == multiset{};
    assert Conserved(c, s);
    hide Conserved, Popped;
  }

  lemma {:induction false} RunInv(c: Config, states: seq<State>, i: nat)
    requires ConfigOk(c) && Run(c, states) && i < |states|
    ensures Inv(c, states[i]) && (Enough(c) ==> Supplied(c, states[i]))
    decreases i
  {
    hide Inv, Supplied, Step, Initial, Enough;
    if i == 0 {
      InitialInv(c);
    } else {
      RunInv(c, states, i - 1);
      assert Step(c, states[i - 1], states[i - 1 + 1]);
      StepKeeps(c, states[i - 1], states[i]);
    }
  }

  // ---------------------------------------------------------------- what every run keeps

  /** With either handler, no frame is ever in two places, and no handler keeps more frames than there are. */
  lemma NoFrameTwice(c: Config, states: seq<State>, i: nat)
    requires ConfigOk(c) && Run(c, states) && i < |states|
    ensures var s := states[i];
            && Handled(s.pc) <= |s.rx| && |s.kept| <= c.num
            && forall x :: (FramesOf(s.stack) + FramesOf(s.fill) + FramesOf(s.staged) + FramesOf(s.rx[Handled(s.pc)..])
                            + FramesOf(s.kept))[x] <= 1
  {
    RunInv(c, states, i);
    AllFrames(c.num);
    var s := states[i];
    FramesCount(s.kept);
    hide FramesOf;
    var others := FramesOf(s.stack) + FramesOf(s.fill) + FramesOf(s.staged) + FramesOf(s.rx[Handled(s.pc)..]);
    assert |others + FramesOf(s.kept)| == |others| + |FramesOf(s.kept)|;
  }

  // ---------------------------------------------------------------- frames as blocks of memory

  /** The entries of all places; packets that were already handled have their frames elsewhere. */
  function Live(s: State): seq<nat>
    requires Handled(s.pc) <= |s.rx|
  {
    s.stack + s.fill + s.staged + s.rx[Handled(s.pc)..] + s.kept
  }

  /** An entry that names a frame names a whole block of the memory. */
  ghost predicate Block(c: Config, x: nat) {
    x != 0xffff_ffff_ffff_ffff ==> x % 4096 == 0 && x + 4096 <= c.num * 4096
  }

  ghost predicate Blocks(c: Config, s: State) {
    && (forall x :: x in s.stack ==> Block(c, x)) && (forall x :: x in s.fill ==> Block(c, x))
    && (forall x :: x in s.staged ==> Block(c, x)) && (forall x :: x in s.rx ==> Block(c, x))
    && (forall x :: x in s.kept ==> Block(c, x))
  }

  /** Two entries do not name overlapping blocks. */
  ghost predicate Apart(x: nat, y: nat) {
    x == 0xffff_ffff_ffff_ffff || y == 0xffff_ffff_ffff_ffff || x + 4096 <= y || y + 4096 <= x
  }

  /** In every state of every run, whatever the handler and the number of frames: every entry of every place is
      invalid or the address of a 4096-byte block inside the memory, blocks at two places do not overlap, and
      every block of the memory is at some place. */
  lemma FramesApart(c: Config, states: seq<State>, i: nat)
    requires ConfigOk(c) && Run(c, states) && i < |states|
    ensures Blocks(c, states[i]) && Handled(states[i].pc) <= |states[i].rx|
    ensures var live := Live(states[i]);
            && (forall p, q :: 0 <= p < q < |live| ==> Apart(live[p], live[q]))
            && (forall x :: 0 <= x < c.num * 4096 && x % 4096 == 0 ==> x in live)
  {
    hide FramesOf, Step, Initial, Block, Conserved;
    RunInv(c, states, i);
    RunBlocks(c, states, i);
    var s := states[i];
    var live := Live(s);
    LiveFrames(c, s);
    AllExactly(c.num);
    FramesCount(live);
    forall p, q | 0 <= p < q < |live| && live[p] != INVALID && live[q] != INVALID
      ensures Apart(live[p], live[q])
    {
      TwoPlaces(live, p, q);
      assert live[p] in live && live[q] in live;
      MultiplesApart(live[p], live[q]);
    }
  }

  lemma MultiplesApart(x: nat, y: nat)
    requires x % 4096 == 0 && y % 4096 == 0 && x != y
    ensures Apart(x, y)
  {
  }

  lemma LiveFrames(c: Config, s: State)
    requires Inv(c, s)
    ensures FramesOf(Live(s)) == FramesOf(All(c.num))
  {
    hide FramesOf;
    var rest := s.rx[Handled(s.pc)..];
    FramesAppend(s.stack, s.fill);
    FramesAppend(s.stack + s.fill, s.staged);
    FramesAppend(s.stack + s.fill + s.staged, rest);
    FramesAppend(s.stack + s.fill + s.staged + rest, s.kept);
  }

  /** The set-up makes one frame of every block. */
  lemma {:induction false} AllExactly(n: nat)
    requires n * 4096 < 0xffff_ffff_ffff_ffff
    ensures forall x: nat :: FramesOf(All(n))[x] == if x % 4096 == 0 && x < n * 4096 then 1 else 0
  {
    if n > 0 {
      AllExactly(n - 1);
      assert All(n) == All(n - 1) + [(n - 1) * 4096];
      FramesPush(All(n - 1), (n - 1) * 4096);
    }
  }

  lemma {:induction false} TwoPlaces(s: seq<nat>, p: nat, q: nat)
    requires p < q < |s| && s[p] != INVALID && FramesOf(s)[s[p]] <= 1
    ensures s[p] != s[q]
  {
    var a, b := s[..q], s[q..];
    FramesCut(s, q);
    FramesCount(a);
    FramesCount(b);
    assert a[p] in a && b[0] in b;
  }

  lemma {:induction false} RunBlocks(c: Config, states: seq<State>, i: nat)
    requires ConfigOk(c) && Run(c, states) && i < |states|
    ensures Blocks(c, states[i])
    decreases i
  {
    hide Step, Initial, Blocks;
    if i == 0 {
      StartBlocks(c);
    } else {
      RunBlocks(c, states, i - 1);
      assert Step(c, states[i - 1], states[i - 1 + 1]);
      StepBlocks(c, states[i - 1], states[i]);
    }
  }

  lemma StartBlocks(c: Config)
    requires ConfigOk(c)
    ensures Blocks(c, Initial(c))
  {
    hide Popped;
    AllExactly(c.num);
    FramesCount(All(c.num));
    forall x | x in Popped(All(c.num), c.fillSize)
      ensures Block(c, x)
    {
      PoppedAt(All(c.num), c.fillSize);
    }
  }

  lemma StepBlocks(c: Config, s: State, s': State)
    requires Blocks(c, s) && Step(c, s, s')
    ensures Blocks(c, s')
  {
    hide Block;
    if Stage(c, s, s') {
      InvalidBlock(c);
    }
  }

  /** The producer side caches no free entries from one call to the next. */
  lemma {:induction false} NothingCached(c: Config, states: seq<State>, i: nat)
    requires Run(c, states) && i < |states|
    ensures states[i].room == 0
    decreases i
  {
    if i > 0 {
      NothingCached(c, states, i - 1);
      assert Step(c, states[i - 1], states[i - 1 + 1]);
    }
  }

  lemma InvalidBlock(c: Config)
    ensures Block(c, INVALID)
  {
  }

  /** Popping takes the top of the stack first, and gives invalid frames once it is empty. */
  lemma {:induction false} PoppedAt(stack: seq<nat>, k: nat)
    ensures |Popped(stack, k)| == k
    ensures forall i :: 0 <= i < k ==>
              Popped(stack, k)[i] == if i < |stack| then stack[|stack| - 1 - i] else 0xffff_ffff_ffff_ffff
    decreases k
  {
    if k > 0 {
      PoppedAt(if stack == [] then [] else stack[..|stack| - 1], k - 1);
    }
  }

  // ---------------------------------------------------------------- too few frames

  lemma Extend(c: Config, states: seq<State>, s: State) returns (more: seq<State>)
    requires Run(c, states) && Step(c, states[|states| - 1], s)
    ensures more == states + [s] && Run(c, more)
  {
    hide Step;
    more := states + [s];
    forall i | 0 <= i < |more| - 1
      ensures Step(c, more[i], more[i + 1])
    {
      if i < |states| - 1 {
        assert more[i] == states[i] && more[i + 1] == states[i + 1];
      }
    }
  }

  /** How many frames are where, in a state of a run that has been supplied so far; `avail` is what the
      handler still believes to be unread. */
  datatype Counts = Counts(stack: int, fill: int, staged: int, rx: int, avail: int)

  ghost predicate Sizes(c: Config, s: State, pc: Pc, n: Counts) {
    && s.pc == pc && |s.stack| == n.stack && |s.fill| == n.fill && |s.staged| == n.staged && |s.rx| == n.rx
    && s.avail == n.avail && s.room == 0 && Inv(c, s) && Supplied(c, s)
  }

  /** A run that ends in a state of the given sizes. */
  ghost predicate Reaches(c: Config, states: seq<State>, pc: Pc, n: Counts) {
    Run(c, states) && Sizes(c, states[|states| - 1], pc, n)
  }

  /** The kernel moves d frames to the RX ring. */
  lemma {:induction false} DrainRun(c: Config, states: seq<State>, pc: Pc, n: Counts, d: nat) returns (more: seq<State>)
    requires Reaches(c, states, pc, n) && d <= n.fill && n.rx + d <= c.rxSize
    ensures Reaches(c, more, pc, n.(fill := n.fill - d, rx := n.rx + d))
    decreases d
  {
    hide Run, Inv;
    if d == 0 {
      more := states;
    } else {
      more := DrainRun(c, states, pc, n, d - 1);
      RunNotEmpty(c, more);
      var s := more[|more| - 1];
      assert s.fill[0] in s.fill;
      var s' := s.(fill := s.fill[1..], rx := s.rx + [s.fill[0]]);
      assert Kernel(c, s, s');
      KernelKeeps(c, s, s');
      more := Extend(c, more, s');
    }
  }

  lemma RunNotEmpty(c: Config, states: seq<State>)
    requires Run(c, states)
    ensures states != []
  {
  }

  /** What a poll takes to be unread, and how much of it a batch takes. */
  function Unread(n: Counts): int { if n.avail == 0 then n.rx else n.avail }
  function Batch(c: Config, n: Counts): int { if Unread(n) > c.batch then c.batch else Unread(n) }

  lemma PollRun(c: Config, states: seq<State>, n: Counts) returns (more: seq<State>)
    requires Reaches(c, states, Idle, n) && n.rx > 0 && n.avail >= 0 && c.batch > 0
    ensures 1 <= Batch(c, n) <= n.rx && Reaches(c, more, Peeked(Batch(c, n)), n.(avail := Unread(n) - Batch(c, n)))
  {
    hide Run, FramesOf, Conserved, Kernel, Plan, Stage, Submit, Process, Release;
    RunNotEmpty(c, states);
    var s := states[|states| - 1];
    var b: nat := Batch(c, n);
    var s' := s.(avail := Unread(n) - b, pc := Peeked(b));
    assert Poll(c, s, s');
    PollKeeps(c, s, s');
    more := Extend(c, states, s');
  }

  /** Planning within the supply: all free entries are reserved, or nothing when the stack is empty. */
  lemma PlanRun(c: Config, states: seq<State>, b: nat, n: Counts) returns (more: seq<State>)
    requires Reaches(c, states, Peeked(b), n) && n.staged == 0 && 0 < c.fillSize - n.fill <= n.stack
    ensures Reaches(c, more, Filling(b, c.fillSize - n.fill), n)
  {
    hide Run;
    RunNotEmpty(c, states);
    var s := states[|states| - 1];
    var s' := s.(room := 0, pc := Filling(b, c.fillSize - n.fill));
    assert Plan(c, s, s');
    PlanKeeps(c, s, s');
    more := Extend(c, states, s');
  }

  lemma PlanNothing(c: Config, states: seq<State>, b: nat, n: Counts) returns (more: seq<State>)
    requires Reaches(c, states, Peeked(b), n) && n.stack == 0
    ensures Reaches(c, more, Handling(b, 0), n)
  {
    hide Run;
    RunNotEmpty(c, states);
    var s := states[|states| - 1];
    var s' := s.(room := 0, pc := Handling(b, 0));
    assert Plan(c, s, s');
    PlanKeeps(c, s, s');
    more := Extend(c, states, s');
  }

  lemma {:induction false} StageRun(c: Config, states: seq<State>, b: nat, k: nat, n: Counts, d: nat)
    returns (more: seq<State>)
    requires Reaches(c, states, Filling(b, k), n) && n.staged == 0 && d <= k <= n.stack
    ensures Reaches(c, more, Filling(b, k), n.(stack := n.stack - d, staged := d))
    decreases d
  {
    hide Run, Inv;
    if d == 0 {
      more := states;
    } else {
      more := StageRun(c, states, b, k, n, d - 1);
      RunNotEmpty(c, more);
      var s := more[|more| - 1];
      var s' := s.(stack := s.stack[..|s.stack| - 1], staged := s.staged + [s.stack[|s.stack| - 1]]);
      assert Stage(c, s, s');
      StageKeeps(c, s, s');
      more := Extend(c, more, s');
    }
  }

  lemma SubmitRun(c: Config, states: seq<State>, b: nat, k: nat, n: Counts) returns (more: seq<State>)
    requires Reaches(c, states, Filling(b, k), n) && n.staged == k
    ensures Reaches(c, more, Handling(b, 0), n.(fill := n.fill + k, staged := 0))
  {
    hide Run, Inv;
    RunNotEmpty(c, states);
    var s := states[|states| - 1];
    var s' := s.(fill := s.fill + s.staged, staged := [], pc := Handling(b, 0));
    assert Submit(c, s, s');
    SubmitKeeps(c, s, s');
    more := Extend(c, states, s');
  }

  lemma {:induction false} ProcessRun(c: Config, states: seq<State>, b: nat, n: Counts, d: nat)
    returns (more: seq<State>)
    requires c.frees && Reaches(c, states, Handling(b, 0), n) && d <= b <= n.rx
    ensures Reaches(c, more, Handling(b, d), n.(stack := n.stack + d))
    decreases d
  {
    hide Run, Inv;
    if d == 0 {
      more := states;
    } else {
      more := ProcessRun(c, states, b, n, d - 1);
      RunNotEmpty(c, more);
      var s := more[|more| - 1];
      var s' := s.(pc := Handling(b, d), stack := s.stack + [s.rx[d - 1]]);
      assert Process(c, s, s');
      ProcessKeeps(c, s, s');
      more := Extend(c, more, s');
    }
  }

  lemma ReleaseRun(c: Config, states: seq<State>, b: nat, n: Counts) returns (more: seq<State>)
    requires Reaches(c, states, Handling(b, b), n) && b <= n.rx
    ensures Reaches(c, more, Idle, n.(rx := n.rx - b))
  {
    hide Run, Inv;
    RunNotEmpty(c, states);
    var s := states[|states| - 1];
    var s' := s.(rx := s.rx[b..], pc := Idle);
    assert Release(c, s, s');
    ReleaseKeeps(c, s, s');
    more := Extend(c, states, s');
  }

  /** Between calls: `held` frames are in the two rings, the others on the stack. */
  function Between(c: Config, fill: int, held: int, avail: int): Counts {
    Counts(c.num - held, fill, 0, held - fill, avail)
  }

  /** One call, during which the kernel drains the fill ring: the fill ring is full again, and the frames in
      the rings have grown by its size less the packets taken. */
  lemma CallRun(c: Config, states: seq<State>, fill: int, held: int, avail: int) returns (more: seq<State>)
    requires c.frees && c.batch > 0 && c.fillSize > 0 && Reaches(c, states, Idle, Between(c, fill, held, avail))
    requires 0 <= fill < held <= c.num - c.fillSize && held <= c.rxSize && avail >= 0
    ensures var n := Between(c, fill, held, avail);
            && 1 <= Batch(c, n) <= n.rx
            && Reaches(c, more, Idle, Between(c, c.fillSize, held + c.fillSize - Batch(c, n), Unread(n) - Batch(c, n)))
  {
    hide Reaches, Run;
    var n := Between(c, fill, held, avail);
    more := PollRun(c, states, n);
    var b: nat := Batch(c, n);
    n := n.(avail := Unread(n) - b);
    more := DrainRun(c, more, Peeked(b), n, fill);
    n := n.(fill := 0, rx := held);
    more := PlanRun(c, more, b, n);
    more := StageRun(c, more, b, c.fillSize, n, c.fillSize);
    n := n.(stack := n.stack - c.fillSize, staged := c.fillSize);
    more := SubmitRun(c, more, b, c.fillSize, n);
    n := n.(fill := c.fillSize, staged := 0);
    more := ProcessRun(c, more, b, n, b);
    n := n.(stack := n.stack + b);
    more := ReleaseRun(c, more, b, n);
  }

  /** Once the RX ring holds one frame more than the fill ring leaves over, and two entries of the fill
      ring are free, the handler plans one entry more than it has frames. */
  lemma LastPlan(c: Config, states: seq<State>, fill: int, held: int, avail: int) returns (more: seq<State>)
    requires c.batch > 0 && c.fillSize <= c.num && Reaches(c, states, Idle, Between(c, fill, held, avail)) && avail >= 0
    requires 0 <= fill && held - fill > c.num - c.fillSize && held < c.num
    ensures Run(c, more) && !Supplied(c, more[|more| - 1])
  {
    hide Run, Inv, FramesOf, Kernel, Poll, Stage, Submit, Process, Release;
    var n := Between(c, fill, held, avail);
    more := PollRun(c, states, n);
    RunNotEmpty(c, more);
    var s := more[|more| - 1];
    var s' := s.(room := 0, pc := Filling(Batch(c, n), c.fillSize - fill));
    assert Plan(c, s, s');
    more := Extend(c, more, s');
  }

  /** With a full fill ring and enough frames in the rings, draining leads there. */
  lemma Finish(c: Config, states: seq<State>, held: int, avail: int) returns (more: seq<State>)
    requires c.batch > 0 && c.fillSize <= c.num < c.fillSize + c.rxSize && avail >= 0
    requires Reaches(c, states, Idle, Between(c, c.fillSize, held, avail))
    requires c.fillSize <= held && c.num - c.fillSize < held < c.num
    ensures Run(c, more) && !Supplied(c, more[|more| - 1])
  {
    hide Reaches, Run, Supplied;
    var rx := held - c.fillSize;
    var n := Between(c, c.fillSize, held, avail);
    var d := if rx > c.num - c.fillSize then 0 else c.num - c.fillSize + 1 - rx;
    more := DrainRun(c, states, Idle, n, d);
    assert n.(fill := n.fill - d, rx := n.rx + d) == Between(c, c.fillSize - d, held, avail);
    more := LastPlan(c, more, c.fillSize - d, held, avail);
  }

  /** With batches smaller than the fill ring, every call leaves more frames in the rings. */
  lemma {:induction false} SmallBatches(c: Config, states: seq<State>, held: int, avail: int) returns (more: seq<State>)
    requires c.frees && 0 < c.batch < c.fillSize <= c.num < c.fillSize + c.rxSize && avail >= 0
    requires Reaches(c, states, Idle, Between(c, c.fillSize, held, avail)) && c.fillSize <= held <= c.num - c.fillSize
    ensures Run(c, more) && !Supplied(c, more[|more| - 1])
    decreases c.num - held
  {
    hide Reaches, Run, Supplied;
    var n, fill := Between(c, c.fillSize, held, avail), c.fillSize;
    more := states;
    if n.rx == 0 {
      more := DrainRun(c, states, Idle, n, 1);
      fill := fill - 1;
      assert n.(fill := n.fill - 1, rx := n.rx + 1) == Between(c, fill, held, avail);
      n := Between(c, fill, held, avail);
    }
    more := CallRun(c, more, fill, held, avail);
    var held', avail' := held + c.fillSize - Batch(c, n), Unread(n) - Batch(c, n);
    if held' <= c.num - c.fillSize {
      more := SmallBatches(c, more, held', avail');
    } else {
      more := Finish(c, more, held', avail');
    }
  }

  // ---------------------------------------------------------------- large batches

  /** By how much the frames in the rings grow, at most, while v packets believed unread are worked off. */
  function Due(c: Config, v: nat): int
    requires c.batch > 0
    decreases v
  {
    if v == 0 then 0 else if v <= c.batch then c.fillSize - v else c.fillSize - c.batch + Due(c, v - c.batch)
  }

  /** With k full batches and a last one. */
  lemma {:induction false} DueAt(c: Config, v: nat, k: nat)
    requires c.batch > 0 && k * c.batch < v <= (k + 1) * c.batch
    ensures Due(c, v) == (k + 1) * c.fillSize - v
  {
    if k > 0 {
      Spread(c.batch, k - 1, 1);
      Spread(c.batch, k, 1);
      Spread(c.fillSize, k, 1);
      AtLeast(k, c.batch);
      assert (k - 1) * c.batch < v - c.batch <= k * c.batch;
      assert k * c.batch >= c.batch by {
        AtLeast(c.batch, k);
      }
      DueAt(c, v - c.batch, k - 1);
    }
  }

  /** Working off the rest of a backlog, batch by batch. */
  lemma {:induction false} Backlog(c: Config, states: seq<State>, held: int, v: nat) returns (more: seq<State>)
    requires c.frees && 0 < c.fillSize <= c.batch && held <= c.rxSize && 0 < v <= held - c.fillSize
    requires Reaches(c, states, Idle, Between(c, c.fillSize, held, v)) && c.fillSize < held <= c.num - c.fillSize
    ensures Reaches(c, more, Idle, Between(c, c.fillSize, held + Due(c, v), 0))
    decreases v
  {
    hide Reaches;
    var n := Between(c, c.fillSize, held, v);
    more := CallRun(c, states, c.fillSize, held, v);
    if v > c.batch {
      var held' := held + c.fillSize - c.batch;
      KnownUnread(c, more, held', v - c.batch);
      more := Backlog(c, more, held', v - c.batch);
    }
  }

  /** The handler never believes more packets unread than there are. */
  lemma KnownUnread(c: Config, states: seq<State>, held: int, v: nat)
    requires Reaches(c, states, Idle, Between(c, c.fillSize, held, v))
    ensures v <= held - c.fillSize
  {
    hide Run, Conserved, Supplied;
  }

  /** From an empty cache: v packets are let through before the next poll. */
  lemma Period(c: Config, states: seq<State>, held: int, v: nat) returns (more: seq<State>)
    requires c.frees && 0 < c.fillSize <= c.batch && c.fillSize <= held <= c.num - c.fillSize && held <= c.rxSize
    requires Reaches(c, states, Idle, Between(c, c.fillSize, held, 0)) && 0 < v && held - c.fillSize <= v <= held
    ensures Reaches(c, more, Idle, Between(c, c.fillSize, held + Due(c, v), 0))
  {
    hide Reaches;
    var n := Between(c, c.fillSize, held, 0);
    var d := v - n.rx;
    more := DrainRun(c, states, Idle, n, d);
    assert n.(fill := n.fill - d, rx := n.rx + d) == Between(c, held - v, held, 0);
    more := CallRun(c, more, held - v, held, 0);
    if v > c.batch {
      var held' := held + c.fillSize - c.batch;
      KnownUnread(c, more, held', v - c.batch);
      more := Backlog(c, more, held', v - c.batch);
    }
  }

  /** How often a full batch can come before a smaller one and the frames in the rings still grow. */
  function Spare(c: Config): nat
    requires 2 <= c.fillSize < c.batch
  {
    (c.fillSize - 2) / (c.batch - c.fillSize)
  }

  lemma SpareBounds(c: Config)
    requires 2 <= c.fillSize < c.batch
    ensures Spare(c) * (c.batch - c.fillSize) <= c.fillSize - 2 < (Spare(c) + 1) * (c.batch - c.fillSize)
  {
    Divides(c.fillSize - 2, c.batch - c.fillSize);
    Spread(c.batch - c.fillSize, Spare(c), 1);
  }

  /** The most frames that large batches let the two rings hold between calls. */
  function Peak(c: Config): nat
    requires 2 <= c.fillSize < c.batch
  {
    (Spare(c) + 2) * c.fillSize
  }

  /** Letting through one packet less than a multiple of the fill ring gains one frame. */
  lemma DueOne(c: Config, k: nat)
    requires 2 <= c.fillSize <= c.batch && (c.fillSize < c.batch ==> k <= Spare(c))
    ensures (k + 1) * c.fillSize >= 2 && Due(c, (k + 1) * c.fillSize - 1) == 1
  {
    hide Due;
    var f, b := c.fillSize, c.batch;
    Spread(k, f, b - f);
    Spread(f, k, 1);
    AtLeast(f, k + 1);
    if f < b {
      SpareBounds(c);
      Grows(b - f, k, Spare(c));
    }
    assert k * (b - f) <= f - 2;
    Grows(k + 1, f, b);
    DueAt(c, (k + 1) * f - 1, k);
  }

  lemma Grows(n: nat, a: nat, b: nat)
    requires a <= b
    ensures n * a <= n * b && a * n <= b * n
  {
    Spread(n, a, b - a);
  }

  /** With large batches the frames in the rings still grow, one at a time, up to the peak. */
  lemma {:induction false} LargeBatches(c: Config, states: seq<State>, held: int) returns (more: seq<State>)
    requires c.frees && 2 <= c.fillSize <= c.batch && c.num < c.fillSize + c.rxSize
    requires c.fillSize < c.batch ==> c.num < c.fillSize + Peak(c)
    requires Reaches(c, states, Idle, Between(c, c.fillSize, held, 0)) && c.fillSize <= held <= c.num - c.fillSize
    ensures Run(c, more) && !Supplied(c, more[|more| - 1])
    decreases c.num - held
  {
    hide Reaches, Run, Supplied, Due, Spare, Peak;
    var f := c.fillSize;
    var r: nat := held - f;
    var k: nat := r / f;
    Divides(r, f);
    Spread(f, k, 1);
    BelowPeak(c, r, k);
    DueOne(c, k);
    more := Period(c, states, held, (k + 1) * f - 1);
    if held + 1 <= c.num - f {
      more := LargeBatches(c, more, held + 1);
    } else {
      more := Finish(c, more, held + 1, 0);
    }
  }

  lemma BelowPeak(c: Config, r: nat, k: nat)
    requires 2 <= c.fillSize <= c.batch && k * c.fillSize <= r && r + c.fillSize <= c.num - c.fillSize
    requires c.fillSize < c.batch ==> c.num < c.fillSize + Peak(c)
    ensures c.fillSize < c.batch ==> k <= Spare(c)
  {
    if c.fillSize < c.batch && k > Spare(c) {
      Spread(c.fillSize, Spare(c) + 1, 1);
      Grows(c.fillSize, Spare(c) + 1, k);
    }
  }

  lemma Begins(c: Config) returns (states: seq<State>)
    requires ConfigOk(c) && c.fillSize <= c.num
    ensures Reaches(c, states, Idle, Between(c, c.fillSize, c.fillSize, 0))
  {
    hide Sizes;
    states := [Initial(c)];
    StartSizes(c);
  }

  lemma StartSizes(c: Config)
    requires ConfigOk(c) && c.fillSize <= c.num
    ensures Sizes(c, Initial(c), Idle, Between(c, c.fillSize, c.fillSize, 0))
  {
    InitialInv(c);
    AllFrames(c.num);
    PoppedFrames(All(c.num), c.fillSize);
    hide Inv, FramesOf;
  }

  /** When the fill ring takes all frames, a first call finds none to refill with, and frees one. */
  lemma FullRing(c: Config, states: seq<State>) returns (more: seq<State>)
    requires c.frees && c.batch > 0 && 2 <= c.fillSize == c.num && c.rxSize > 0
    requires Reaches(c, states, Idle, Between(c, c.fillSize, c.fillSize, 0))
    ensures Run(c, more) && !Supplied(c, more[|more| - 1])
  {
    hide Reaches, Run, Supplied;
    var n := Between(c, c.fillSize, c.fillSize, 0);
    more := DrainRun(c, states, Idle, n, 1);
    n := n.(fill := n.fill - 1, rx := 1);
    more := PollRun(c, more, n);
    more := PlanNothing(c, more, 1, n);
    more := ProcessRun(c, more, 1, n, 1);
    n := n.(stack := 1);
    more := ReleaseRun(c, more, 1, n);
    n := n.(rx := 0);
    more := DrainRun(c, more, Idle, n, 1);
    n := n.(fill := n.fill - 1, rx := 1);
    assert n == Between(c, c.fillSize - 2, c.num - 1, 0);
    more := LastPlan(c, more, c.fillSize - 2, c.num - 1, 0);
  }

  /** The frames last: both rings fit, or, with batches larger than the fill ring, the fill ring and all that
      can ever be in the two rings between calls. */
  predicate Lasts(c: Config)
    requires c.fillSize >= 2
  {
    c.fillSize + c.rxSize <= c.num || (c.batch > c.fillSize && c.fillSize + Peak(c) <= c.num)
  }

  /** Otherwise some run plans more entries than it has frames. */
  lemma ShortRun(c: Config) returns (states: seq<State>)
    requires ConfigOk(c) && c.frees && 2 <= c.fillSize <= c.num && !Lasts(c)
    ensures Run(c, states) && !Supplied(c, states[|states| - 1])
  {
    hide Reaches, Run, Supplied, Spare, Peak;
    states := Begins(c);
    var f := c.fillSize;
    if f == c.num {
      states := FullRing(c, states);
    } else if c.num < f + f {
      states := Finish(c, states, f, 0);
    } else if c.batch < f {
      states := SmallBatches(c, states, f, 0);
    } else {
      states := LargeBatches(c, states, f);
    }
  }

  // ---------------------------------------------------------------- the peak is never passed

  /** Frames in the two rings, counted as they will be after the call under way. */
  function Load(c: Config, s: State): int { |s.fill| + |s.rx| + Coming(c, s.pc) }

  function Coming(c: Config, pc: Pc): int {
    match pc
    case Idle => 0
    case Peeked(n) => c.fillSize - n
    case Filling(n, k) => k - n
    case Handling(n, _) => 0 - n
  }

  ghost predicate Held(c: Config, s: State)
    requires 2 <= c.fillSize < c.batch
  {
    && s.room == 0 && Load(c, s) <= Peak(c) && Load(c, s) + Due(c, s.avail) <= Peak(c)
    && (s.pc.Idle? || s.pc.Peeked? ==> |s.fill| + |s.rx| <= Peak(c))
  }

  /** A fresh backlog either shrinks the load or cannot lift it above the peak. */
  lemma DueBound(c: Config, v: nat)
    requires 2 <= c.fillSize < c.batch && v > 0
    ensures Due(c, v) <= 0 || v + c.fillSize + Due(c, v) <= Peak(c)
  {
    hide Due, Spare;
    var f, b := c.fillSize, c.batch;
    var k: nat := (v - 1) / b;
    Divides(v - 1, b);
    Spread(b, k, 1);
    DueAt(c, v, k);
    if k <= Spare(c) {
      Spread(f, k + 1, 1);
      Grows(f, k + 2, Spare(c) + 2);
    } else {
      SpareBounds(c);
      Grows(b - f, Spare(c) + 1, k);
      Spread(k, f, b - f);
      Spread(f, k, 1);
    }
  }

  lemma PollHolds(c: Config, s: State, s': State)
    requires 2 <= c.fillSize < c.batch && Inv(c, s) && Held(c, s) && Poll(c, s, s')
    ensures Held(c, s')
  {
    hide Peak, Conserved;
    if s.avail == 0 && |s.rx| > 0 {
      DueBound(c, |s.rx|);
    }
  }

  lemma PlanHolds(c: Config, s: State, s': State)
    requires ConfigOk(c) && c.frees && 2 <= c.fillSize < c.batch && c.fillSize + Peak(c) <= c.num
    requires Inv(c, s) && Supplied(c, s) && Held(c, s) && Plan(c, s, s')
    ensures Held(c, s') && Supplied(c, s')
  {
    hide Peak, Due, Conserved;
    Census(c, s);
  }

  lemma HeldStep(c: Config, s: State, s': State)
    requires ConfigOk(c) && c.frees && 2 <= c.fillSize < c.batch && c.fillSize + Peak(c) <= c.num
    requires Inv(c, s) && Supplied(c, s) && Held(c, s) && Step(c, s, s')
    ensures Inv(c, s') && Supplied(c, s') && Held(c, s')
  {
    hide FramesOf, Conserved, Peak, Due;
    if Kernel(c, s, s') {
      KernelKeeps(c, s, s');
    } else if Poll(c, s, s') {
      PollKeeps(c, s, s');
      PollHolds(c, s, s');
    } else if Plan(c, s, s') {
      PlanKeeps(c, s, s');
      PlanHolds(c, s, s');
    } else if Stage(c, s, s') {
      StageKeeps(c, s, s');
    } else if Submit(c, s, s') {
      SubmitKeeps(c, s, s');
    } else if Process(c, s, s') {
      ProcessKeeps(c, s, s');
    } else {
      ReleaseKeeps(c, s, s');
    }
  }

  /** With batches larger than the fill ring the rings never hold more than the peak between calls. */
  lemma {:induction false} PeakHolds(c: Config, states: seq<State>, i: nat)
    requires ConfigOk(c) && c.frees && 2 <= c.fillSize < c.batch && c.fillSize + Peak(c) <= c.num
    requires Run(c, states) && i < |states|
    ensures Inv(c, states[i]) && Supplied(c, states[i]) && Held(c, states[i])
    decreases i
  {
    hide Step, Inv, Supplied, Held;
    if i == 0 {
      StartHeld(c);
    } else {
      PeakHolds(c, states, i - 1);
      assert Step(c, states[i - 1], states[i - 1 + 1]);
      HeldStep(c, states[i - 1], states[i]);
    }
  }

  lemma StartHeld(c: Config)
    requires ConfigOk(c) && 2 <= c.fillSize < c.batch && c.fillSize + Peak(c) <= c.num
    ensures Inv(c, Initial(c)) && Supplied(c, Initial(c)) && Held(c, Initial(c))
  {
    hide Initial, Spare, Inv, Supplied;
    StartSizes(c);
    Grows(c.fillSize, 2, Spare(c) + 2);
  }

  ghost predicate AlwaysSupplied(c: Config) {
    forall states: seq<State>, i: nat :: Run(c, states) && i < |states| ==> Supplied(c, states[i])
  }

  /** A fill ring of two or more entries is always supplied exactly when the frames last. */
  lemma WideRingIff(c: Config)
    requires ConfigOk(c) && c.frees && c.fillSize >= 2
    ensures AlwaysSupplied(c) <==> Lasts(c)
  {
    hide Supplied, Run, Peak, Held;
    if Lasts(c) {
      forall states: seq<State>, i: nat | Run(c, states) && i < |states|
        ensures Supplied(c, states[i])
      {
        if c.fillSize + c.rxSize <= c.num {
          RunInv(c, states, i);
        } else {
          PeakHolds(c, states, i);
        }
      }
    } else if c.fillSize <= c.num {
      var states := ShortRun(c);
      RunNotEmpty(c, states);
      var last: nat := |states| - 1;
      assert !Supplied(c, states[last]);
    } else {
      var states := Overfull(c);
      var first: nat := 0;
      assert !Supplied(c, states[first]);
    }
  }

  /** A fill ring larger than all frames starts with entries that are no frames. */
  lemma Overfull(c: Config) returns (states: seq<State>)
    requires ConfigOk(c) && c.num < c.fillSize
    ensures Run(c, states) && states != [] && !Supplied(c, states[0])
  {
    states := [Initial(c)];
    PoppedInvalid(All(c.num), c.fillSize);
  }

  lemma {:induction false} PoppedInvalid(stack: seq<nat>, k: nat)
    requires |stack| < k
    ensures INVALID in Popped(stack, k)
    decreases k
  {
    hide Popped;
    UnfoldPopped(stack, k);
    if stack != [] {
      PoppedInvalid(stack[..|stack| - 1], k - 1);
    }
  }

  // ---------------------------------------------------------------- a fill ring of one entry

  /** Nothing is cached, and a fill ring of at most one entry is never planned beyond the stack. */
  lemma {:induction false} OneEntry(c: Config, states: seq<State>, i: nat)
    requires ConfigOk(c) && c.fillSize <= 1 && c.fillSize <= c.num && Run(c, states) && i < |states|
    ensures Inv(c, states[i]) && Supplied(c, states[i]) && states[i].room == 0
    decreases i
  {
    if i == 0 {
      InitialInv(c);
      AllFrames(c.num);
      PoppedFrames(All(c.num), c.fillSize);
    } else {
      OneEntry(c, states, i - 1);
      assert Step(c, states[i - 1], states[i - 1 + 1]);
      OneEntryStep(c, states[i - 1], states[i]);
    }
  }

  lemma OneEntryStep(c: Config, s: State, s': State)
    requires c.fillSize <= 1 && Inv(c, s) && Supplied(c, s) && s.room == 0 && Step(c, s, s')
    ensures Inv(c, s') && Supplied(c, s') && s'.room == 0
  {
    hide FramesOf, Conserved;
    if Kernel(c, s, s') {
      KernelKeeps(c, s, s');
    } else if Poll(c, s, s') {
      PollKeeps(c, s, s');
    } else if Plan(c, s, s') {
      PlanKeeps(c, s, s');
    } else if Stage(c, s, s') {
      StageKeeps(c, s, s');
    } else if Submit(c, s, s') {
      SubmitKeeps(c, s, s');
    } else if Process(c, s, s') {
      ProcessKeeps(c, s, s');
    } else {
      ReleaseKeeps(c, s, s');
    }
  }

  /** With one entry the RX ring does not matter. */
  lemma OneEntryIff(c: Config)
    requires ConfigOk(c) && c.fillSize <= 1
    ensures AlwaysSupplied(c) <==> c.fillSize <= c.num
  {
    hide Supplied, Run;
    if c.fillSize <= c.num {
      forall states: seq<State>, i: nat | Run(c, states) && i < |states|
        ensures Supplied(c, states[i])
      {
        OneEntry(c, states, i);
      }
    } else {
      var states := Overfull(c);
      var first: nat := 0;
      assert !Supplied(c, states[first]);
    }
  }

  // ---------------------------------------------------------------- the exact bound

  /** Enough frames, for every size of the rings, of the batches and of the memory. */
  predicate Sufficient(c: Config) { if c.fillSize >= 2 then Lasts(c) else c.fillSize <= c.num }

  /** The handler that frees is never short of frames, in any state of any run, exactly then; with batches no
      larger than the fill ring, that is when the two rings together hold no more than all frames. */
  lemma SupplyIff(c: Config)
    requires ConfigOk(c) && c.frees
    ensures AlwaysSupplied(c) <==> Sufficient(c)
    ensures c.fillSize >= 2 && c.batch <= c.fillSize ==> (AlwaysSupplied(c) <==> c.fillSize + c.rxSize <= c.num)
  {
    hide AlwaysSupplied, Peak;
    if c.fillSize >= 2 {
      WideRingIff(c);
    } else {
      OneEntryIff(c);
    }
  }

  /** With the freeing handler and enough frames: in every state of every run the frames are
      partitioned among the stack and the rings, the assertion in xsk_free_umem_frame holds, and the
      allocator never runs dry while the fill ring is written. */
  lemma FreeingHandlerIsSafe(c: Config, states: seq<State>, i: nat)
    requires ConfigOk(c) && c.frees && Sufficient(c) && Run(c, states) && i < |states|
    ensures var s := states[i];
            && Handled(s.pc) <= |s.rx|
            && FramesOf(s.stack) + FramesOf(s.fill) + FramesOf(s.staged) + FramesOf(s.rx[Handled(s.pc)..])
               == FramesOf(All(c.num))
            && |s.stack| + |s.fill| + |s.staged| + |s.rx| - Handled(s.pc) == c.num
            && INVALID !in s.fill && INVALID !in s.staged
            && (s.pc.Handling? && s.pc.i < s.pc.n ==> |s.stack| < c.num)
            && (s.pc.Filling? && |s.staged| < s.pc.k ==> s.stack != [])
  {
    SupplyIff(c);
    RunInv(c, states, i);
    assert Supplied(c, states[i]);
    Census(c, states[i]);
    FramesCount([]);
    hide FramesOf;
  }

  /** The configuration used has enough frames. */
  lemma DefaultsSuffice()
    ensures ConfigOk(AfXdpUser) && Enough(AfXdpUser) && ConfigOk(Adaptor) && Sufficient(AfXdpUser)
    ensures AfXdpUser == Config(4096, 2048, 2048, 64, true) && Adaptor == Config(4096, 2048, 2048, 64, false)
    ensures FRAME_SIZE == 4096 && INVALID == 0xffff_ffff_ffff_ffff
  {
  }

  // ---------------------------------------------------------------- the code

  /** A run of steps between two states. */
  ghost predicate Trace(c: Config, from: State, states: seq<State>) {
    && states != [] && states[0] == from
    && forall i :: 0 <= i < |states| - 1 ==> Step(c, states[i], states[i + 1])
  }

  ghost function Last(states: seq<State>): State
    requires states != []
  {
    states[|states| - 1]
  }

  lemma TraceStep(c: Config, from: State, states: seq<State>, s: State)
    requires Trace(c, from, states) && Step(c, Last(states), s)
    ensures Trace(c, from, states + [s]) && Last(states + [s]) == s
  {
    hide Step;
    var more := states + [s];
    forall i | 0 <= i < |more| - 1
      ensures Step(c, more[i], more[i + 1])
    {
      if i < |states| - 1 {
        assert more[i] == states[i] && more[i + 1] == states[i + 1];
      }
    }
  }

  /** What the handler may rely on. */
  ghost predicate Ready(c: Config, s: State) {
    ConfigOk(c) && Inv(c, s) && (c.frees ==> Enough(c) && Supplied(c, s))
  }

  ghost predicate Follows(c: Config, from: State, states: seq<State>, s: State) {
    Trace(c, from, states) && Last(states) == s && Ready(c, s)
  }

  lemma Begin(c: Config, s: State) returns (states: seq<State>)
    requires Ready(c, s)
    ensures Follows(c, s, states, s)
  {
    states := [s];
  }

  lemma FollowsMeans(c: Config, from: State, states: seq<State>, s: State)
    requires Follows(c, from, states, s)
    ensures Trace(c, from, states) && Last(states) == s && Ready(c, s)
  {
  }

  lemma FollowStep(c: Config, from: State, states: seq<State>, s: State, s': State) returns (more: seq<State>)
    requires Follows(c, from, states, s) && Step(c, s, s')
    ensures Follows(c, from, more, s')
  {
    hide Step, Trace, Last, Inv, Supplied;
    TraceStep(c, from, states, s');
    StepKeeps(c, s, s');
    more := states + [s'];
  }

  lemma FollowPoll(c: Config, from: State, states: seq<State>, s: State, s': State) returns (more: seq<State>)
    requires Follows(c, from, states, s) && Poll(c, s, s')
    ensures Follows(c, from, more, s')
  {
    hide Follows, Poll, Kernel, Plan, Stage, Submit, Process, Release;
    more := FollowStep(c, from, states, s, s');
  }

  lemma FillHasRoom(c: Config, from: State, states: seq<State>, s: State)
    requires Follows(c, from, states, s) && s.pc.Peeked?
    ensures |s.fill| + s.room <= c.fillSize && s.staged == []
  {
    hide Trace, Conserved;
  }

  /** The next packet is there, and there is room on the stack for its frame. */
  lemma CanProcess(c: Config, from: State, states: seq<State>, s: State)
    requires Follows(c, from, states, s) && s.pc.Handling?
    ensures s.pc.n <= |s.rx| && (c.frees && s.pc.i < s.pc.n ==> |s.stack| < c.num)
  {
    hide Trace, Conserved;
    if c.frees {
      Census(c, s);
    }
  }

  /** How many packets a call takes. */
  function Taken(c: Config, s: State): nat {
    var avail := if s.avail == 0 then |s.rx| else s.avail;
    if avail > c.batch then c.batch else avail
  }

  function Planned(c: Config, s: State): nat { if FreeEntries(c, s) > 0 then FreeEntries(c, s) else 0 }

  function Left(stack: seq<nat>, k: nat): seq<nat> { stack[..if k <= |stack| then |stack| - k else 0] }

  /** What a call with n packets leaves: the fill ring stuffed from the top of the stack, the packets gone
      from the RX ring, and their frames on the stack or kept. */
  ghost predicate Served(c: Config, a: State, b: State, n: nat)
    requires n <= |a.rx|
  {
    var k := Planned(c, a);
    && b.fill == a.fill + Popped(a.stack, k)
    && b.rx == a.rx[n..]
    && b.stack == Left(a.stack, k) + (if c.frees then a.rx[..n] else [])
    && b.kept == a.kept + (if c.frees then [] else a.rx[..n])
  }

  lemma TakenFits(c: Config, s: State)
    requires Ready(c, s) && s.pc.Idle?
    ensures Taken(c, s) <= |s.rx|
  {
    hide Conserved, Supplied;
  }

  class Socket {
    const c: Config
    const addr: array<nat>
    var free: nat
    var fill: seq<nat>
    var staged: seq<nat>
    var rx: seq<nat>
    var room: nat
    var avail: nat
    var kept: seq<nat>

    ghost predicate Valid()
      reads this
    {
      free <= addr.Length == c.num
    }

    ghost function Stack(): seq<nat>
      requires Valid()
      reads this, addr
    {
      addr[..free]
    }

    ghost function View(pc: Pc): State
      requires Valid()
      reads this, addr
    {
      State(Stack(), fill, staged, rx, room, avail, kept, pc)
    }

    /** The frame set-up in xsk_configure_socket. */
    constructor (c: Config)
      ensures this.c == c && Valid() && fresh(addr) && View(Idle) == Initial(c)
    {
      this.c := c;
      addr := new nat[c.num];
      free, fill, staged, rx, room, avail, kept := 0, [], [], [], 0, 0, [];
      new;
      InitFrames();
      StuffRing();
    }

    method InitFrames()
      requires addr.Length == c.num
      modifies this`free, addr
      ensures Valid() && Stack() == All(c.num)
    {
      var i := 0;
      while i < c.num
        invariant i <= c.num
        invariant forall j :: 0 <= j < i ==> addr[j] == j * FRAME_SIZE
      {
        addr[i] := i * FRAME_SIZE;
        i := i + 1;
      }
      free := c.num;
    }

    method StuffRing()
      requires Valid() && fill == []
      modifies this`free, this`fill, addr
      ensures Valid() && fill == Popped(old(Stack()), c.fillSize)
      ensures Stack() == old(Stack())[..if c.fillSize <= old(free) then old(free) - c.fillSize else 0]
    {
      hide Popped;
      var i: nat := 0;
      ghost var all := Stack();
      assert all[..|all|] == all && [] + Popped(all, c.fillSize) == Popped(all, c.fillSize);
      while i < c.fillSize
        invariant i <= c.fillSize && Valid()
        invariant fill + Popped(Stack(), c.fillSize - i) == Popped(old(Stack()), c.fillSize)
        invariant Stack() == old(Stack())[..if i <= old(free) then old(free) - i else 0]
      {
        ghost var before := Stack();
        var frame := Alloc();
        UnfoldPopped(before, c.fillSize - i);
        Shift(fill, frame, Popped(Stack(), c.fillSize - i - 1));
        fill := fill + [frame];
        i := i + 1;
      }
      UnfoldNone(Stack());
    }

    /** xsk_alloc_umem_frame */
    method Alloc() returns (frame: nat)
      requires Valid()
      modifies this`free, addr
      ensures Valid()
      ensures old(Stack()) == [] ==> frame == INVALID && Stack() == []
      ensures old(Stack()) != [] ==> frame == old(Stack())[old(free) - 1] && Stack() == old(Stack())[..old(free) - 1]
    {
      if free == 0 {
        return INVALID;
      }
      free := free - 1;
      frame := addr[free];
      addr[free] := INVALID;
    }

    /** xsk_free_umem_frame, with the assertion it makes */
    method Free(frame: nat)
      requires Valid() && free < c.num
      modifies this`free, addr
      ensures Valid() && Stack() == old(Stack()) + [frame]
    {
      addr[free] := frame;
      free := free + 1;
    }

    /** handle_receive_packets, in both variants.  Its effect is a run of the protocol, so the invariant
        survives, and the assertion in Free never fails. */
    method HandleReceive() returns (ghost trace: seq<State>)
      requires Valid() && Ready(c, View(Idle))
      modifies this, addr
      ensures Valid() && Trace(c, old(View(Idle)), trace) && Last(trace) == View(Idle) && Ready(c, View(Idle))
      ensures Taken(c, old(View(Idle))) <= old(|rx|)
      ensures var n := Taken(c, old(View(Idle)));
              if n == 0 then Stack() == old(Stack()) && fill == old(fill) && rx == old(rx) && kept == old(kept)
              else Served(c, old(View(Idle)), View(Idle), n)
      ensures old(room) == 0 && Taken(c, old(View(Idle))) > 0 ==>
                |fill| == if old(Stack()) == [] then |old(fill)| else c.fillSize
    {
      hide Ready, Follows, Trace, Last, Step, Plan, Stage, Submit, Process, Release, Inv, Popped;
      ghost var from := View(Idle);
      trace := Begin(c, from);
      if avail == 0 {
        avail := |rx|;
      }
      var rcvd := if avail > c.batch then c.batch else avail;
      TakenFits(c, from);
      if rcvd == 0 {
        trace := FollowPoll(c, from, trace, from, View(Idle));
        FollowsMeans(c, from, trace, View(Idle));
        return;
      }
      avail := avail - rcvd;
      trace := FollowPoll(c, from, trace, from, View(Peeked(rcvd)));
      ghost var k := Planned(c, from);
      assert Planned(c, View(Peeked(rcvd))) == k;
      PoppedAt(Stack(), k);
      FillHasRoom(c, from, trace, View(Peeked(rcvd)));
      trace := Refill(rcvd, from, trace);
      trace := ProcessAll(rcvd, from, trace);
      FollowsMeans(c, from, trace, View(Idle));
    }

    /** Stuffs the fill ring with as many frames as it has free entries. */
    method Refill(rcvd: nat, ghost from: State, ghost trace: seq<State>) returns (ghost more: seq<State>)
      requires Valid() && Follows(c, from, trace, View(Peeked(rcvd)))
      modifies this, addr
      ensures Valid() && Follows(c, from, more, View(Handling(rcvd, 0)))
      ensures rx == old(rx) && kept == old(kept)
      ensures var k := Planned(c, old(View(Peeked(rcvd))));
              fill == old(fill) + Popped(old(Stack()), k) && Stack() == Left(old(Stack()), k)
    {
      hide Ready, Follows, Trace, Last, Inv, Popped;
      ghost var s := View(Peeked(rcvd));
      FillHasRoom(c, from, trace, s);
      if room < free {
        room := c.fillSize - |fill|;
      }
      var stock := room;
      room := 0;
      UnfoldNone(Stack());
      if stock == 0 {
        assert Plan(c, s, View(Handling(rcvd, 0)));
        more := FollowStep(c, from, trace, s, View(Handling(rcvd, 0)));
        return;
      }
      assert Plan(c, s, View(Filling(rcvd, stock)));
      more := FollowStep(c, from, trace, s, View(Filling(rcvd, stock)));
      more := StageAll(rcvd, stock, from, more);
      s := View(Filling(rcvd, stock));
      fill, staged := fill + staged, [];
      assert Submit(c, s, View(Handling(rcvd, 0)));
      more := FollowStep(c, from, more, s, View(Handling(rcvd, 0)));
    }

    /** The loop that writes the reserved entries. */
    method StageAll(rcvd: nat, stock: nat, ghost from: State, ghost trace: seq<State>) returns (ghost more: seq<State>)
      requires Valid() && staged == [] && Follows(c, from, trace, View(Filling(rcvd, stock)))
      modifies this`free, this`staged, addr
      ensures Valid() && |staged| == stock && Follows(c, from, more, View(Filling(rcvd, stock)))
      ensures staged == Popped(old(Stack()), stock) && Stack() == Left(old(Stack()), stock)
    {
      hide Ready, Follows, Trace, Last, Inv, Popped;
      var i: nat := 0;
      more := trace;
      ghost var all := Stack();
      assert [] + Popped(all, stock) == Popped(all, stock) && Left(all, 0) == all;
      while i < stock
        invariant i <= stock && |staged| == i && Valid()
        invariant Follows(c, from, more, View(Filling(rcvd, stock)))
        invariant Stack() == Left(all, i) && staged + Popped(Stack(), stock - i) == Popped(all, stock)
      {
        ghost var s := View(Filling(rcvd, stock));
        UnfoldPopped(Stack(), stock - i);
        var frame := Alloc();
        Shift(staged, frame, Popped(Stack(), stock - i - 1));
        staged := staged + [frame];
        assert Stage(c, s, View(Filling(rcvd, stock)));
        more := FollowStep(c, from, more, s, View(Filling(rcvd, stock)));
        i := i + 1;
      }
      UnfoldNone(Stack());
    }

    method ProcessAll(rcvd: nat, ghost from: State, ghost trace: seq<State>) returns (ghost more: seq<State>)
      requires Valid() && Follows(c, from, trace, View(Handling(rcvd, 0)))
      modifies this, addr
      ensures Valid() && Follows(c, from, more, View(Idle))
      ensures fill == old(fill) && rcvd <= old(|rx|) && rx == old(rx)[rcvd..]
      ensures Stack() == old(Stack()) + (if c.frees then old(rx)[..rcvd] else [])
      ensures kept == old(kept) + (if c.frees then [] else old(rx)[..rcvd])
    {
      hide Ready, Follows, Trace, Last, Inv;
      CanProcess(c, from, trace, View(Handling(rcvd, 0)));
      more := trace;
      var i: nat := 0;
      while i < rcvd
        invariant i <= rcvd <= |rx| && Valid() && rx == old(rx) && fill == old(fill)
        invariant Follows(c, from, more, View(Handling(rcvd, i)))
        invariant Stack() == old(Stack()) + (if c.frees then rx[..i] else [])
        invariant kept == old(kept) + (if c.frees then [] else rx[..i])
      {
        assert rx[..i + 1] == rx[..i] + [rx[i]];
        ghost var s := View(Handling(rcvd, i));
        CanProcess(c, from, more, s);
        if c.frees {
          Free(rx[i]);
        } else {
          kept := kept + [rx[i]];
        }
        i := i + 1;
        assert Process(c, s, View(Handling(rcvd, i)));
        more := FollowStep(c, from, more, s, View(Handling(rcvd, i)));
      }
      ghost var s := View(Handling(rcvd, rcvd));
      CanProcess(c, from, more, s);
      rx := rx[rcvd..];
      assert Release(c, s, View(Idle));
      more := FollowStep(c, from, more, s, View(Idle));
    }
  }
}
