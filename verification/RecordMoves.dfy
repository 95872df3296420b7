/** In-place compaction of the type section (lib/libbpf/src/btf.c:2683-2731), on memory.

    `mem` is the type section, `types[i]` the position of record i.  The first word of a record
    tells its length, as the info word does for btf_type_size. */
module RecordMoves {
  import opened Btf
  import Compaction

  /** memmove towards lower addresses. */
  method MoveDown(mem: array<nat>, dst: nat, src: nat, len: nat)
    requires dst <= src && src + len <= mem.Length
    modifies mem
    ensures forall k :: dst <= k < dst + len ==> mem[k] == old(mem[k - dst + src])
    ensures forall k :: 0 <= k < mem.Length && !(dst <= k < dst + len) ==> mem[k] == old(mem[k])
  {
    for i := 0 to len
      invariant forall k :: dst <= k < dst + i ==> mem[k] == old(mem[k - dst + src])
      invariant forall k :: 0 <= k < mem.Length && !(dst <= k < dst + i) ==> mem[k] == old(mem[k])
    {
      mem[dst + i] := mem[src + i];
    }
  }

  /** Records 1..n lie back to back, each starting with its length. */
  ghost predicate Layout(m: seq<nat>, pos: seq<nat>, lens: seq<nat>) {
    && |pos| == |lens| > 0
    && (forall i :: 1 <= i < |pos| ==> lens[i] > 0 && pos[i] + lens[i] <= |m| && m[pos[i]] == lens[i])
    && (forall i, j :: 1 <= i < j < |pos| ==> pos[i] + lens[i] <= pos[j])
  }

  /** Number of kept records among 1..i. */
  ghost function Kept(keep: seq<bool>, i: nat): nat
    requires i < |keep|
  {
    if i == 0 then 0 else Kept(keep, i - 1) + (if keep[i] then 1 else 0)
  }

  /** Words that the kept records among 1..i take up. */
  ghost function Room(keep: seq<bool>, lens: seq<nat>, i: nat): nat
    requires i < |keep| == |lens|
  {
    if i == 0 then 0 else Room(keep, lens, i - 1) + (if keep[i] then lens[i] else 0)
  }

  /** Kept record i, moved: found through the index, word for word the record it was. */
  ghost predicate Arrived(m: seq<nat>, pos: seq<nat>, lens: seq<nat>, keep: seq<bool>, m': seq<nat>, pos': seq<nat>,
                          i: nat)
    requires 1 <= i < |pos| == |lens| == |keep|
  {
    var j, at := Kept(keep, i), Room(keep, lens, i - 1);
    && 1 <= j < |pos'| && pos'[j] == at
    && at + lens[i] <= |m'| && pos[i] + lens[i] <= |m|
    && m'[at..at + lens[i]] == m[pos[i]..pos[i] + lens[i]]
  }

  lemma {:induction false} KeptBounds(keep: seq<bool>, lens: seq<nat>, i: nat, j: nat)
    requires i <= j < |keep| == |lens|
    ensures Kept(keep, i) <= Kept(keep, j) <= Kept(keep, i) + (j - i) && Room(keep, lens, i) <= Room(keep, lens, j)
    ensures i < j && keep[j] ==> Kept(keep, i) < Kept(keep, j)
    decreases j
  {
    if i < j {
      KeptBounds(keep, lens, i, j - 1);
    }
  }

  /** The write position never passes the record that is read next. */
  lemma {:induction false} RoomBelow(m: seq<nat>, pos: seq<nat>, lens: seq<nat>, keep: seq<bool>, i: nat)
    requires Layout(m, pos, lens) && |keep| == |pos| && 1 <= i < |pos|
    ensures Room(keep, lens, i - 1) <= pos[i]
  {
    if i > 1 {
      RoomBelow(m, pos, lens, keep, i - 1);
    }
  }

  ghost predicate Halfway(m: seq<nat>, pos: seq<nat>, lens: seq<nat>, keep: seq<bool>, m': seq<nat>, pos': seq<nat>,
                          i: nat)
    requires Layout(m, pos, lens) && |keep| == |pos| && 1 <= i <= |pos|
  {
    && |m'| == |m| && |pos'| == |pos|
    && (forall k :: Room(keep, lens, i - 1) <= k < |m| ==> m'[k] == m[k])
    && (forall k :: Kept(keep, i - 1) < k < |pos| ==> pos'[k] == pos[k])
    && (forall k :: 1 <= k < i && keep[k] ==> Arrived(m, pos, lens, keep, m', pos', k))
  }

  lemma SkipOne(m: seq<nat>, pos: seq<nat>, lens: seq<nat>, keep: seq<bool>, m': seq<nat>, pos': seq<nat>, i: nat)
    requires Layout(m, pos, lens) && |keep| == |pos| && 1 <= i < |pos| && Halfway(m, pos, lens, keep, m', pos', i)
    requires !keep[i]
    ensures Halfway(m, pos, lens, keep, m', pos', i + 1)
  {
  }

  lemma MoveOne(m: seq<nat>, pos: seq<nat>, lens: seq<nat>, keep: seq<bool>, m1: seq<nat>, pos1: seq<nat>,
                m2: seq<nat>, pos2: seq<nat>, i: nat)
    requires Layout(m, pos, lens) && |keep| == |pos| && 1 <= i < |pos| && Halfway(m, pos, lens, keep, m1, pos1, i)
    requires keep[i]
    requires |m2| == |m1| && Kept(keep, i) < |pos1| && pos2 == pos1[Kept(keep, i) := Room(keep, lens, i - 1)]
    requires Room(keep, lens, i - 1) <= pos[i]
    requires forall k :: Room(keep, lens, i - 1) <= k < Room(keep, lens, i - 1) + lens[i] ==>
               m2[k] == m1[k - Room(keep, lens, i - 1) + pos[i]]
    requires forall k :: 0 <= k < |m1| && !(Room(keep, lens, i - 1) <= k < Room(keep, lens, i - 1) + lens[i]) ==>
               m2[k] == m1[k]
    ensures Halfway(m, pos, lens, keep, m2, pos2, i + 1)
  {
    hide Arrived;
    KeptStep(keep, lens, i);
    NewArrived(m, pos, lens, keep, m1, m2, pos2, i);
    forall k | 1 <= k < i && keep[k]
      ensures Arrived(m, pos, lens, keep, m2, pos2, k)
    {
      OldArrived(m, pos, lens, keep, m1, pos1, m2, pos2, i, k);
    }
  }

  lemma NewArrived(m: seq<nat>, pos: seq<nat>, lens: seq<nat>, keep: seq<bool>, m1: seq<nat>, m2: seq<nat>,
                   pos2: seq<nat>, i: nat)
    requires Layout(m, pos, lens) && |keep| == |pos| == |pos2| && 1 <= i < |pos| && keep[i] && |m2| == |m1| == |m|
    requires Kept(keep, i) < |pos2| && pos2[Kept(keep, i)] == Room(keep, lens, i - 1) <= pos[i]
    requires forall k :: Room(keep, lens, i - 1) <= k < |m| ==> m1[k] == m[k]
    requires forall k :: Room(keep, lens, i - 1) <= k < Room(keep, lens, i - 1) + lens[i] ==>
               m2[k] == m1[k - Room(keep, lens, i - 1) + pos[i]]
    ensures Arrived(m, pos, lens, keep, m2, pos2, i)
  {
    var at := Room(keep, lens, i - 1);
    KeptBounds(keep, lens, 0, i - 1);
    assert m2[at..at + lens[i]] == m[pos[i]..pos[i] + lens[i]];
  }

  lemma OldArrived(m: seq<nat>, pos: seq<nat>, lens: seq<nat>, keep: seq<bool>, m1: seq<nat>, pos1: seq<nat>,
                   m2: seq<nat>, pos2: seq<nat>, i: nat, k: nat)
    requires |keep| == |pos| == |lens| && 1 <= k < i < |pos| && keep[k] && keep[i] && |m2| == |m1|
    requires Arrived(m, pos, lens, keep, m1, pos1, k)
    requires Kept(keep, i) < |pos1| && pos2 == pos1[Kept(keep, i) := Room(keep, lens, i - 1)]
    requires forall x :: 0 <= x < |m1| && x < Room(keep, lens, i - 1) ==> m2[x] == m1[x]
    ensures Arrived(m, pos, lens, keep, m2, pos2, k)
  {
    KeptBounds(keep, lens, k, i);
    KeptBounds(keep, lens, k, i - 1);
    KeptStep(keep, lens, k);
    var at := Room(keep, lens, k - 1);
    assert m2[at..at + lens[k]] == m1[at..at + lens[k]];
  }

  method CompactRecords(mem: array<nat>, types: array<nat>, keep: seq<bool>, ghost lens: seq<nat>)
    returns (next: nat, p: nat)
    requires mem != types && Layout(mem[..], types[..], lens) && |keep| == types.Length
    modifies mem, types
    ensures next == Kept(keep, |keep| - 1) + 1 && p == Room(keep, lens, |keep| - 1) <= mem.Length
    ensures forall k :: p <= k < mem.Length ==> mem[k] == old(mem[k])
    ensures forall i :: 1 <= i < |keep| && keep[i] ==>
              Arrived(old(mem[..]), old(types[..]), lens, keep, mem[..], types[..], i)
  {
    hide Arrived, Kept, Room, Halfway, Layout;
    next, p := 1, 0;
    ghost var m, pos := mem[..], types[..];
    NothingMoved(m, pos, lens, keep);
    KeptStart(keep, lens);
    var n := types.Length;
    for i := 1 to n
      invariant Halfway(m, pos, lens, keep, mem[..], types[..], i)
      invariant next == Kept(keep, i - 1) + 1 <= i && p == Room(keep, lens, i - 1) <= mem.Length
    {
      RoomBelow(m, pos, lens, keep, i);
      KeptStep(keep, lens, i);
      if keep[i] {
        ghost var m1, pos1 := mem[..], types[..];
        Unread(m, pos, lens, keep, m1, pos1, i);
        assert types[i] == pos1[i] && mem[pos[i]] == m1[pos[i]];
        var src := types[i];
        var len := mem[src];
        MoveDown(mem, p, src, len);
        types[next] := p;
        MoveOne(m, pos, lens, keep, m1, pos1, mem[..], types[..], i);
        p, next := p + len, next + 1;
      } else {
        SkipOne(m, pos, lens, keep, mem[..], types[..], i);
      }
    }
    AllArrived(m, pos, lens, keep, mem[..], types[..]);
    assert forall k :: p <= k < mem.Length ==> mem[..][k] == m[k];
  }

  lemma NothingMoved(m: seq<nat>, pos: seq<nat>, lens: seq<nat>, keep: seq<bool>)
    requires Layout(m, pos, lens) && |keep| == |pos|
    ensures |pos| == |lens| > 0 && Halfway(m, pos, lens, keep, m, pos, 1)
  {
  }

  /** The next record and its index slot have not been overwritten. */
  lemma Unread(m: seq<nat>, pos: seq<nat>, lens: seq<nat>, keep: seq<bool>, m': seq<nat>, pos': seq<nat>, i: nat)
    requires Layout(m, pos, lens) && |keep| == |pos| && 1 <= i < |pos| && Halfway(m, pos, lens, keep, m', pos', i)
    ensures |m'| == |m| && |pos'| == |pos| && pos'[i] == pos[i] && pos[i] + lens[i] <= |m| && lens[i] > 0
    ensures m'[pos[i]] == lens[i] && Room(keep, lens, i - 1) <= pos[i] && Kept(keep, i - 1) < i
  {
    RoomBelow(m, pos, lens, keep, i);
    KeptBounds(keep, lens, 0, i - 1);
  }

  lemma AllArrived(m: seq<nat>, pos: seq<nat>, lens: seq<nat>, keep: seq<bool>, m': seq<nat>, pos': seq<nat>)
    requires Layout(m, pos, lens) && |keep| == |pos| && Halfway(m, pos, lens, keep, m', pos', |pos|)
    ensures |pos| == |lens| && forall i :: 1 <= i < |keep| && keep[i] ==> Arrived(m, pos, lens, keep, m', pos', i)
    ensures |m'| == |m| && forall k :: Room(keep, lens, |keep| - 1) <= k < |m| ==> m'[k] == m[k]
  {
    hide Arrived;
  }

  lemma KeptStart(keep: seq<bool>, lens: seq<nat>)
    requires 0 < |keep| == |lens|
    ensures Kept(keep, 0) == 0 && Room(keep, lens, 0) == 0
  {
  }

  lemma KeptStep(keep: seq<bool>, lens: seq<nat>, i: nat)
    requires 0 < i < |keep| == |lens|
    ensures Kept(keep, i) == Kept(keep, i - 1) + (if keep[i] then 1 else 0)
    ensures Room(keep, lens, i) == Room(keep, lens, i - 1) + (if keep[i] then lens[i] else 0)
  {
  }

  // ---------------------------------------------------------------- the string section

  /** btf_dedup_compact_types: after the records the string section is moved down behind them.  `p` is
      where it went, `next` the number of records left and one. */
  method CompactSections(mem: array<nat>, types: array<nat>, keep: seq<bool>, strings: nat, len: nat,
                         ghost lens: seq<nat>)
    returns (next: nat, p: nat)
    requires mem != types && Layout(mem[..], types[..], lens) && |keep| == types.Length
    requires strings + len <= mem.Length && forall i :: 1 <= i < |lens| ==> types[i] + lens[i] <= strings
    modifies mem, types
    ensures next == Kept(keep, |keep| - 1) + 1 && p == Room(keep, lens, |keep| - 1) <= strings
    ensures mem[p..p + len] == old(mem[strings..strings + len])
    ensures forall i :: 1 <= i < |keep| && keep[i] ==>
              Arrived(old(mem[..]), old(types[..]), lens, keep, mem[..], types[..], i)
  {
    hide Arrived, Kept, Room, Layout;
    ghost var m, pos := mem[..], types[..];
    NothingMoved(m, pos, lens, keep);
    RoomBefore(m, pos, lens, keep, strings);
    next, p := CompactRecords(mem, types, keep, lens);
    ghost var m1, pos1 := mem[..], types[..];
    assert m1[strings..strings + len] == m[strings..strings + len];
    MoveDown(mem, p, strings, len);
    MovedSlice(m1, mem[..], p, strings, len);
    assert mem[p..p + len] == mem[..][p..p + len];
    forall i | 1 <= i < |keep| && keep[i]
      ensures Arrived(m, pos, lens, keep, mem[..], types[..], i)
    {
      StaysArrived(m, pos, lens, keep, m1, mem[..], pos1, i);
    }
  }

  lemma {:induction false} RoomUpTo(m: seq<nat>, pos: seq<nat>, lens: seq<nat>, keep: seq<bool>, i: nat)
    requires Layout(m, pos, lens) && |keep| == |pos| && 1 <= i < |pos|
    ensures Room(keep, lens, i) <= pos[i] + lens[i]
  {
    RoomBelow(m, pos, lens, keep, i);
  }

  lemma RoomBefore(m: seq<nat>, pos: seq<nat>, lens: seq<nat>, keep: seq<bool>, strings: nat)
    requires Layout(m, pos, lens) && |keep| == |pos| && forall i :: 1 <= i < |lens| ==> pos[i] + lens[i] <= strings
    ensures Room(keep, lens, |keep| - 1) <= strings
  {
    if |keep| > 1 {
      RoomUpTo(m, pos, lens, keep, |keep| - 1);
    }
  }

  lemma MovedSlice(m1: seq<nat>, m2: seq<nat>, dst: nat, src: nat, len: nat)
    requires dst <= src && src + len <= |m1| == |m2|
    requires forall k :: dst <= k < dst + len ==> m2[k] == m1[k - dst + src]
    ensures m2[dst..dst + len] == m1[src..src + len]
  {
    var a, b := m2[dst..dst + len], m1[src..src + len];
    forall k | 0 <= k < |a|
      ensures a[k] == b[k]
    {
      assert m2[dst + k] == m1[dst + k - dst + src];
    }
  }

  lemma SameSlice(m1: seq<nat>, m2: seq<nat>, n: nat, lo: nat, hi: nat)
    requires lo <= hi <= n <= |m1| == |m2| && forall k :: 0 <= k < n ==> m2[k] == m1[k]
    ensures m2[lo..hi] == m1[lo..hi]
  {
  }

  lemma ArrivedAlike(m: seq<nat>, pos: seq<nat>, lens: seq<nat>, keep: seq<bool>, m1: seq<nat>, m2: seq<nat>,
                     pos': seq<nat>, i: nat)
    requires 1 <= i < |pos| == |lens| == |keep| && Arrived(m, pos, lens, keep, m1, pos', i) && |m1| == |m2|
    requires var at := Room(keep, lens, i - 1);
             at + lens[i] <= |m1| && m2[at..at + lens[i]] == m1[at..at + lens[i]]
    ensures Arrived(m, pos, lens, keep, m2, pos', i)
  {
    hide Kept, Room;
  }

  /** What happens behind the records does not touch them. */
  lemma StaysArrived(m: seq<nat>, pos: seq<nat>, lens: seq<nat>, keep: seq<bool>, m1: seq<nat>, m2: seq<nat>,
                     pos': seq<nat>, i: nat)
    requires 1 <= i < |pos| == |lens| == |keep| && keep[i] && Arrived(m, pos, lens, keep, m1, pos', i)
    requires Room(keep, lens, |keep| - 1) <= |m1| == |m2|
    requires forall k :: 0 <= k < Room(keep, lens, |keep| - 1) ==> m2[k] == m1[k]
    ensures Arrived(m, pos, lens, keep, m2, pos', i)
  {
    hide Kept, Room, Arrived;
    KeptStep(keep, lens, i);
    KeptBounds(keep, lens, i, |keep| - 1);
    var at := Room(keep, lens, i - 1);
    SameSlice(m1, m2, Room(keep, lens, |keep| - 1), at, at + lens[i]);
    ArrivedAlike(m, pos, lens, keep, m1, m2, pos', i);
  }

  // ---------------------------------------------------------------- memory and the table of records

  /** Record j of the table lies at its index entry. */
  ghost predicate Encoded(T: seq<BtfType>, encode: BtfType -> seq<nat>, m: seq<nat>, pos: seq<nat>, j: nat) {
    && j < |T| && j < |pos| && pos[j] + |encode(T[j])| <= |m|
    && m[pos[j]..pos[j] + |encode(T[j])|] == encode(T[j])
  }

  lemma {:induction false} KeptIsCount(canon: seq<nat>, keep: seq<bool>, i: nat)
    requires i < |canon| == |keep| && forall k :: 1 <= k < |keep| ==> (keep[k] <==> canon[k] == k)
    ensures Kept(keep, i) == Compaction.Count(canon, i)
  {
    if i > 0 {
      KeptIsCount(canon, keep, i - 1);
    }
  }

  /** Compaction of memory is compaction of the table: afterwards memory holds, in order, exactly the
      records of the compacted table. */
  lemma MemoryFollowsTable(T: seq<BtfType>, canon: seq<nat>, T': seq<BtfType>, nu: seq<nat>,
                           encode: BtfType -> seq<nat>, m: seq<nat>, pos: seq<nat>, lens: seq<nat>, keep: seq<bool>,
                           m': seq<nat>, pos': seq<nat>, j: nat)
    requires Compaction.Compacted(T, canon, T', nu) && |T| == |pos| == |lens| == |keep|
    requires forall k :: 1 <= k < |keep| ==> (keep[k] <==> canon[k] == k)
    requires forall i :: 1 <= i < |T| ==> lens[i] == |encode(T[i])| && Encoded(T, encode, m, pos, i)
    requires forall i :: 1 <= i < |keep| && keep[i] ==> Arrived(m, pos, lens, keep, m', pos', i)
    requires 1 <= j < |T'|
    ensures Encoded(T', encode, m', pos', j)
  {
    hide Kept, Room;
    var i := Compaction.CountOnto(canon, |canon| - 1, j);
    KeptIsCount(canon, keep, i);
    assert keep[i] && T'[j] == T[i];
    assert Arrived(m, pos, lens, keep, m', pos', i) && Encoded(T, encode, m, pos, i);
  }
}
