/** Reading records from the perf ring buffer (lib/libbpf/src/libbpf-old.c:5242-5288). */
module RingReader {
  import opened Basics

  type Byte = x: nat | x < 256
  type Record = seq<Byte>

  const WRAP: nat := 0x1_0000_0000_0000_0000 // counters are 64 bits wide
  const HEADER: nat := 8

  datatype Ret = Done | Error | Cont

  // ---------------------------------------------------------------- records in a byte stream

  /** A record begins with an 8-byte header whose last two bytes are its size, low byte first. */
  function SizeField(b: seq<Byte>): nat
    requires |b| >= HEADER
  {
    b[6] as nat + 256 * b[7] as nat
  }

  predicate RecordOk(r: Record) { |r| >= HEADER && |r| % 8 == 0 && SizeField(r) == |r| }

  /** The header in bytes: type in four, misc in two, size in two, and the size counts the header. */
  lemma HeaderLayout(typ: seq<Byte>, misc: seq<Byte>, lo: Byte, hi: Byte, body: seq<Byte>)
    requires |typ| == 4 && |misc| == 2
    ensures RecordOk(typ + misc + [lo, hi] + body) <==> |body| % 8 == 0 && lo + 0x100 * hi == 8 + |body|
  {
    var r := typ + misc + [lo, hi] + body;
    assert |r| == 8 + |body| && r[6] == lo && r[7] == hi;
  }

  predicate RecordsOk(recs: seq<Record>) { forall i :: 0 <= i < |recs| ==> RecordOk(recs[i]) }

  function Bytes(recs: seq<Record>): seq<Byte> {
    if recs == [] then [] else recs[0] + Bytes(recs[1..])
  }

  /** The linear reader: cut records off the front by their size fields. */
  function Decode(s: seq<Byte>): seq<Record>
    decreases |s|
  {
    if |s| < HEADER || SizeField(s) < HEADER || SizeField(s) > |s| then []
    else [s[..SizeField(s)]] + Decode(s[SizeField(s)..])
  }

  /** The linear reader recovers the records from their bytes. */
  lemma {:induction false} DecodeBytes(recs: seq<Record>)
    requires RecordsOk(recs)
    ensures Decode(Bytes(recs)) == recs
  {
    if recs != [] {
      var r, s := recs[0], Bytes(recs);
      DecodeBytes(recs[1..]);
      assert SizeField(s) == SizeField(r);
      assert s[..|r|] == r && s[|r|..] == Bytes(recs[1..]);
    }
  }

  lemma {:induction false} BytesAppend(a: seq<Record>, b: seq<Record>)
    ensures Bytes(a + b) == Bytes(a) + Bytes(b)
    decreases |a|
  {
    if a == [] {
      assert a + b == b;
    } else {
      assert (a + b)[1..] == a[1..] + b;
      BytesAppend(a[1..], b);
    }
  }

  function Start(recs: seq<Record>, i: nat): nat
    requires i <= |recs|
  {
    |Bytes(recs[..i])|
  }

  /** Record i occupies the bytes from Start(i) to Start(i + 1), and starts are aligned. */
  lemma RecordAt(recs: seq<Record>, i: nat)
    requires i < |recs| && RecordsOk(recs)
    ensures Start(recs, i + 1) == Start(recs, i) + |recs[i]| <= |Bytes(recs)|
    ensures Bytes(recs)[Start(recs, i)..Start(recs, i + 1)] == recs[i]
    ensures Start(recs, i) % 8 == 0
  {
    hide Bytes, SizeField;
    var a, b := recs[..i], recs[i + 1..];
    assert recs[..i + 1] == a + [recs[i]] && recs == a + [recs[i]] + b;
    BytesAppend(a, [recs[i]]);
    BytesAppend(a + [recs[i]], b);
    BytesOne(recs[i]);
    assert RecordsOk(a);
    AlignedBytes(a);
  }

  lemma BytesOne(r: Record)
    ensures Bytes([r]) == r
  {
    var one: seq<Record> := [r];
    assert one[1..] == [] && Bytes(one[1..]) == [];
  }

  lemma {:induction false} AlignedBytes(recs: seq<Record>)
    requires RecordsOk(recs)
    ensures |Bytes(recs)| % 8 == 0
  {
    hide SizeField;
    if recs != [] {
      AlignedBytes(recs[1..]);
      assert RecordOk(recs[0]);
      SumAligned(|recs[0]|, |Bytes(recs[1..])|);
    }
  }

  lemma SumAligned(a: nat, b: nat)
    requires a % 8 == 0 && b % 8 == 0
    ensures (a + b) % 8 == 0
  {
  }

  lemma StartEnds(recs: seq<Record>)
    ensures Start(recs, 0) == 0 && Start(recs, |recs|) == |Bytes(recs)|
  {
    assert recs[..|recs|] == recs;
  }

  // ---------------------------------------------------------------- masks and wrap-around

  /** Bitwise and. */
  function And(x: nat, y: nat): nat
    decreases y
  {
    if y == 0 then 0 else 2 * And(x / 2, y / 2) + (x % 2) * (y % 2)
  }

  /** Masking with a power of two less one is the remainder. */
  lemma {:induction false} MaskIsRemainder(x: nat, k: nat)
    ensures Pow2(k) > 0 && And(x, Pow2(k) - 1) == x % Pow2(k)
  {
    hide Pow2;
    UnfoldPow2(k);
    if k > 0 {
      MaskIsRemainder(x / 2, k - 1);
      var p := Pow2(k - 1);
      UnfoldMask(x, p);
      HalfRemainder(x, p);
    }
  }

  lemma UnfoldMask(x: nat, p: nat)
    requires p > 0
    ensures And(x, 2 * p - 1) == 2 * And(x / 2, p - 1) + x % 2
  {
    var y := 2 * p - 1;
    assert y / 2 == p - 1 && y % 2 == 1;
  }

  /** Counters wrap at a multiple of the ring size, so positions in the ring do not notice. */
  lemma CounterPosition(x: nat, n: nat, m: nat)
    requires n > 0 && m > 0
    ensures n * m > 0 && x % (n * m) % n == x % n
  {
    AtLeast(n, m);
    RemainderTwice(x, n, m, n * m);
  }

  lemma RemainderTwice(x: nat, n: nat, m: nat, p: nat)
    requires n > 0 && m > 0 && p == n * m && p > 0
    ensures x % p % n == x % n
  {
    var y, q := x % p, x / p;
    var a, r := y / n, y % n;
    Divides(x, p);
    Divides(y, n);
    Combine(x, n, m, p, q, y, a, r);
    Division(x, n, m * q + a, r);
  }

  lemma Combine(x: nat, n: nat, m: nat, p: nat, q: nat, y: nat, a: nat, r: nat)
    requires p == n * m && x == p * q + y && y == n * a + r
    ensures x == n * (m * q + a) + r
  {
    Regroup(n, m, q);
    Spread(n, m * q, a);
  }

  lemma NextPosition(x: nat, n: nat, k: nat)
    requires n > 0 && k < n
    ensures (x + k) % n == if x % n + k < n then x % n + k else x % n + k - n
  {
    var q, r := x / n, x % n;
    Divides(x, n);
    Spread(n, q, 1);
    if r + k < n {
      Division(x + k, n, q, r + k);
    } else {
      Division(x + k, n, q + 1, r + k - n);
    }
  }

  lemma AlignedPosition(x: nat, m: nat)
    requires m > 0 && x % 8 == 0
    ensures x % (8 * m) % 8 == 0 && x % (8 * m) + 8 <= 8 * m
  {
    CounterPosition(x, 8, m);
  }

  // ---------------------------------------------------------------- the ring

  /** A ring of 2^k bytes, k at least 3. */
  predicate RingOk(ring: seq<Byte>, k: nat) {
    3 <= k < 64 && |ring| == Pow2(k)
  }

  /** From counter `tail` on, the ring holds `s`. */
  ghost predicate Holds(ring: seq<Byte>, tail: nat, s: seq<Byte>) {
    && 0 < |ring| && |s| <= |ring|
    && forall j :: 0 <= j < |s| ==> ring[(tail + j) % |ring|] == s[j]
  }

  function Cut(ring: seq<Byte>, pos: nat, size: nat): seq<Byte>
    requires pos < |ring| && size <= |ring|
  {
    if pos + size <= |ring| then ring[pos..pos + size] else ring[pos..] + ring[..pos + size - |ring|]
  }

  /** A piece of the stream, cut out of the ring in one or two pieces. */
  lemma CutHolds(ring: seq<Byte>, tail: nat, s: seq<Byte>, from: nat, to: nat)
    requires Holds(ring, tail, s) && from <= to <= |s|
    ensures Cut(ring, (tail + from) % |ring|, to - from) == s[from..to]
  {
    var n, pos, c := |ring|, (tail + from) % |ring|, s[from..to];
    forall j | 0 <= j < to - from
      ensures Cut(ring, pos, to - from)[j] == c[j]
    {
      NextPosition(tail + from, n, j);
      assert ring[(tail + (from + j)) % n] == s[from + j];
    }
  }

  /** Where the record at counter x begins: the header is in one piece. */
  lemma HeaderPosition(x: nat, k: nat)
    requires 3 <= k < 64 && x % 8 == 0
    ensures Pow2(k) > 0 && And(x % WRAP, Pow2(k) - 1) == x % Pow2(k) && x % Pow2(k) + HEADER <= Pow2(k)
  {
    hide Pow2;
    Pow2Values();
    MaskIsRemainder(x % WRAP, k);
    Pow2Adds(k, 64 - k);
    CounterPosition(x, Pow2(k), Pow2(64 - k));
    Pow2Adds(3, k - 3);
    AlignedPosition(x, Pow2(k - 3));
  }

  /** Record i is found at the masked counter, its size in its header. */
  lemma RingRecord(ring: seq<Byte>, k: nat, tail: nat, recs: seq<Record>, i: nat)
    requires RingOk(ring, k) && tail % 8 == 0 && RecordsOk(recs) && Holds(ring, tail, Bytes(recs)) && i < |recs|
    ensures var pos := And((tail + Start(recs, i)) % WRAP, |ring| - 1);
            && pos == (tail + Start(recs, i)) % |ring|
            && pos + HEADER <= |ring| && |recs[i]| <= |ring|
            && SizeField(ring[pos..pos + HEADER]) == |recs[i]|
            && Cut(ring, pos, |recs[i]|) == recs[i]
  {
    hide Holds, Bytes, Pow2, And, Start;
    RecordAt(recs, i);
    HeaderPosition(tail + Start(recs, i), k);
    var pos := (tail + Start(recs, i)) % |ring|;
    var r := recs[i];
    assert |Bytes(recs)| <= |ring| by {
      HoldsFits(ring, tail, Bytes(recs));
    }
    CutHolds(ring, tail, Bytes(recs), Start(recs, i), Start(recs, i + 1));
    assert forall j :: 0 <= j < HEADER ==> ring[pos + j] == r[j] by {
      CutHead(ring, pos, r);
    }
  }

  /** While records are left, the counters differ. */
  lemma CountersDiffer(ring: seq<Byte>, k: nat, tail: nat, recs: seq<Record>, i: nat)
    requires RingOk(ring, k) && RecordsOk(recs) && Holds(ring, tail, Bytes(recs)) && i < |recs|
    ensures (tail + Start(recs, i)) % WRAP != (tail + |Bytes(recs)|) % WRAP
    ensures Start(recs, i + 1) == Start(recs, i) + |recs[i]|
  {
    hide Holds, Bytes, Pow2, Start;
    RecordAt(recs, i);
    HalfOfWrap(k);
    HoldsFits(ring, tail, Bytes(recs));
    Differ(tail + Start(recs, i), tail + |Bytes(recs)|);
  }

  lemma Differ(a: nat, b: nat)
    requires a < b < a + WRAP
    ensures a % WRAP != b % WRAP
  {
  }

  lemma Advance(x: nat, d: nat)
    ensures (x % WRAP + d) % WRAP == (x + d) % WRAP
  {
  }

  lemma HalfOfWrap(k: nat)
    requires k < 64
    ensures Pow2(k) <= WRAP / 2
  {
    hide Pow2;
    Pow2Values();
    Pow2Adds(k, 63 - k);
    AtLeast(Pow2(k), Pow2(63 - k));
    UnfoldPow2(64);
  }

  lemma HoldsFits(ring: seq<Byte>, tail: nat, s: seq<Byte>)
    requires Holds(ring, tail, s)
    ensures |s| <= |ring|
  {
  }

  lemma CutHead(ring: seq<Byte>, pos: nat, r: Record)
    requires pos + HEADER <= |ring| && HEADER <= |r| <= |ring| && Cut(ring, pos, |r|) == r
    ensures forall j :: 0 <= j < HEADER ==> ring[pos + j] == r[j]
  {
    forall j | 0 <= j < HEADER
      ensures ring[pos + j] == r[j]
    {
      assert Cut(ring, pos, |r|)[j] == ring[pos + j];
    }
  }

  // ---------------------------------------------------------------- the reader

  /** What one call may do with the records in the ring: it hands them over in order, and stops after
      the first for which the callback does not say Cont, or before a wrapped one it has no memory to
      copy. */
  ghost predicate Outcome(recs: seq<Record>, tail: nat, size: nat, fn: seq<Record> -> Ret, memory: nat -> bool, n: nat,
                          ret: Ret)
    requires size > 0
  {
    && n <= |recs|
    && (|| (ret == Cont && n == |recs| && Wanted(recs, fn, n))
        || (ret != Cont && n > 0 && ret == fn(recs[..n]) && Wanted(recs, fn, n - 1))
        || (ret == Error && n < |recs| && !memory(n) && Wanted(recs, fn, n)
            && (tail + Start(recs, n)) % size + |recs[n]| > size))
  }

  /** The callback said Cont after each of the first n records. */
  ghost predicate Wanted(recs: seq<Record>, fn: seq<Record> -> Ret, n: nat)
    requires n <= |recs|
  {
    forall i :: 0 < i <= n ==> fn(recs[..i]) == Cont
  }

  class Reader {
    const ring: array<Byte>
    var copy: array<Byte>
    var tail: nat

    constructor (ring: array<Byte>)
      ensures this.ring == ring && fresh(copy) && copy.Length == 0 && tail == 0
    {
      this.ring, copy, tail := ring, new Byte[0], 0;
    }

    /** Brings the record at pos into one piece, in the copy buffer when it wraps. */
    method Fetch(pos: nat, size: nat, enough: bool) returns (ok: bool, r: Record)
      requires pos < ring.Length && size <= ring.Length && copy != ring
      modifies this`copy, copy
      ensures ring[..] == old(ring[..]) && (copy == old(copy) || fresh(copy))
      ensures ok ==> r == Cut(ring[..], pos, size)
      ensures !ok ==> !enough && pos + size > ring.Length && old(copy.Length) < size
    {
      if pos + size <= ring.Length {
        return true, ring[pos..pos + size];
      }
      var first := ring.Length - pos;
      if copy.Length < size {
        if !enough {
          copy := new Byte[0];
          return false, [];
        }
        copy := new Byte[size];
      }
      forall j | 0 <= j < first {
        copy[j] := ring[pos + j];
      }
      forall j | 0 <= j < size - first {
        copy[first + j] := ring[j];
      }
      assert copy[..size] == ring[pos..] + ring[..size - first];
      return true, copy[..size];
    }

    /** bpf_perf_event_read_simple.  `fn` is the callback, given what it has been handed so far;
        `memory(i)` says whether the allocation for record i succeeds. */
    method ReadSimple(head: nat, k: nat, fn: seq<Record> -> Ret, memory: nat -> bool, ghost recs: seq<Record>)
      returns (ret: Ret, delivered: seq<Record>)
      requires ring.Length > 0 && RingOk(ring[..], k) && copy != ring
      requires tail < WRAP && tail % 8 == 0 && RecordsOk(recs)
      requires Holds(ring[..], tail, Bytes(recs)) && head == (tail + |Bytes(recs)|) % WRAP
      modifies this`copy, this`tail, copy
      ensures ring[..] == old(ring[..])
      ensures |delivered| <= |recs| && delivered == recs[..|delivered|]
      ensures Outcome(recs, old(tail), ring.Length, fn, memory, |delivered|, ret)
      ensures tail == (old(tail) + |Bytes(delivered)|) % WRAP
    {
      hide Holds, Bytes, RecordsOk, RingOk, Outcome, Wanted;
      var dataTail := tail;
      ret, delivered := Cont, [];
      ghost var i: nat := 0;
      StartEnds(recs);
      WantedNone(recs, fn);
      while head != dataTail
        invariant i <= |recs| && delivered == recs[..i]
        invariant ring[..] == old(ring[..]) && copy != ring && (copy == old(copy) || fresh(copy))
        invariant ret == Cont && Wanted(recs, fn, i)
        invariant tail == old(tail) && dataTail == (tail + Start(recs, i)) % WRAP
        decreases |recs| - i
      {
        assert i < |recs|;
        var ok, size, r := FetchNext(dataTail, k, memory(|delivered|), recs, i);
        if !ok {
          ret := Error;
          OutOfMemory(recs, tail, ring.Length, fn, memory, i);
          break;
        }
        assert recs[..i + 1] == recs[..i] + [recs[i]];
        delivered := delivered + [r];
        ret := fn(delivered);
        dataTail := (dataTail + size) % WRAP;
        i := i + 1;
        AfterCallback(recs, tail, ring.Length, fn, memory, i, ret);
        if ret != Cont {
          break;
        }
      }
      if ret == Cont {
        AllDelivered(ring[..], k, tail, recs, i, fn, memory);
      }
      tail := dataTail;
    }

    /** The record at the counter, found by its masked position and the size in its header. */
    method FetchNext(dataTail: nat, k: nat, enough: bool, ghost recs: seq<Record>, ghost i: nat)
      returns (ok: bool, size: nat, r: Record)
      requires ring.Length > 0 && RingOk(ring[..], k) && copy != ring
      requires tail % 8 == 0 && RecordsOk(recs) && Holds(ring[..], tail, Bytes(recs)) && i < |recs|
      requires dataTail == (tail + Start(recs, i)) % WRAP
      modifies this`copy, copy
      ensures ring[..] == old(ring[..]) && (copy == old(copy) || fresh(copy))
      ensures size == |recs[i]| && (dataTail + size) % WRAP == (tail + Start(recs, i + 1)) % WRAP
      ensures ok ==> r == recs[i]
      ensures !ok ==> !enough && (tail + Start(recs, i)) % ring.Length + |recs[i]| > ring.Length
    {
      hide Holds, Bytes, RecordsOk, RingOk, And, Cut, SizeField, Start;
      CountersDiffer(ring[..], k, tail, recs, i);
      RingRecord(ring[..], k, tail, recs, i);
      Advance(tail + Start(recs, i), |recs[i]|);
      var pos := And(dataTail, ring.Length - 1);
      size := SizeField(ring[pos..pos + HEADER]);
      ok, r := Fetch(pos, size, enough);
    }
  }

  lemma WantedNone(recs: seq<Record>, fn: seq<Record> -> Ret)
    ensures Wanted(recs, fn, 0)
  {
  }

  lemma OutOfMemory(recs: seq<Record>, tail: nat, size: nat, fn: seq<Record> -> Ret, memory: nat -> bool, i: nat)
    requires size > 0 && i < |recs| && Wanted(recs, fn, i) && !memory(i)
    requires (tail + Start(recs, i)) % size + |recs[i]| > size
    ensures Outcome(recs, tail, size, fn, memory, i, Error)
  {
  }

  lemma AfterCallback(recs: seq<Record>, tail: nat, size: nat, fn: seq<Record> -> Ret, memory: nat -> bool, i: nat,
                      ret: Ret)
    requires size > 0 && 0 < i <= |recs| && Wanted(recs, fn, i - 1) && ret == fn(recs[..i])
    ensures ret == Cont ==> Wanted(recs, fn, i)
    ensures ret != Cont ==> Outcome(recs, tail, size, fn, memory, i, ret)
  {
  }

  lemma AllDelivered(ring: seq<Byte>, k: nat, tail: nat, recs: seq<Record>, i: nat, fn: seq<Record> -> Ret,
                     memory: nat -> bool)
    requires RingOk(ring, k) && RecordsOk(recs) && Holds(ring, tail, Bytes(recs)) && i <= |recs| && Wanted(recs, fn, i)
    requires (tail + Start(recs, i)) % WRAP == (tail + |Bytes(recs)|) % WRAP
    ensures i == |recs| && |ring| > 0 && Outcome(recs, tail, |ring|, fn, memory, i, Cont)
  {
    hide Bytes, Start;
    if i < |recs| {
      CountersDiffer(ring, k, tail, recs, i);
    }
  }
}
