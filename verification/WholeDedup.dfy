/** btf__dedup as a whole: the string pass and the type passes together
    (lib/libbpf/src/btf.c:1225-1269, 1460-1549). */
module WholeDedup {
  import opened Btf
  import opened RecordCompare
  import opened DedupState
  import opened Fields
  import BtfDedup
  import Strings = StringDedup

  // ---------------------------------------------------------------- names of a record

  /** The name offsets of a record in the order btf_for_each_str_off visits them. */
  function NamesOf(t: BtfType): seq<nat> {
    [t.name] + match t.tail
      case Enums(es) => seq(|es|, i requires 0 <= i < |es| => es[i].name)
      case Members(ms) => seq(|ms|, i requires 0 <= i < |ms| => ms[i].name)
      case Params(ps) => seq(|ps|, i requires 0 <= i < |ps| => ps[i].name)
      case _ => []
  }

  /** The record with its names rewritten. */
  function MapNames(t: BtfType, f: nat -> nat): BtfType {
    var tail := match t.tail
      case Enums(es) => Enums(seq(|es|, i requires 0 <= i < |es| => es[i].(name := f(es[i].name))))
      case Members(ms) => Members(seq(|ms|, i requires 0 <= i < |ms| => ms[i].(name := f(ms[i].name))))
      case Params(ps) => Params(seq(|ps|, i requires 0 <= i < |ps| => ps[i].(name := f(ps[i].name))))
      case other => other;
    t.(name := f(t.name), tail := tail)
  }

  function MapAll(T: seq<BtfType>, f: nat -> nat): (r: seq<BtfType>)
    ensures |r| == |T|
  {
    seq(|T|, i requires 0 <= i < |T| => MapNames(T[i], f))
  }

  function AllNames(T: seq<BtfType>): seq<nat> {
    if T == [] then [] else NamesOf(T[0]) + AllNames(T[1..])
  }

  function Erase(t: BtfType): BtfType { MapNames(t, _ => 0) }

  // ---------------------------------------------------------------- meaning with names as strings

  datatype NamedTree = Cut | Named(shape: BtfType, names: seq<seq<char>>, kids: seq<NamedTree>)

  /** btf__name_by_offset, with the empty string for an offset outside the section. */
  function ReadName(d: seq<char>, off: nat): seq<char> {
    if off < |d| && d[|d| - 1] == Strings.NUL then Strings.Text(d, off) else []
  }

  function ReadNames(d: seq<char>, offs: seq<nat>): seq<seq<char>> {
    seq(|offs|, k requires 0 <= k < |offs| => ReadName(d, offs[k]))
  }

  /** A tree with its name offsets read from a string section. */
  ghost function WithStrings(d: seq<char>, t: Tree): NamedTree {
    match t
    case Cut => NamedTree.Cut
    case Node(shape, kids) =>
      Named(Erase(shape), ReadNames(d, NamesOf(shape)),
            seq(|kids|, k requires 0 <= k < |kids| => WithStrings(d, kids[k])))
  }

  // ---------------------------------------------------------------- renaming

  lemma MapNamesLaws(t: BtfType, f: nat -> nat)
    requires WellFormed(t)
    ensures WellFormed(MapNames(t, f)) && MapNames(t, f).info == t.info
    ensures Refs(MapNames(t, f)) == Refs(t)
    ensures |NamesOf(MapNames(t, f))| == |NamesOf(t)|
    ensures forall k :: 0 <= k < |NamesOf(t)| ==> NamesOf(MapNames(t, f))[k] == f(NamesOf(t)[k])
  {
    MapNamesRefs(t, f);
    hide Refs, WellFormed;
  }

  lemma MapNamesRefs(t: BtfType, f: nat -> nat)
    requires WellFormed(t)
    ensures WellFormed(MapNames(t, f)) && MapNames(t, f).info == t.info
    ensures Refs(MapNames(t, f)) == Refs(t)
  {
  }

  lemma ShapeOfRenamed(t: BtfType, f: nat -> nat)
    requires WellFormed(t)
    ensures WellFormed(MapNames(t, f)) && Refs(MapNames(t, f)) == Refs(t)
    ensures Shape(MapNames(t, f)) == MapNames(Shape(t), f)
  {
    MapNamesLaws(t, f);
    var a, b := Shape(MapNames(t, f)), MapNames(Shape(t), f);
    match t.info.kind
    case KStruct => assert a.tail.members == b.tail.members;
    case KUnion => assert a.tail.members == b.tail.members;
    case KFuncProto => assert a.tail.params == b.tail.params;
    case _ =>
  }

  lemma EraseRenamed(t: BtfType, f: nat -> nat)
    ensures Erase(MapNames(t, f)) == Erase(t)
  {
    var a, b := Erase(MapNames(t, f)), Erase(t);
    match t.tail
    case Enums(es) => assert a.tail.enums == b.tail.enums;
    case Members(ms) => assert a.tail.members == b.tail.members;
    case Params(ps) => assert a.tail.params == b.tail.params;
    case _ =>
  }

  lemma NamesOfShape(t: BtfType)
    requires WellFormed(t)
    ensures NamesOf(Shape(t)) == NamesOf(t)
  {
    match t.info.kind
    case KStruct => assert NamesOf(Shape(t)) == NamesOf(t);
    case KUnion => assert NamesOf(Shape(t)) == NamesOf(t);
    case KFuncProto => assert NamesOf(Shape(t)) == NamesOf(t);
    case _ =>
  }

  lemma RenamedGraph(T: seq<BtfType>, f: nat -> nat)
    requires Graph(T) && f(0) == 0
    ensures Graph(MapAll(T, f))
    ensures forall i :: 0 <= i < |T| ==> Refs(MapAll(T, f)[i]) == Refs(T[i]) && MapAll(T, f)[i].info == T[i].info
  {
    forall i | 0 <= i < |T|
      ensures WellFormed(MapAll(T, f)[i]) && Refs(MapAll(T, f)[i]) == Refs(T[i]) && MapAll(T, f)[i].info == T[i].info
    {
      MapNamesLaws(T[i], f);
    }
  }

  /** Every name of the table reads the same after renaming. */
  ghost predicate NamesKept(T: seq<BtfType>, d: seq<char>, f: nat -> nat, out: seq<char>) {
    forall i, k :: 0 <= i < |T| && 0 <= k < |NamesOf(T[i])| ==>
      ReadName(out, f(NamesOf(T[i])[k])) == ReadName(d, NamesOf(T[i])[k])
  }

  /** The string pass alone preserves meaning. */
  lemma {:induction false} RenamedMeaning(T: seq<BtfType>, d: seq<char>, f: nat -> nat, out: seq<char>, i: nat, n: nat)
    requires Graph(T) && f(0) == 0 && Graph(MapAll(T, f)) && NamesKept(T, d, f, out) && i < |T|
    ensures WithStrings(out, Unfold(MapAll(T, f), i, n)) == WithStrings(d, Unfold(T, i, n))
    decreases n
  {
    hide Graph, Shape, NamesOf, MapNames, ReadName;
    if n > 0 {
      RenamedNode(T, d, f, out, i);
      var U := MapAll(T, f);
      KidsBelow(T, i);
      forall k | 0 <= k < |Refs(T[i])|
        ensures WithStrings(out, Unfold(U, Refs(T[i])[k], n - 1)) == WithStrings(d, Unfold(T, Refs(T[i])[k], n - 1))
      {
        RenamedMeaning(T, d, f, out, Refs(T[i])[k], n - 1);
      }
      var a, b := WithStrings(out, Unfold(U, i, n)), WithStrings(d, Unfold(T, i, n));
      assert a.kids == b.kids;
    }
  }

  lemma KidsBelow(T: seq<BtfType>, i: nat)
    requires Graph(T) && i < |T|
    ensures WellFormed(T[i]) && forall k :: 0 <= k < |Refs(T[i])| ==> Refs(T[i])[k] < |T|
  {
  }

  lemma RenamedNode(T: seq<BtfType>, d: seq<char>, f: nat -> nat, out: seq<char>, i: nat)
    requires Graph(T) && NamesKept(T, d, f, out) && i < |T|
    ensures WellFormed(T[i]) && WellFormed(MapAll(T, f)[i]) && Refs(MapAll(T, f)[i]) == Refs(T[i])
    ensures Erase(Shape(MapAll(T, f)[i])) == Erase(Shape(T[i]))
    ensures ReadNames(out, NamesOf(Shape(MapAll(T, f)[i]))) == ReadNames(d, NamesOf(Shape(T[i])))
  {
    hide ReadName;
    ShapeOfRenamed(T[i], f);
    EraseRenamed(Shape(T[i]), f);
    ShapeKeeps(T[i]);
    MapNamesLaws(Shape(T[i]), f);
    NamesOfShape(T[i]);
    var u := MapAll(T, f)[i];
    assert u == MapNames(T[i], f);
    assert ReadNames(out, NamesOf(Shape(u))) == ReadNames(d, NamesOf(Shape(T[i])));
  }

  lemma {:induction false} NamesListed(T: seq<BtfType>, i: nat, k: nat)
    requires i < |T| && k < |NamesOf(T[i])|
    ensures NamesOf(T[i])[k] in AllNames(T)
  {
    if i > 0 {
      NamesListed(T[1..], i - 1, k);
    }
  }

  // ---------------------------------------------------------------- the whole

  /** Meaning over strings, before and after, at every depth. */
  ghost predicate SameNamedMeaning(d: seq<char>, T: seq<BtfType>, nu: seq<nat>, out: seq<char>, T': seq<BtfType>)
    requires Graph(T) && Graph(T')
  {
    && |nu| == |T| && (forall i :: 0 <= i < |T| ==> nu[i] < |T'|)
    && forall i, n: nat :: 0 <= i < |T| ==>
         WithStrings(out, Unfold(T', nu[i], n)) == WithStrings(d, Unfold(T, i, n))
  }

  // ---------------------------------------------------------------- the same, by fields

  /** Input id and output id agree in all fields at every depth; names are compared as strings. */
  ghost predicate SameByFields(d: seq<char>, T: seq<BtfType>, nu: seq<nat>, out: seq<char>, T': seq<BtfType>) {
    |nu| == |T| && forall i, n: nat :: 0 <= i < |T| ==> Agree(NamesAlike(d, out), T, i, T', nu[i], n)
  }

  /** Every output record is some input record with that final id, renumbered. */
  ghost predicate CopiesByFields(d: seq<char>, T: seq<BtfType>, nu: seq<nat>, out: seq<char>, T': seq<BtfType>) {
    |nu| == |T| && forall j :: 0 <= j < |T'| ==> CopiedFrom(d, T, nu, out, T', j)
  }

  ghost predicate CopiedFrom(d: seq<char>, T: seq<BtfType>, nu: seq<nat>, out: seq<char>, T': seq<BtfType>, j: nat)
    requires |nu| == |T| && j < |T'|
  {
    exists i :: 0 <= i < |T| && nu[i] == j && Moved(d, T, nu, out, T', i)
  }

  /** The record at the final id says what the input record says, and each of its ids is the final id of
      the one that stood there. */
  ghost predicate Moved(d: seq<char>, T: seq<BtfType>, nu: seq<nat>, out: seq<char>, T': seq<BtfType>, i: nat) {
    && i < |T| == |nu| && nu[i] < |T'|
    && SameFields(NamesAlike(d, out), T[i], T'[nu[i]])
    && forall x: nat, y: nat :: Paired(T[i], T'[nu[i]], x, y) ==> x < |nu| && y == nu[x]
  }

  /** Every input id ends at a record that may stand for its own. */
  ghost predicate StandInByFields(d: seq<char>, T: seq<BtfType>, nu: seq<nat>, out: seq<char>, T': seq<BtfType>) {
    |nu| == |T| && forall i :: 0 <= i < |T| ==> nu[i] < |T'| && StandsIn(NamesAlike(d, out), T[i], T'[nu[i]])
  }

  /** All names in the records and all other references are starts of strings. */
  ghost predicate NamesStart(d: seq<char>, T: seq<BtfType>, ext: seq<nat>) {
    && (forall i, off: nat :: 0 <= i < |T| && HasName(T[i], off) ==> AtStart(d, off))
    && (forall k :: 0 <= k < |ext| ==> AtStart(d, ext[k]))
  }

  /** The new section holds the empty string and strings that are referenced. */
  ghost predicate OnlyUsed(d: seq<char>, T: seq<BtfType>, ext: seq<nat>, out: seq<char>) {
    forall p: nat :: AtStart(out, p) ==> out[p] == '\0' || UsedAt(d, T, ext, out, p)
  }

  ghost predicate UsedAt(d: seq<char>, T: seq<BtfType>, ext: seq<nat>, out: seq<char>, p: nat) {
    exists off: nat :: (off in ext || NamedIn(T, off)) && SameName(d, off, out, p)
  }

  ghost predicate NamedIn(T: seq<BtfType>, off: nat) {
    exists i :: 0 <= i < |T| && HasName(T[i], off)
  }

  lemma NamesOfIff(t: BtfType, off: nat)
    ensures off in NamesOf(t) <==> HasName(t, off)
  {
    var ns := NamesOf(t);
    if HasName(t, off) {
      if off == t.name {
        assert ns[0] == off;
      } else if t.tail.Enums? {
        var k :| 0 <= k < |t.tail.enums| && t.tail.enums[k].name == off;
        assert ns[k + 1] == off;
      } else if t.tail.Members? {
        var k :| 0 <= k < |t.tail.members| && t.tail.members[k].name == off;
        assert ns[k + 1] == off;
      } else {
        var k :| 0 <= k < |t.tail.params| && t.tail.params[k].name == off;
        assert ns[k + 1] == off;
      }
    }
  }

  lemma {:induction false} AllNamesIff(T: seq<BtfType>, off: nat)
    ensures off in AllNames(T) <==> NamedIn(T, off)
  {
    hide HasName, NamesOf;
    if T != [] {
      NamesOfIff(T[0], off);
      AllNamesIff(T[1..], off);
      if NamedIn(T[1..], off) {
        var i :| 0 <= i < |T[1..]| && HasName(T[1..][i], off);
        assert HasName(T[i + 1], off);
      }
      if NamedIn(T, off) {
        var i :| 0 <= i < |T| && HasName(T[i], off);
        if i > 0 {
          assert HasName(T[1..][i - 1], off);
        }
      }
    }
  }

  lemma StartsIff(d: seq<char>, T: seq<BtfType>, ext: seq<nat>)
    requires Strings.Section(d)
    ensures Strings.RefsOk(d, AllNames(T) + ext) <==> NamesStart(d, T, ext)
  {
    hide HasName;
    var refs := AllNames(T) + ext;
    forall off: nat
      ensures off in refs <==> NamedIn(T, off) || off in ext
    {
      AllNamesIff(T, off);
    }
    if Strings.RefsOk(d, refs) {
      forall off: nat | off in refs
        ensures AtStart(d, off)
      {
        var k :| 0 <= k < |refs| && refs[k] == off;
        assert off != 0 ==> Strings.IsStart(d, refs[k]);
      }
    }
    if NamesStart(d, T, ext) {
      forall k | 0 <= k < |refs| && refs[k] != 0
        ensures Strings.IsStart(d, refs[k])
      {
        assert refs[k] in refs;
        assert AtStart(d, refs[k]);
      }
    }
  }

  lemma SameText(d: seq<char>, a: nat, out: seq<char>, b: nat)
    requires |d| > 0 && d[|d| - 1] == '\0' && |out| > 0 && out[|out| - 1] == '\0'
    requires Strings.ReadsSame(d, out, a, b)
    ensures SameName(d, a, out, b)
  {
    var n := Strings.StrLen(d, a);
    assert |Strings.Text(d, a)| == n && |Strings.Text(out, b)| == Strings.StrLen(out, b);
    assert Fields.SameText(d, a, out, b, n);
  }

  lemma UsedByFields(d: seq<char>, T: seq<BtfType>, ext: seq<nat>, out: seq<char>, rho: map<nat, nat>)
    requires Strings.Exact(d, AllNames(T) + ext, out, rho)
    ensures OnlyUsed(d, T, ext, out)
  {
    hide Strings.Distinct, Strings.Text;
    forall p: nat | AtStart(out, p) && out[p] != '\0'
      ensures UsedAt(d, T, ext, out, p)
    {
      assert Strings.IsStart(out, p) && Strings.Needed(d, AllNames(T) + ext, out, p);
      assert Strings.Text(out, p) != [] by { NotEmptyText(out, p); }
      var off :| off in AllNames(T) + ext && off < |d| && Strings.Text(d, off) == Strings.Text(out, p);
      AllNamesIff(T, off);
      SameText(d, off, out, p);
    }
  }

  lemma NotEmptyText(d: seq<char>, p: nat)
    requires p < |d| && d[|d| - 1] == '\0' && d[p] != '\0'
    ensures Strings.Text(d, p) != []
  {
  }

  lemma RecordRenamed(same: (nat, nat) -> bool, t: BtfType, f: nat -> nat)
    requires WellFormed(t) && forall off: nat :: HasName(t, off) ==> same(off, f(off))
    ensures Renamed(same, t, MapNames(t, f))
  {
    assert HasName(t, t.name);
    match t.tail
    case Enums(es) =>
      forall k | 0 <= k < |es| ensures same(es[k].name, f(es[k].name)) { assert HasName(t, es[k].name); }
    case Members(ms) =>
      forall k | 0 <= k < |ms| ensures same(ms[k].name, f(ms[k].name)) { assert HasName(t, ms[k].name); }
    case Params(ps) =>
      forall k | 0 <= k < |ps| ensures same(ps[k].name, f(ps[k].name)) { assert HasName(t, ps[k].name); }
    case _ =>
  }

  lemma RecordsRenamed(d: seq<char>, T: seq<BtfType>, ext: seq<nat>, out: seq<char>, rho: map<nat, nat>,
                       f: nat -> nat)
    requires Graph(T) && Strings.Exact(d, AllNames(T) + ext, out, rho)
    requires forall off :: f(off) == if off in rho then rho[off] else off
    ensures forall i :: 0 <= i < |T| ==> Renamed(NamesAlike(d, out), T[i], MapAll(T, f)[i])
  {
    hide Strings.Text, Strings.Distinct, Strings.Needed, Strings.IsStart, HasName, Renamed, SameName, MapNames;
    var refs := AllNames(T) + ext;
    var same := NamesAlike(d, out);
    forall i | 0 <= i < |T|
      ensures Renamed(same, T[i], MapAll(T, f)[i])
    {
      forall off: nat | HasName(T[i], off)
        ensures same(off, f(off))
      {
        AllNamesIff(T, off);
        assert off in refs;
        assert Strings.ReadsSame(d, out, off, rho[off]);
        SameText(d, off, out, rho[off]);
      }
      RecordRenamed(same, T[i], f);
    }
  }

  lemma CopiesRenamed(d: seq<char>, T: seq<BtfType>, f: nat -> nat, out: seq<char>, nu: seq<nat>, T': seq<BtfType>)
    requires Graph(T') && Graph(MapAll(T, f)) && |nu| == |T| && BtfDedup.Copies(MapAll(T, f), nu, T')
    requires forall i :: 0 <= i < |T| ==> Renamed(NamesAlike(d, out), T[i], MapAll(T, f)[i])
    ensures CopiesByFields(d, T, nu, out, T')
  {
    hide Graph, Renamed, BtfDedup.MovedTo, Moved, MapNames;
    var V := MapAll(T, f);
    forall j | 0 <= j < |T'|
      ensures CopiedFrom(d, T, nu, out, T', j)
    {
      assert BtfDedup.CopiedFrom(V, nu, T', j);
      var i :| 0 <= i < |V| && nu[i] == j && BtfDedup.MovedTo(V, nu, T', i);
      MovedRenamed(d, T, V, out, nu, T', i);
    }
  }

  lemma MovedRenamed(d: seq<char>, T: seq<BtfType>, V: seq<BtfType>, out: seq<char>, nu: seq<nat>,
                     T': seq<BtfType>, i: nat)
    requires Graph(T') && Graph(V) && |nu| == |T| == |V| && i < |V| && BtfDedup.MovedTo(V, nu, T', i)
    requires Renamed(NamesAlike(d, out), T[i], V[i])
    ensures Moved(d, T, nu, out, T', i)
  {
    hide Renamed, Shape, SameFields, SameName, WellFormed, Refs, Graph, Paired;
    var v, u := V[i], T'[nu[i]];
    InTable(V, i);
    InTable(T', nu[i]);
    ShapeIff(v, u);
    ShapeAndRefs(v, u);
    FieldsThrough(NamesAlike(d, out), T[i], v, u);
    forall x: nat, y: nat | Paired(T[i], u, x, y)
      ensures x < |nu| && y == nu[x]
    {
      PairedThrough(NamesAlike(d, out), T[i], v, u, x, y);
      PairedIff(v, u, x, y);
    }
  }

  lemma StandsRenamed(d: seq<char>, T: seq<BtfType>, f: nat -> nat, out: seq<char>, nu: seq<nat>, T': seq<BtfType>)
    requires |nu| == |T| && BtfDedup.Represented(MapAll(T, f), nu, T')
    requires forall i :: 0 <= i < |T| ==> Renamed(NamesAlike(d, out), T[i], MapAll(T, f)[i])
    ensures StandInByFields(d, T, nu, out, T')
  {
    hide Renamed, SameName, StandsIn, MapNames;
    var V := MapAll(T, f);
    forall i | 0 <= i < |T|
      ensures nu[i] < |T'| && StandsIn(NamesAlike(d, out), T[i], T'[nu[i]])
    {
      assert Stays(V[i], T'[nu[i]]);
      StandsThrough(NamesAlike(d, out), T[i], V[i], T'[nu[i]]);
    }
  }

  lemma FieldsComposed(d: seq<char>, T: seq<BtfType>, f: nat -> nat, out: seq<char>, nu: seq<nat>, T': seq<BtfType>)
    requires Graph(T') && Graph(MapAll(T, f)) && |nu| == |T| && BtfDedup.SameMeaning(MapAll(T, f), nu, T')
    requires forall i :: 0 <= i < |T| ==> Renamed(NamesAlike(d, out), T[i], MapAll(T, f)[i])
    ensures SameByFields(d, T, nu, out, T')
  {
    hide Renamed, Unfold, Agree, SameName, MapNames, Graph;
    var V := MapAll(T, f);
    forall i, n: nat | 0 <= i < |T|
      ensures Agree(NamesAlike(d, out), T, i, T', nu[i], n)
    {
      assert Unfold(T', nu[i], n) == Unfold(V, i, n);
      UnfoldIff(V, i, T', nu[i], n);
      AgreeRenamed(NamesAlike(d, out), T, V, i, T', nu[i], n);
    }
  }

  /** btf__dedup.  `ext` are the string references of .BTF.ext line information. */
  method Dedup(d: seq<char>, T: seq<BtfType>, ext: seq<nat>, noFwds: bool, collide: bool, ghost depth: seq<nat>,
               byContent: seq<Strings.StrPtr> -> seq<Strings.StrPtr>,
               byOffset: seq<Strings.StrPtr> -> seq<Strings.StrPtr>)
    returns (err: int, out: seq<char>, T': seq<BtfType>, rho: map<nat, nat>, ghost nu: seq<nat>)
    requires Graph(T) && Strings.Section(d)
    requires Strings.SortsByContent(byContent, d) && Strings.SortsByOffset(byOffset)
    ensures err == 0 ==> Graph(T') && BtfDedup.NoDuplicates(T') && BtfDedup.Onto(nu, |T'|)
    ensures err == 0 ==> Strings.Exact(d, AllNames(T) + ext, out, rho)
    ensures err == 0 && noFwds ==> SameNamedMeaning(d, T, nu, out, T') && SameByFields(d, T, nu, out, T')
    ensures err == 0 ==> CopiesByFields(d, T, nu, out, T') && StandInByFields(d, T, nu, out, T')
    ensures err == 0 ==> NamesStart(d, T, ext) && OnlyUsed(d, T, ext, out)
    ensures NamesStart(d, T, ext) && Layered(T, depth) && BtfDedup.NoVarRefs(T) ==> err == 0
  {
    hide Graph, Layered, BtfDedup.NoVarRefs, Strings.Exact, Strings.RefsOk, BtfDedup.SameMeaning, BtfDedup.Copies,
         BtfDedup.Represented, SameByFields, CopiesByFields, StandInByFields, OnlyUsed, NamesStart, SameNamedMeaning;
    StartsIff(d, T, ext);
    T', nu := [], [];
    err, out, rho := Strings.DedupStrings(d, AllNames(T) + ext, byContent, byOffset);
    if err != 0 {
      return;
    }
    var f := off => if off in rho then rho[off] else off;
    StringsKept(d, T, ext, out, rho, f);
    RenamedGraph(T, f);
    RenamedSides(T, f, depth);
    err, T', nu := BtfDedup.DedupTypes(MapAll(T, f), noFwds, collide, depth);
    if err == 0 {
      UsedByFields(d, T, ext, out, rho);
      RecordsRenamed(d, T, ext, out, rho, f);
      CopiesRenamed(d, T, f, out, nu, T');
      StandsRenamed(d, T, f, out, nu, T');
      if noFwds {
        Composed(d, T, f, out, nu, T');
        FieldsComposed(d, T, f, out, nu, T');
      }
    }
  }

  lemma StringsKept(d: seq<char>, T: seq<BtfType>, ext: seq<nat>, out: seq<char>, rho: map<nat, nat>, f: nat -> nat)
    requires Strings.Exact(d, AllNames(T) + ext, out, rho)
    requires forall off :: f(off) == if off in rho then rho[off] else off
    ensures f(0) == 0 && NamesKept(T, d, f, out)
  {
    hide Strings.Text, Strings.Distinct, Strings.Needed, NamesOf;
    var refs := AllNames(T) + ext;
    forall i, k | 0 <= i < |T| && 0 <= k < |NamesOf(T[i])|
      ensures ReadName(out, f(NamesOf(T[i])[k])) == ReadName(d, NamesOf(T[i])[k])
    {
      NamesListed(T, i, k);
      var a := NamesOf(T[i])[k];
      assert a in refs;
      assert a in rho;
      assert Strings.ReadsSame(d, out, a, rho[a]);
    }
  }

  lemma RenamedSides(T: seq<BtfType>, f: nat -> nat, depth: seq<nat>)
    requires Graph(T) && Graph(MapAll(T, f))
    requires forall i :: 0 <= i < |T| ==> Refs(MapAll(T, f)[i]) == Refs(T[i]) && MapAll(T, f)[i].info == T[i].info
    ensures Layered(T, depth) ==> Layered(MapAll(T, f), depth)
    ensures BtfDedup.NoVarRefs(T) ==> BtfDedup.NoVarRefs(MapAll(T, f))
  {
    hide Refs, WellFormed, MapAll;
    KidsOfAll(T);
    KidsOfAll(MapAll(T, f));
  }

  lemma KidsOfAll(T: seq<BtfType>)
    requires Graph(T)
    ensures forall i, k :: 0 <= i < |T| && 0 <= k < |Refs(T[i])| ==> Refs(T[i])[k] < |T|
  {
  }

  lemma Composed(d: seq<char>, T: seq<BtfType>, f: nat -> nat, out: seq<char>, nu: seq<nat>, T': seq<BtfType>)
    requires Graph(T) && Graph(T') && f(0) == 0 && Graph(MapAll(T, f)) && NamesKept(T, d, f, out) && |nu| == |T|
    requires BtfDedup.SameMeaning(MapAll(T, f), nu, T')
    ensures SameNamedMeaning(d, T, nu, out, T')
  {
    hide Unfold, WithStrings, MapAll, NamesKept;
    forall i, n: nat | 0 <= i < |T|
      ensures WithStrings(out, Unfold(T', nu[i], n)) == WithStrings(d, Unfold(T, i, n))
    {
      RenamedMeaning(T, d, f, out, i, n);
    }
  }
}
