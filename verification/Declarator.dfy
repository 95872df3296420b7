/** Printing C declarations from BTF type chains (lib/libbpf/src/btf_dump.c:921-1236), and reading them
    back by the declarator grammar of section 6.7.6 of ISO/IEC 9899:2011. */
module Declarator {

  datatype Qual = QConst | QVolatile | QRestrict

  /** One link of a type chain.  A chain starts with its base type and goes outwards, the order in which
      the declaration stack is popped; a modifier follows the link it applies to. */
  datatype Elem =
    | EBase(id: nat)
    | EOdd // a kind that has no place in a declaration
    | EPtr
    | EMod(q: Qual)
    | EArr(n: nat)
    | EFun(params: seq<ParamDecl>, dots: bool)

  datatype ParamDecl = ParamDecl(name: string, typ: seq<Elem>)

  datatype Token =
    | Spec(id: nat) | QualTok(q: Qual) | Star | LParen | RParen | Bracket(n: nat)
    | Comma | Dots | Name(name: string) | Space

  type Chain = seq<Elem>

  // ---------------------------------------------------------------- modifiers

  /** The modifiers at the head of what is left of the stack. */
  function Mods(c: Chain): seq<Qual> {
    if c != [] && c[0].EMod? then [c[0].q] + Mods(c[1..]) else []
  }

  function AfterMods(c: Chain): (r: Chain)
    ensures |r| <= |c|
    ensures r != [] ==> !r[0].EMod?
  {
    if c != [] && c[0].EMod? then AfterMods(c[1..]) else c
  }

  function ModElems(qs: seq<Qual>): Chain {
    if qs == [] then [] else [EMod(qs[0])] + ModElems(qs[1..])
  }

  // ---------------------------------------------------------------- printing

  function EmitName(name: string, lastWasPtr: bool): seq<Token> {
    if name == "" then [] else (if lastWasPtr then [] else [Space]) + [Name(name)]
  }

  /** btf_dump_emit_mods: each modifier followed by a space. */
  function EmitMods(qs: seq<Qual>): seq<Token> {
    if qs == [] then [] else [QualTok(qs[0]), Space] + EmitMods(qs[1..])
  }

  function Size(c: Chain): nat {
    if c == [] then 0 else 1 + ElemSize(c[0]) + Size(c[1..])
  }

  function ElemSize(e: Elem): nat {
    if e.EFun? then ParamsSize(e.params) else 0
  }

  function ParamsSize(ps: seq<ParamDecl>): nat {
    if ps == [] then 0 else 1 + Size(ps[0].typ) + ParamsSize(ps[1..])
  }

  lemma FunSize(c: Chain)
    requires c != [] && c[0].EFun?
    ensures ParamsSize(c[0].params) < Size(c)
  {
  }

  /** btf_dump_emit_type_chain */
  function PrintChain(c: Chain, name: string, lastWasPtr: bool): seq<Token>
    decreases Size(c)
  {
    if c == [] then EmitName(name, lastWasPtr)
    else
      var rest := c[1..];
      match c[0]
      case EBase(id) =>
        AfterModsSize(rest);
        EmitMods(Mods(rest)) + [Spec(id)] + PrintChain(AfterMods(rest), name, false)
      case EPtr => (if lastWasPtr then [Star] else [Space, Star]) + PrintChain(rest, name, true)
      case EMod(q) => [Space, QualTok(q)] + PrintChain(rest, name, false)
      case EOdd => []
      case EArr(n) =>
        AfterModsSize(rest);
        var inner := AfterMods(rest);
        if inner == [] then EmitName(name, lastWasPtr) + [Bracket(n)]
        else if inner[0].EArr? then Gap(name, lastWasPtr) + PrintChain(inner, name, true) + [Bracket(n)]
        else Gap(name, lastWasPtr) + [LParen] + PrintChain(inner, name, true) + [RParen, Bracket(n)]
      case EFun(ps, dots) =>
        AfterModsSize(rest);
        FunSize(c);
        var inner := AfterMods(rest);
        EmitMods(Mods(rest))
        + (if inner == [] then EmitName(name, lastWasPtr)
           else [Space, LParen] + PrintChain(inner, name, true) + [RParen])
        + [LParen] + PrintParams(ps, dots) + [RParen]
  }

  function Gap(name: string, lastWasPtr: bool): seq<Token> {
    if name != "" && !lastWasPtr then [Space] else []
  }

  function PrintParams(ps: seq<ParamDecl>, dots: bool): seq<Token>
    decreases ParamsSize(ps)
  {
    if ps == [] then (if dots then [Dots] else [])
    else PrintChain(ps[0].typ, ps[0].name, true)
         + (if |ps| > 1 || dots then [Comma, Space] else [])
         + PrintParams(ps[1..], dots)
  }

  lemma {:induction false} AfterModsSize(c: Chain)
    ensures Size(AfterMods(c)) <= Size(c)
  {
    if c != [] && c[0].EMod? {
      AfterModsSize(c[1..]);
    }
  }

  // ---------------------------------------------------------------- reading

  /** A declarator of the C grammar. */
  datatype Dcl =
    | DName(name: string)
    | DPtr(quals: seq<Qual>, d: Dcl)
    | DArr(d: Dcl, n: nat)
    | DFun(d: Dcl, params: seq<ParamDecl>, dots: bool)

  datatype Parsed<T> = Bad | Got(value: T, rest: seq<Token>)

  datatype Declaration = Declaration(typ: Chain, name: string)

  datatype ParamList = ParamList(params: seq<ParamDecl>, dots: bool)

  /** What the declared identifier is (section 6.7.6): read from the base type outwards. */
  function Meaning(d: Dcl, acc: Chain): Chain {
    match d
    case DName(_) => acc
    case DPtr(qs, e) => Meaning(e, acc + [EPtr] + ModElems(qs))
    case DArr(e, n) => Meaning(e, acc + [EArr(n)])
    case DFun(e, ps, dots) => Meaning(e, acc + [EFun(ps, dots)])
  }

  function NameOf(d: Dcl): string {
    match d
    case DName(n) => n
    case DPtr(_, e) => NameOf(e)
    case DArr(e, _) => NameOf(e)
    case DFun(e, _, _) => NameOf(e)
  }

  function LeadingQuals(ts: seq<Token>): (r: (seq<Qual>, seq<Token>))
    ensures |r.1| <= |ts|
  {
    if ts != [] && ts[0].QualTok? then
      var (qs, rest) := LeadingQuals(ts[1..]);
      ([ts[0].q] + qs, rest)
    else ([], ts)
  }

  /** After "(", these tokens begin a nested declarator; anything else begins a parameter list. */
  predicate StartsDeclarator(ts: seq<Token>) {
    ts != [] && (ts[0].Star? || ts[0].LParen? || ts[0].Name? || ts[0].Bracket?)
  }

  /** declaration: qualifiers and base type, then a declarator */
  function ReadDecl(ts: seq<Token>): (r: Parsed<Declaration>)
    ensures r.Got? ==> |r.rest| < |ts|
    decreases |ts|, 4
  {
    var (qs, more) := LeadingQuals(ts);
    if more == [] || !more[0].Spec? then Bad
    else match ReadDcl(more[1..])
      case Bad => Bad
      case Got(d, rest) => Got(Declaration(Meaning(d, [EBase(more[0].id)] + ModElems(qs)), NameOf(d)), rest)
  }

  /** declarator: pointer-opt direct-declarator */
  function ReadDcl(ts: seq<Token>): (r: Parsed<Dcl>)
    ensures r.Got? ==> |r.rest| <= |ts|
    decreases |ts|, 3
  {
    if ts != [] && ts[0].Star? then
      var (qs, more) := LeadingQuals(ts[1..]);
      match ReadDcl(more)
      case Bad => Bad
      case Got(d, rest) => Got(DPtr(qs, d), rest)
    else ReadDirect(ts)
  }

  /** direct-declarator: an identifier, a parenthesised declarator or nothing, then suffixes */
  function ReadDirect(ts: seq<Token>): (r: Parsed<Dcl>)
    ensures r.Got? ==> |r.rest| <= |ts|
    decreases |ts|, 2
  {
    if ts != [] && ts[0].Name? then ReadSuffixes(DName(ts[0].name), ts[1..])
    else if ts != [] && ts[0].LParen? && StartsDeclarator(ts[1..]) then
      match ReadDcl(ts[1..])
      case Bad => Bad
      case Got(d, rest) => if rest != [] && rest[0].RParen? then ReadSuffixes(d, rest[1..]) else Bad
    else ReadSuffixes(DName(""), ts)
  }

  function ReadSuffixes(d: Dcl, ts: seq<Token>): (r: Parsed<Dcl>)
    ensures r.Got? ==> |r.rest| <= |ts|
    decreases |ts|, 1
  {
    if ts != [] && ts[0].Bracket? then ReadSuffixes(DArr(d, ts[0].n), ts[1..])
    else if ts != [] && ts[0].LParen? then
      if |ts| > 1 && ts[1].RParen? then ReadSuffixes(DFun(d, [], false), ts[2..])
      else match ReadParams(ts[1..])
        case Bad => Bad
        case Got(pl, rest) => ReadSuffixes(DFun(d, pl.params, pl.dots), rest)
    else Got(d, ts)
  }

  /** parameter-type-list and the closing parenthesis */
  function ReadParams(ts: seq<Token>): (r: Parsed<ParamList>)
    ensures r.Got? ==> |r.rest| < |ts|
    decreases |ts|, 5
  {
    if |ts| > 1 && ts[0].Dots? && ts[1].RParen? then Got(ParamList([], true), ts[2..])
    else match ReadDecl(ts)
      case Bad => Bad
      case Got(p, rest) =>
        if rest == [] then Bad
        else if rest[0].RParen? then Got(ParamList([ParamDecl(p.name, p.typ)], false), rest[1..])
        else if rest[0].Comma? then
          match ReadParams(rest[1..])
          case Bad => Bad
          case Got(pl, rest') => Got(ParamList([ParamDecl(p.name, p.typ)] + pl.params, pl.dots), rest')
        else Bad
  }

  // ---------------------------------------------------------------- which chains

  /** No modifier directly on a function, and no base type but the first. */
  ghost predicate Outer(c: Chain)
    decreases Size(c), 0
  {
    c == [] ||
    ( && !c[0].EBase? && !c[0].EOdd?
      && (c[0].EFun? ==> (FunSize(c); AfterFun(c) && ProperParams(c[0].params) && (c[0].dots ==> c[0].params != [])))
      && Outer(c[1..]))
  }

  predicate AfterFun(c: Chain) { |c| > 1 ==> !c[1].EMod? }

  ghost predicate Proper(c: Chain)
    decreases Size(c), 1
  {
    c != [] && c[0].EBase? && Outer(c[1..])
  }

  ghost predicate ProperParams(ps: seq<ParamDecl>)
    decreases ParamsSize(ps), 2
  {
    ps != [] ==> Proper(ps[0].typ) && ProperParams(ps[1..])
  }

  /** What survives printing: modifiers on arrays are dropped. */
  function Norm(c: Chain): Chain
    decreases Size(c), 0
  {
    if c == [] then []
    else match c[0]
      case EArr(n) => AfterModsSize(c[1..]); [c[0]] + Norm(AfterMods(c[1..]))
      case EFun(ps, dots) => FunSize(c); [EFun(NormParams(ps), dots)] + Norm(c[1..])
      case _ => [c[0]] + Norm(c[1..])
  }

  function NormParams(ps: seq<ParamDecl>): seq<ParamDecl>
    decreases ParamsSize(ps), 1
  {
    if ps == [] then [] else [ParamDecl(ps[0].name, Norm(ps[0].typ))] + NormParams(ps[1..])
  }

  lemma {:induction false} OuterAfterMods(c: Chain)
    requires Outer(c)
    ensures Outer(AfterMods(c)) && Size(AfterMods(c)) <= Size(c)
  {
    if c != [] && c[0].EMod? {
      OuterAfterMods(c[1..]);
    }
  }

  lemma {:induction false} NormMods(c: Chain)
    ensures Norm(c) == ModElems(Mods(c)) + Norm(AfterMods(c))
  {
    if c != [] && c[0].EMod? {
      NormMods(c[1..]);
    }
  }

  // ---------------------------------------------------------------- tokens without spaces

  function Strip(ts: seq<Token>): seq<Token> {
    if ts == [] then [] else (if ts[0].Space? then [] else [ts[0]]) + Strip(ts[1..])
  }

  function NameTok(name: string): seq<Token> { if name == "" then [] else [Name(name)] }

  function QualToks(qs: seq<Qual>): seq<Token> {
    if qs == [] then [] else [QualTok(qs[0])] + QualToks(qs[1..])
  }

  function Flat(c: Chain, name: string): seq<Token>
    decreases Size(c), 0
  {
    if c == [] then NameTok(name)
    else
      var inner := AfterMods(c[1..]);
      AfterModsSize(c[1..]);
      match c[0]
      case EPtr => [Star] + QualToks(Mods(c[1..])) + Flat(inner, name)
      case EArr(n) =>
        if inner == [] || inner[0].EArr? then Flat(inner, name) + [Bracket(n)]
        else [LParen] + Flat(inner, name) + [RParen, Bracket(n)]
      case EFun(ps, dots) =>
        FunSize(c);
        (if inner == [] then NameTok(name) else [LParen] + Flat(inner, name) + [RParen])
        + [LParen] + FlatParams(ps, dots) + [RParen]
      case _ => []
  }

  function FlatDecl(c: Chain, name: string): seq<Token>
    requires c != [] && c[0].EBase?
    decreases Size(c), 1
  {
    AfterModsSize(c[1..]);
    QualToks(Mods(c[1..])) + [Spec(c[0].id)] + Flat(AfterMods(c[1..]), name)
  }

  function FlatParams(ps: seq<ParamDecl>, dots: bool): seq<Token>
    decreases ParamsSize(ps), 2
  {
    if ps == [] then (if dots then [Dots] else [])
    else
      (if ps[0].typ != [] && ps[0].typ[0].EBase? then FlatDecl(ps[0].typ, ps[0].name) else [])
      + (if |ps| > 1 || dots then [Comma] else []) + FlatParams(ps[1..], dots)
  }

  lemma {:induction false} StripAppend(a: seq<Token>, b: seq<Token>)
    ensures Strip(a + b) == Strip(a) + Strip(b)
  {
    if a == [] {
      assert a + b == b;
    } else {
      assert (a + b)[1..] == a[1..] + b;
      StripAppend(a[1..], b);
    }
  }

  lemma {:induction false} StripMods(qs: seq<Qual>)
    ensures Strip(EmitMods(qs)) == QualToks(qs)
  {
    if qs != [] {
      StripMods(qs[1..]);
      StripAppend([QualTok(qs[0]), Space], EmitMods(qs[1..]));
      assert Strip([QualTok(qs[0]), Space]) == [QualTok(qs[0])];
    }
  }

  lemma StripName(name: string, lastWasPtr: bool)
    ensures Strip(EmitName(name, lastWasPtr)) == NameTok(name) && Strip(Gap(name, lastWasPtr)) == []
  {
    StripTwo(Space, Name(name));
  }

  lemma StripTwo(a: Token, b: Token)
    ensures Strip([a]) == if a.Space? then [] else [a]
    ensures Strip([a, b]) == Strip([a]) + Strip([b])
  {
    StripAppend([a], [b]);
  }

  /** Ignoring spaces, the printer writes the flat form. */
  lemma {:induction false} StripChain(c: Chain, name: string, lastWasPtr: bool)
    requires Outer(c)
    ensures Strip(PrintChain(c, name, lastWasPtr)) == QualToks(Mods(c)) + Flat(AfterMods(c), name)
    decreases Size(c), 0
  {
    hide Strip, Outer, PrintChain, Flat;
    if c == [] {
      StripNothing(name, lastWasPtr);
    } else {
      var rest := c[1..];
      var inner := AfterMods(rest);
      OuterFacts(c);
      OuterAfterMods(rest);
      match c[0]
      case EPtr =>
        StripChain(rest, name, true);
        StripPtr(c, name, lastWasPtr);
      case EMod(q) =>
        StripChain(rest, name, false);
        StripMod(c, name, lastWasPtr);
      case EArr(n) =>
        if inner != [] {
          StripChain(inner, name, true);
        }
        StripArr(c, name, lastWasPtr);
      case EFun(ps, dots) =>
        FunSize(c);
        StripParams(ps, dots);
        if inner != [] {
          StripChain(inner, name, true);
        }
        StripFunction(c, name, lastWasPtr);
    }
  }

  lemma OuterFacts(c: Chain)
    requires Outer(c) && c != []
    ensures Outer(c[1..]) && !c[0].EBase? && !c[0].EOdd?
    ensures c[0].EFun? ==> ProperParams(c[0].params) && Mods(c[1..]) == []
    ensures AfterMods(AfterMods(c[1..])) == AfterMods(c[1..]) && Mods(AfterMods(c[1..])) == []
  {
  }

  lemma StripNothing(name: string, lastWasPtr: bool)
    ensures Strip(PrintChain([], name, lastWasPtr)) == QualToks(Mods([])) + Flat(AfterMods([]), name)
  {
    StripName(name, lastWasPtr);
  }

  lemma UnfoldPtr(c: Chain, name: string, lastWasPtr: bool)
    requires c != [] && c[0].EPtr?
    ensures PrintChain(c, name, lastWasPtr) ==
              (if lastWasPtr then [Star] else [Space, Star]) + PrintChain(c[1..], name, true)
    ensures Mods(c) == [] && AfterMods(c) == c
    ensures Flat(c, name) == [Star] + (QualToks(Mods(c[1..])) + Flat(AfterMods(c[1..]), name))
  {
  }

  lemma StripPtr(c: Chain, name: string, lastWasPtr: bool)
    requires c != [] && c[0].EPtr?
    requires Strip(PrintChain(c[1..], name, true)) == QualToks(Mods(c[1..])) + Flat(AfterMods(c[1..]), name)
    ensures Strip(PrintChain(c, name, lastWasPtr)) == QualToks(Mods(c)) + Flat(AfterMods(c), name)
  {
    StripTwo(Space, Star);
    StripTwo(Star, Star);
    UnfoldPtr(c, name, lastWasPtr);
    hide Strip, PrintChain, Flat, AfterMods, Mods;
    StripAppend(if lastWasPtr then [Star] else [Space, Star], PrintChain(c[1..], name, true));
  }

  lemma UnfoldMod(c: Chain, name: string, lastWasPtr: bool)
    requires c != [] && c[0].EMod?
    ensures PrintChain(c, name, lastWasPtr) == [Space, QualTok(c[0].q)] + PrintChain(c[1..], name, false)
    ensures QualToks(Mods(c)) == [QualTok(c[0].q)] + QualToks(Mods(c[1..])) && AfterMods(c) == AfterMods(c[1..])
  {
  }

  lemma StripMod(c: Chain, name: string, lastWasPtr: bool)
    requires c != [] && c[0].EMod?
    requires Strip(PrintChain(c[1..], name, false)) == QualToks(Mods(c[1..])) + Flat(AfterMods(c[1..]), name)
    ensures Strip(PrintChain(c, name, lastWasPtr)) == QualToks(Mods(c)) + Flat(AfterMods(c), name)
  {
    StripTwo(Space, QualTok(c[0].q));
    StripTwo(QualTok(c[0].q), Space);
    UnfoldMod(c, name, lastWasPtr);
    hide Strip, PrintChain, Flat, AfterMods, Mods, QualToks;
    StripAppend([Space, QualTok(c[0].q)], PrintChain(c[1..], name, false));
    Assoc([QualTok(c[0].q)], QualToks(Mods(c[1..])), Flat(AfterMods(c[1..]), name));
  }

  lemma Assoc<T>(a: seq<T>, b: seq<T>, c: seq<T>)
    ensures a + (b + c) == (a + b) + c
  {
  }

  lemma UnfoldArr(c: Chain, name: string, lastWasPtr: bool)
    requires c != [] && c[0].EArr?
    ensures var inner, n := AfterMods(c[1..]), c[0].n;
            PrintChain(c, name, lastWasPtr) ==
            if inner == [] then EmitName(name, lastWasPtr) + [Bracket(n)]
            else if inner[0].EArr? then Gap(name, lastWasPtr) + PrintChain(inner, name, true) + [Bracket(n)]
            else Gap(name, lastWasPtr) + [LParen] + PrintChain(inner, name, true) + [RParen, Bracket(n)]
    ensures AfterMods(c) == c && QualToks(Mods(c)) == [] && Flat([], name) == NameTok(name)
  {
  }

  lemma StripArr(c: Chain, name: string, lastWasPtr: bool)
    requires c != [] && c[0].EArr?
    requires AfterMods(c[1..]) != [] ==>
               Strip(PrintChain(AfterMods(c[1..]), name, true)) == Flat(AfterMods(c[1..]), name)
    ensures Strip(PrintChain(c, name, lastWasPtr)) == QualToks(Mods(c)) + Flat(AfterMods(c), name)
  {
    hide Strip, PrintChain, Flat, AfterMods, Mods, QualToks, NameTok, EmitName, Gap;
    var inner, n := AfterMods(c[1..]), c[0].n;
    UnfoldArr(c, name, lastWasPtr);
    UnfoldFlatArr(c, name);
    StripName(name, lastWasPtr);
    StripTwo(Bracket(n), Bracket(n));
    if inner == [] {
      StripAppend(EmitName(name, lastWasPtr), [Bracket(n)]);
    } else {
      StripArray(Gap(name, lastWasPtr), PrintChain(inner, name, true), n);
    }
  }

  lemma StripFunction(c: Chain, name: string, lastWasPtr: bool)
    requires c != [] && c[0].EFun? && Mods(c[1..]) == []
    requires Strip(PrintParams(c[0].params, c[0].dots)) == FlatParams(c[0].params, c[0].dots)
    requires AfterMods(c[1..]) != [] ==>
               Strip(PrintChain(AfterMods(c[1..]), name, true)) == Flat(AfterMods(c[1..]), name)
    ensures Strip(PrintChain(c, name, lastWasPtr)) == QualToks(Mods(c)) + Flat(AfterMods(c), name)
  {
    hide Strip;
    StripFun(AfterMods(c[1..]), name, lastWasPtr, c[0].params, c[0].dots);
    assert EmitMods(Mods(c[1..])) == [];
  }

  lemma StripArray(gap: seq<Token>, p: seq<Token>, n: nat)
    requires Strip(gap) == []
    ensures Strip(gap + p + [Bracket(n)]) == Strip(p) + [Bracket(n)]
    ensures Strip(gap + [LParen] + p + [RParen, Bracket(n)]) == [LParen] + Strip(p) + [RParen, Bracket(n)]
  {
    StripTwo(RParen, Bracket(n));
    StripTwo(Bracket(n), LParen);
    StripTwo(LParen, LParen);
    hide Strip;
    StripAppend(gap, p);
    StripAppend(gap + p, [Bracket(n)]);
    StripAppend(gap, [LParen]);
    StripAppend(gap + [LParen], p);
    StripAppend(gap + [LParen] + p, [RParen, Bracket(n)]);
  }

  lemma StripFun(inner: Chain, name: string, lastWasPtr: bool, ps: seq<ParamDecl>, dots: bool)
    requires Strip(PrintParams(ps, dots)) == FlatParams(ps, dots)
    ensures var head := if inner == [] then EmitName(name, lastWasPtr)
                        else [Space, LParen] + PrintChain(inner, name, true) + [RParen];
            Strip([] + head + [LParen] + PrintParams(ps, dots) + [RParen]) ==
            (if inner == [] then NameTok(name) else [LParen] + Strip(PrintChain(inner, name, true)) + [RParen])
            + [LParen] + FlatParams(ps, dots) + [RParen]
  {
    hide Strip, PrintChain, PrintParams, FlatParams, EmitName, NameTok;
    StripName(name, lastWasPtr);
    var p := PrintChain(inner, name, true);
    StripGroup(p);
    var head := if inner == [] then EmitName(name, lastWasPtr) else [Space, LParen] + p + [RParen];
    assert [] + head == head;
    StripCall(head, PrintParams(ps, dots));
  }

  lemma StripGroup(p: seq<Token>)
    ensures Strip([Space, LParen] + p + [RParen]) == [LParen] + Strip(p) + [RParen]
  {
    StripTwo(Space, LParen);
    StripTwo(LParen, RParen);
    StripTwo(RParen, RParen);
    hide Strip;
    StripAppend([Space, LParen], p);
    StripAppend([Space, LParen] + p, [RParen]);
  }

  lemma StripCall(head: seq<Token>, p: seq<Token>)
    ensures Strip(head + [LParen] + p + [RParen]) == Strip(head) + [LParen] + Strip(p) + [RParen]
  {
    StripTwo(LParen, RParen);
    StripTwo(RParen, RParen);
    hide Strip;
    StripAppend(head, [LParen]);
    StripAppend(head + [LParen], p);
    StripAppend(head + [LParen] + p, [RParen]);
  }

  lemma {:induction false} StripDecl(c: Chain, name: string, lastWasPtr: bool)
    requires Proper(c)
    ensures Strip(PrintChain(c, name, lastWasPtr)) == FlatDecl(c, name)
    decreases Size(c), 1
  {
    var rest := c[1..];
    var inner := AfterMods(rest);
    UnfoldBase(c, name, lastWasPtr);
    OuterAfterMods(rest);
    hide Strip, PrintChain, Flat, AfterMods, Mods, EmitMods, QualToks, Outer, Size;
    StripMods(Mods(rest));
    StripChain(inner, name, false);
    assert QualToks(Mods(inner)) + Flat(AfterMods(inner), name) == Flat(inner, name);
    StripThree(EmitMods(Mods(rest)), Spec(c[0].id), PrintChain(inner, name, false));
  }

  lemma StripThree(a: seq<Token>, t: Token, b: seq<Token>)
    requires !t.Space?
    ensures Strip(a + [t] + b) == Strip(a) + [t] + Strip(b)
  {
    StripTwo(t, t);
    hide Strip;
    StripAppend(a, [t]);
    StripAppend(a + [t], b);
  }

  lemma UnfoldBase(c: Chain, name: string, lastWasPtr: bool)
    requires c != [] && c[0].EBase?
    ensures PrintChain(c, name, lastWasPtr) ==
              EmitMods(Mods(c[1..])) + [Spec(c[0].id)] + PrintChain(AfterMods(c[1..]), name, false)
    ensures Mods(AfterMods(c[1..])) == [] && AfterMods(AfterMods(c[1..])) == AfterMods(c[1..]) && QualToks([]) == []
  {
  }

  lemma {:induction false} StripParams(ps: seq<ParamDecl>, dots: bool)
    requires ProperParams(ps)
    ensures Strip(PrintParams(ps, dots)) == FlatParams(ps, dots)
    decreases ParamsSize(ps), 2
  {
    if ps != [] {
      var a := PrintChain(ps[0].typ, ps[0].name, true);
      var b := if |ps| > 1 || dots then [Comma, Space] else [];
      var d := PrintParams(ps[1..], dots);
      StripDecl(ps[0].typ, ps[0].name, true);
      StripParams(ps[1..], dots);
      StripAppend(a, b);
      StripAppend(a + b, d);
      assert Strip([Comma, Space]) == [Comma];
    }
  }

  // ---------------------------------------------------------------- reading the flat form

  /** The declarator that a chain prints as. */
  function DclOf(c: Chain, name: string): Dcl
    decreases Size(c)
  {
    if c == [] then DName(name)
    else
      var inner := AfterMods(c[1..]);
      AfterModsSize(c[1..]);
      match c[0]
      case EPtr => DPtr(Mods(c[1..]), DclOf(inner, name))
      case EArr(n) => DArr(DclOf(inner, name), n)
      case EFun(ps, dots) => DFun(DclOf(inner, name), NormParams(ps), dots)
      case _ => DName(name)
  }

  /** Read inside out, that declarator means the chain again. */
  lemma {:induction false} MeaningOfDcl(c: Chain, name: string, acc: Chain)
    requires Outer(c) && Mods(c) == []
    ensures Meaning(DclOf(c, name), acc) == acc + Norm(c) && NameOf(DclOf(c, name)) == name
    decreases Size(c)
  {
    hide Outer, Norm, DclOf, Mods, AfterMods, NormParams, ModElems;
    UnfoldDcl(c, name);
    if c != [] {
      var rest := c[1..];
      var inner := AfterMods(rest);
      OuterFacts(c);
      OuterAfterMods(rest);
      NormMods(rest);
      match c[0]
      case EPtr =>
        MeaningOfDcl(inner, name, acc + [EPtr] + ModElems(Mods(rest)));
        assert acc + [EPtr] + ModElems(Mods(rest)) + Norm(inner) ==
                 acc + ([EPtr] + (ModElems(Mods(rest)) + Norm(inner)));
      case EArr(n) =>
        MeaningOfDcl(inner, name, acc + [EArr(n)]);
        assert acc + [EArr(n)] + Norm(inner) == acc + ([EArr(n)] + Norm(inner));
      case EFun(ps, dots) =>
        var e := EFun(NormParams(ps), dots);
        MeaningOfDcl(inner, name, acc + [e]);
        assert acc + [e] + Norm(inner) == acc + ([e] + Norm(inner));
      case EMod(_) =>
    }
  }

  lemma UnfoldDcl(c: Chain, name: string)
    requires Outer(c) && Mods(c) == []
    ensures c == [] ==> DclOf(c, name) == DName(name) && Norm(c) == []
    ensures c != [] ==> !c[0].EMod?
    ensures c != [] && c[0].EPtr? ==>
              DclOf(c, name) == DPtr(Mods(c[1..]), DclOf(AfterMods(c[1..]), name)) && Norm(c) == [EPtr] + Norm(c[1..])
    ensures c != [] && c[0].EArr? ==>
              && DclOf(c, name) == DArr(DclOf(AfterMods(c[1..]), name), c[0].n)
              && Norm(c) == [c[0]] + Norm(AfterMods(c[1..]))
    ensures c != [] && c[0].EFun? ==>
              && DclOf(c, name) == DFun(DclOf(AfterMods(c[1..]), name), NormParams(c[0].params), c[0].dots)
              && Norm(c) == [EFun(NormParams(c[0].params), c[0].dots)] + Norm(AfterMods(c[1..]))
  {
    if c != [] && c[0].EFun? {
      OuterFacts(c);
      assert AfterMods(c[1..]) == c[1..];
    }
  }

  /** What may follow a declarator. */
  predicate Follow(f: seq<Token>) { f == [] || f[0].RParen? || f[0].Comma? }

  /** What may follow an unfinished direct declarator. */
  predicate Suffix(s: seq<Token>) {
    || Follow(s)
    || s[0].Bracket?
    || (s[0].LParen? && !StartsDeclarator(s[1..]))
  }

  lemma {:induction false} ReadQuals(qs: seq<Qual>, f: seq<Token>)
    requires f == [] || !f[0].QualTok?
    ensures LeadingQuals(QualToks(qs) + f) == (qs, f)
  {
    if qs == [] {
      assert QualToks(qs) + f == f;
    } else {
      assert (QualToks(qs) + f)[1..] == QualToks(qs[1..]) + f;
      ReadQuals(qs[1..], f);
      assert [qs[0]] + qs[1..] == qs;
    }
  }

  /** How the flat form of a declarator begins. */
  lemma {:induction false} FlatStart(c: Chain, name: string)
    requires Outer(c) && Mods(c) == []
    ensures c != [] ==> StartsDeclarator(Flat(c, name))
    ensures c == [] ==> Flat(c, name) == NameTok(name)
    ensures c != [] && !c[0].EPtr? ==> !Flat(c, name)[0].Star?
    decreases Size(c)
  {
    if c != [] {
      OuterFacts(c);
      OuterAfterMods(c[1..]);
      FlatStart(AfterMods(c[1..]), name);
    }
  }

  lemma UnfoldFlatArr(c: Chain, name: string)
    requires c != [] && c[0].EArr?
    ensures var inner := AfterMods(c[1..]);
            Flat(c, name) == if inner == [] || inner[0].EArr? then Flat(inner, name) + [Bracket(c[0].n)]
                             else [LParen] + Flat(inner, name) + [RParen, Bracket(c[0].n)]
  {
  }

  lemma UnfoldFlatFun(c: Chain, name: string)
    requires c != [] && c[0].EFun?
    ensures var inner := AfterMods(c[1..]);
            Flat(c, name) == (if inner == [] then Flat(inner, name) else [LParen] + Flat(inner, name) + [RParen])
                             + Call(c[0].params, c[0].dots)
  {
    var inner := AfterMods(c[1..]);
    var head := if inner == [] then NameTok(name) else [LParen] + Flat(inner, name) + [RParen];
    Assoc(head, [LParen], FlatParams(c[0].params, c[0].dots));
    Assoc(head, [LParen] + FlatParams(c[0].params, c[0].dots), [RParen]);
  }

  function Call(ps: seq<ParamDecl>, dots: bool): seq<Token> {
    [LParen] + FlatParams(ps, dots) + [RParen]
  }

  /** A parameter list does not look like a nested declarator. */
  lemma ParamsStart(ps: seq<ParamDecl>, dots: bool, s: seq<Token>)
    requires ProperParams(ps) && (dots ==> ps != [])
    ensures Suffix(Call(ps, dots) + s)
    ensures ps != [] ==>
              && FlatParams(ps, dots) != []
              && (FlatParams(ps, dots)[0].QualTok? || FlatParams(ps, dots)[0].Spec?)
  {
    if ps != [] {
      var m := Mods(ps[0].typ[1..]);
      assert FlatDecl(ps[0].typ, ps[0].name) != [];
      if m != [] {
        assert QualToks(m)[0] == QualTok(m[0]);
      }
    }
    assert (Call(ps, dots) + s)[1..] == FlatParams(ps, dots) + [RParen] + s;
  }

  /** A flat declarator is read back as the declarator it prints. */
  lemma {:induction false} ReadFlat(c: Chain, name: string, f: seq<Token>)
    requires Outer(c) && Mods(c) == [] && Follow(f)
    ensures ReadDcl(Flat(c, name) + f) == Got(DclOf(c, name), f)
    decreases Size(c), 3
  {
    hide Outer, Flat, DclOf, Mods, AfterMods, ReadDcl, ReadDirect, ReadSuffixes, QualToks;
    FlatStart(c, name);
    UnfoldDcl(c, name);
    if c != [] && c[0].EPtr? {
      PtrFacts(c);
      ReadFlat(AfterMods(c[1..]), name, f);
      ReadFlatPtr(c, name, f);
    } else {
      SuffixesStop(DclOf(c, name), f);
      ReadFlatDirect(c, name, f);
      NotPointer(Flat(c, name) + f);
    }
  }

  lemma PtrFacts(c: Chain)
    requires Outer(c) && c != []
    ensures Outer(AfterMods(c[1..])) && Mods(AfterMods(c[1..])) == [] && Size(AfterMods(c[1..])) < Size(c)
  {
    OuterFacts(c);
    OuterAfterMods(c[1..]);
  }

  lemma ReadFlatPtr(c: Chain, name: string, f: seq<Token>)
    requires Outer(c) && c != [] && c[0].EPtr? && Follow(f)
    requires var inner := AfterMods(c[1..]); ReadDcl(Flat(inner, name) + f) == Got(DclOf(inner, name), f)
    ensures ReadDcl(Flat(c, name) + f) == Got(DPtr(Mods(c[1..]), DclOf(AfterMods(c[1..]), name)), f)
  {
    hide Outer, Flat, DclOf, Mods, AfterMods, ReadDcl, QualToks, LeadingQuals;
    var inner := AfterMods(c[1..]);
    PtrFacts(c);
    UnfoldPtr(c, name, true);
    FlatStart(inner, name);
    var after := Flat(inner, name) + f;
    assert Flat(c, name) + f == [Star] + (QualToks(Mods(c[1..])) + after);
    ReadPtr(Mods(c[1..]), after, DclOf(inner, name), f);
  }

  lemma SuffixesStop(d: Dcl, f: seq<Token>)
    requires Follow(f)
    ensures ReadSuffixes(d, f) == Got(d, f) && Suffix(f)
  {
  }

  lemma NotPointer(ts: seq<Token>)
    requires ts == [] || !ts[0].Star?
    ensures ReadDcl(ts) == ReadDirect(ts)
  {
  }

  lemma ReadPtr(qs: seq<Qual>, after: seq<Token>, d: Dcl, f: seq<Token>)
    requires (after == [] || !after[0].QualTok?) && ReadDcl(after) == Got(d, f)
    ensures ReadDcl([Star] + (QualToks(qs) + after)) == Got(DPtr(qs, d), f)
  {
    hide QualToks;
    var ts := [Star] + (QualToks(qs) + after);
    assert ts[1..] == QualToks(qs) + after;
    ReadQuals(qs, after);
  }

  lemma {:induction false} ReadFlatDirect(c: Chain, name: string, s: seq<Token>)
    requires Outer(c) && Mods(c) == [] && (c == [] || !c[0].EPtr?) && Suffix(s)
    ensures ReadDirect(Flat(c, name) + s) == ReadSuffixes(DclOf(c, name), s)
    decreases Size(c), 2
  {
    hide Outer, Flat, DclOf, Mods, AfterMods, FlatParams, ReadDirect, ReadSuffixes, Call, Suffix;
    if c == [] {
      ReadNone(name, s);
    } else {
      var inner := AfterMods(c[1..]);
      OuterFacts(c);
      OuterAfterMods(c[1..]);
      UnfoldDcl(c, name);
      if c[0].EArr? {
        var t := [Bracket(c[0].n)] + s;
        SuffixBracket(c[0].n, s);
        if inner == [] || inner[0].EArr? {
          ReadFlatDirect(inner, name, t);
        } else {
          ReadFlat(inner, name, [RParen] + t);
        }
        DirectArr(c, name, s);
      } else {
        FunSize(c);
        FunFacts(c);
        var t := Call(c[0].params, c[0].dots) + s;
        ParamsStart(c[0].params, c[0].dots, s);
        if inner == [] {
          ReadFlatDirect(inner, name, t);
        } else {
          ReadFlat(inner, name, [RParen] + t);
        }
        ReadCall(DclOf(inner, name), c[0].params, c[0].dots, s);
        DirectFun(c, name, s);
      }
    }
  }

  lemma ReadNone(name: string, s: seq<Token>)
    requires Suffix(s)
    ensures ReadDirect(Flat([], name) + s) == ReadSuffixes(DclOf([], name), s)
  {
    assert name == "" ==> Flat([], name) + s == s;
    assert name != "" ==> (Flat([], name) + s)[1..] == s;
  }

  lemma SuffixBracket(n: nat, s: seq<Token>)
    ensures Suffix([Bracket(n)] + s)
    ensures forall d :: ReadSuffixes(d, [Bracket(n)] + s) == ReadSuffixes(DArr(d, n), s)
  {
    assert ([Bracket(n)] + s)[1..] == s;
  }

  lemma DirectArr(c: Chain, name: string, s: seq<Token>)
    requires Outer(c) && c != [] && c[0].EArr?
    requires var inner, t := AfterMods(c[1..]), [Bracket(c[0].n)] + s;
             if inner == [] || inner[0].EArr?
             then ReadDirect(Flat(inner, name) + t) == ReadSuffixes(DclOf(inner, name), t)
             else ReadDcl(Flat(inner, name) + ([RParen] + t)) == Got(DclOf(inner, name), [RParen] + t)
    ensures ReadDirect(Flat(c, name) + s) == ReadSuffixes(DArr(DclOf(AfterMods(c[1..]), name), c[0].n), s)
  {
    hide Outer, Flat, DclOf, Mods, AfterMods, ReadDirect, ReadSuffixes, ReadDcl;
    var inner, t := AfterMods(c[1..]), [Bracket(c[0].n)] + s;
    OuterFacts(c);
    OuterAfterMods(c[1..]);
    UnfoldFlatArr(c, name);
    FlatStart(inner, name);
    SuffixBracket(c[0].n, s);
    if inner == [] || inner[0].EArr? {
      assert Flat(c, name) + s == Flat(inner, name) + t;
    } else {
      assert Flat(c, name) + s == [LParen] + (Flat(inner, name) + ([RParen] + t));
      ReadNested(Flat(inner, name), t, DclOf(inner, name));
    }
  }

  lemma DirectFun(c: Chain, name: string, s: seq<Token>)
    requires Outer(c) && c != [] && c[0].EFun?
    requires var inner, t := AfterMods(c[1..]), Call(c[0].params, c[0].dots) + s;
             && (if inner == [] then ReadDirect(Flat(inner, name) + t) == ReadSuffixes(DclOf(inner, name), t)
                 else ReadDcl(Flat(inner, name) + ([RParen] + t)) == Got(DclOf(inner, name), [RParen] + t))
             && ReadSuffixes(DclOf(inner, name), t) ==
               ReadSuffixes(DFun(DclOf(inner, name), NormParams(c[0].params), c[0].dots), s)
    ensures ReadDirect(Flat(c, name) + s) ==
            ReadSuffixes(DFun(DclOf(AfterMods(c[1..]), name), NormParams(c[0].params), c[0].dots), s)
  {
    hide Outer, Flat, DclOf, Mods, AfterMods, ReadDirect, ReadSuffixes, ReadDcl, Call;
    var inner, t := AfterMods(c[1..]), Call(c[0].params, c[0].dots) + s;
    OuterFacts(c);
    OuterAfterMods(c[1..]);
    UnfoldFlatFun(c, name);
    FlatStart(inner, name);
    if inner == [] {
      assert Flat(c, name) + s == Flat(inner, name) + t;
    } else {
      assert Flat(c, name) + s == [LParen] + (Flat(inner, name) + ([RParen] + t));
      ReadNested(Flat(inner, name), t, DclOf(inner, name));
    }
  }

  lemma FunFacts(c: Chain)
    requires Outer(c) && c != [] && c[0].EFun?
    ensures ProperParams(c[0].params) && (c[0].dots ==> c[0].params != [])
  {
  }

  lemma ReadNested(p: seq<Token>, t: seq<Token>, d: Dcl)
    requires StartsDeclarator(p) && ReadDcl(p + ([RParen] + t)) == Got(d, [RParen] + t)
    ensures ReadDirect([LParen] + (p + ([RParen] + t))) == ReadSuffixes(d, t)
  {
    var ts := [LParen] + (p + ([RParen] + t));
    assert ts[1..] == p + ([RParen] + t);
    assert ([RParen] + t)[1..] == t;
  }

  lemma {:induction false} ReadCall(d: Dcl, ps: seq<ParamDecl>, dots: bool, s: seq<Token>)
    requires ProperParams(ps) && (dots ==> ps != [])
    ensures ReadSuffixes(d, Call(ps, dots) + s) == ReadSuffixes(DFun(d, NormParams(ps), dots), s)
    decreases ParamsSize(ps), 4
  {
    var ts := Call(ps, dots) + s;
    if ps == [] {
      assert ts[2..] == s;
    } else {
      hide ReadParams, FlatParams, NormParams, Outer, Proper, ProperParams, StartsDeclarator, Follow;
      ParamsStart(ps, dots, s);
      assert ts[1..] == FlatParams(ps, dots) + [RParen] + s;
      assert ts[1] == FlatParams(ps, dots)[0];
      ReadFlatParams(ps, dots, s);
    }
  }

  lemma {:induction false} ReadFlatDecl(c: Chain, name: string, f: seq<Token>)
    requires Proper(c) && Follow(f)
    ensures ReadDecl(FlatDecl(c, name) + f) == Got(Declaration(Norm(c), name), f)
    decreases Size(c), 4
  {
    hide Flat, DclOf, Mods, AfterMods, Norm, ReadDcl, QualToks;
    var rest := c[1..];
    var inner := AfterMods(rest);
    BaseNorm(c);
    var after := Flat(inner, name) + f;
    assert FlatDecl(c, name) + f == QualToks(Mods(rest)) + ([Spec(c[0].id)] + after);
    ReadFlat(inner, name, f);
    MeaningOfDcl(inner, name, [EBase(c[0].id)] + ModElems(Mods(rest)));
    ReadBase(Mods(rest), c[0].id, after, DclOf(inner, name), f);
  }

  lemma BaseNorm(c: Chain)
    requires Proper(c)
    ensures Outer(AfterMods(c[1..])) && Size(AfterMods(c[1..])) < Size(c) && Mods(AfterMods(c[1..])) == []
    ensures Norm(c) == [EBase(c[0].id)] + ModElems(Mods(c[1..])) + Norm(AfterMods(c[1..]))
  {
    OuterAfterMods(c[1..]);
    NormMods(c[1..]);
    Assoc([EBase(c[0].id)], ModElems(Mods(c[1..])), Norm(AfterMods(c[1..])));
  }

  lemma ReadBase(qs: seq<Qual>, id: nat, after: seq<Token>, d: Dcl, f: seq<Token>)
    requires ReadDcl(after) == Got(d, f)
    ensures ReadDecl(QualToks(qs) + ([Spec(id)] + after)) ==
            Got(Declaration(Meaning(d, [EBase(id)] + ModElems(qs)), NameOf(d)), f)
  {
    hide QualToks, ReadDcl, Meaning;
    var more := [Spec(id)] + after;
    ReadQuals(qs, more);
    assert more[1..] == after;
  }

  lemma {:induction false} ReadFlatParams(ps: seq<ParamDecl>, dots: bool, f: seq<Token>)
    requires ProperParams(ps) && (ps != [] || dots)
    ensures ReadParams(FlatParams(ps, dots) + [RParen] + f) == Got(ParamList(NormParams(ps), dots), f)
    decreases ParamsSize(ps), 3
  {
    var ts := FlatParams(ps, dots) + [RParen] + f;
    if ps == [] {
      assert ts[2..] == f;
    } else {
      var p := ps[0];
      FirstParam(ps, dots, f);
      hide FlatDecl, ReadDecl, Outer, Norm, FlatParams, NormParams, ReadParams;
      if |ps| == 1 && !dots {
        ReadFlatDecl(p.typ, p.name, [RParen] + f);
        assert ([RParen] + f)[1..] == f;
        ReadLast(ts, p.name, Norm(p.typ), [RParen] + f);
        assert NormParams(ps) == [ParamDecl(p.name, Norm(p.typ))];
      } else {
        var tail := FlatParams(ps[1..], dots) + [RParen] + f;
        ReadFlatDecl(p.typ, p.name, [Comma] + tail);
        ReadFlatParams(ps[1..], dots, f);
        ReadMore(ts, p.name, Norm(p.typ), tail, NormParams(ps[1..]), dots, f);
      }
    }
  }

  lemma FirstParam(ps: seq<ParamDecl>, dots: bool, f: seq<Token>)
    requires ProperParams(ps) && ps != []
    ensures Proper(ps[0].typ) && ProperParams(ps[1..])
    ensures NormParams(ps) == [ParamDecl(ps[0].name, Norm(ps[0].typ))] + NormParams(ps[1..])
    ensures |ps| == 1 && !dots ==>
              FlatParams(ps, dots) + [RParen] + f == FlatDecl(ps[0].typ, ps[0].name) + ([RParen] + f)
                && NormParams(ps[1..]) == []
    ensures |ps| > 1 || dots ==>
              FlatParams(ps, dots) + [RParen] + f ==
                FlatDecl(ps[0].typ, ps[0].name) + ([Comma] + (FlatParams(ps[1..], dots) + [RParen] + f))
  {
    hide FlatDecl, Norm, Outer;
  }

  lemma ReadLast(ts: seq<Token>, name: string, typ: Chain, rest: seq<Token>)
    requires ReadDecl(ts) == Got(Declaration(typ, name), rest) && rest != [] && rest[0].RParen?
    ensures ReadParams(ts) == Got(ParamList([ParamDecl(name, typ)], false), rest[1..])
  {
    NoDots(ts);
  }

  lemma ReadMore(ts: seq<Token>, name: string, typ: Chain, tail: seq<Token>, ps: seq<ParamDecl>, dots: bool,
                 f: seq<Token>)
    requires ReadDecl(ts) == Got(Declaration(typ, name), [Comma] + tail)
    requires ReadParams(tail) == Got(ParamList(ps, dots), f)
    ensures ReadParams(ts) == Got(ParamList([ParamDecl(name, typ)] + ps, dots), f)
  {
    NoDots(ts);
    assert ([Comma] + tail)[1..] == tail;
  }

  lemma NoDots(ts: seq<Token>)
    requires ReadDecl(ts).Got?
    ensures ts != [] && !ts[0].Dots?
  {
  }

  // ---------------------------------------------------------------- spacing

  predicate Word(t: Token) { t.Spec? || t.QualTok? || t.Name? }

  /** No two words run together. */
  ghost predicate Spaced(ts: seq<Token>) {
    forall i :: 0 <= i < |ts| - 1 ==> !(Word(ts[i]) && Word(ts[i + 1]))
  }

  predicate OpensWithWord(ts: seq<Token>) { ts != [] && Word(ts[0]) }
  predicate EndsWithWord(ts: seq<Token>) { ts != [] && Word(ts[|ts| - 1]) }

  lemma SpacedAppend(a: seq<Token>, b: seq<Token>)
    requires Spaced(a) && Spaced(b) && !(EndsWithWord(a) && OpensWithWord(b))
    ensures Spaced(a + b)
  {
    var ts := a + b;
    forall i | 0 <= i < |ts| - 1
      ensures !(Word(ts[i]) && Word(ts[i + 1]))
    {
      if i < |a| - 1 {
        assert ts[i] == a[i] && ts[i + 1] == a[i + 1];
      } else if i >= |a| {
        assert ts[i] == b[i - |a|] && ts[i + 1] == b[i - |a| + 1];
      }
    }
  }

  lemma {:induction false} SpacedMods(qs: seq<Qual>)
    ensures Spaced(EmitMods(qs)) && !EndsWithWord(EmitMods(qs))
  {
    if qs != [] {
      SpacedMods(qs[1..]);
      SpacedAppend([QualTok(qs[0]), Space], EmitMods(qs[1..]));
    }
  }

  /** The printer separates words, given that lastWasPtr is false after a word. */
  lemma {:induction false} SpacedChain(c: Chain, name: string, lastWasPtr: bool)
    requires Outer(c) || (Proper(c) && lastWasPtr)
    ensures Spaced(PrintChain(c, name, lastWasPtr))
    ensures !lastWasPtr ==> !OpensWithWord(PrintChain(c, name, lastWasPtr))
    ensures c != [] && c[0].EArr? && name == "" ==> !OpensWithWord(PrintChain(c, name, lastWasPtr))
    decreases Size(c), 0
  {
    if c != [] {
      var rest := c[1..];
      var inner := AfterMods(rest);
      OuterAfterMods(rest);
      match c[0]
      case EBase(id) => SpacedChain(inner, name, false); SpacedBase(c, name, lastWasPtr);
      case EPtr =>
        SpacedChain(rest, name, true);
        SpacedAppend(if lastWasPtr then [Star] else [Space, Star], PrintChain(rest, name, true));
      case EMod(q) => SpacedChain(rest, name, false); SpacedAppend([Space, QualTok(q)], PrintChain(rest, name, false));
      case EArr(n) =>
        if inner != [] {
          SpacedChain(inner, name, true);
        }
        SpacedArr(c, name, lastWasPtr);
      case EFun(ps, dots) =>
        FunSize(c);
        SpacedParams(ps, dots);
        if inner != [] {
          SpacedChain(inner, name, true);
        }
        SpacedFun(c, name, lastWasPtr);
    }
  }

  lemma SpacedBase(c: Chain, name: string, lastWasPtr: bool)
    requires c != [] && c[0].EBase?
    requires Spaced(PrintChain(AfterMods(c[1..]), name, false))
    requires !OpensWithWord(PrintChain(AfterMods(c[1..]), name, false))
    ensures Spaced(PrintChain(c, name, lastWasPtr))
  {
    UnfoldBase(c, name, lastWasPtr);
    hide PrintChain, EmitMods, Spaced;
    var m, p := EmitMods(Mods(c[1..])), PrintChain(AfterMods(c[1..]), name, false);
    SpacedMods(Mods(c[1..]));
    SpacedOne(Spec(c[0].id));
    SpacedAppend(m, [Spec(c[0].id)]);
    SpacedAppend(m + [Spec(c[0].id)], p);
  }

  lemma SpacedOne(t: Token)
    ensures Spaced([t])
  {
  }

  lemma SpacedArr(c: Chain, name: string, lastWasPtr: bool)
    requires c != [] && c[0].EArr?
    requires var inner := AfterMods(c[1..]); inner != [] ==>
               && Spaced(PrintChain(inner, name, true))
               && (inner[0].EArr? && name == "" ==> !OpensWithWord(PrintChain(inner, name, true)))
    ensures Spaced(PrintChain(c, name, lastWasPtr))
    ensures !lastWasPtr || name == "" ==> !OpensWithWord(PrintChain(c, name, lastWasPtr))
  {
    var inner, n := AfterMods(c[1..]), c[0].n;
    if inner == [] {
      SpacedAppend(EmitName(name, lastWasPtr), [Bracket(n)]);
    } else {
      var gap, p := Gap(name, lastWasPtr), PrintChain(inner, name, true);
      SpacedAppend(gap, p);
      SpacedAppend(gap + p, [Bracket(n)]);
      SpacedAppend(gap, [LParen]);
      SpacedAppend(gap + [LParen], p);
      SpacedAppend(gap + [LParen] + p, [RParen, Bracket(n)]);
    }
  }

  lemma SpacedFun(c: Chain, name: string, lastWasPtr: bool)
    requires c != [] && c[0].EFun? && Mods(c[1..]) == []
    requires Spaced(PrintParams(c[0].params, c[0].dots))
    requires AfterMods(c[1..]) != [] ==> Spaced(PrintChain(AfterMods(c[1..]), name, true))
    ensures Spaced(PrintChain(c, name, lastWasPtr))
    ensures !lastWasPtr ==> !OpensWithWord(PrintChain(c, name, lastWasPtr))
  {
    var inner, ps := AfterMods(c[1..]), PrintParams(c[0].params, c[0].dots);
    var p := PrintChain(inner, name, true);
    var head := if inner == [] then EmitName(name, lastWasPtr) else [Space, LParen] + p + [RParen];
    if inner != [] {
      SpacedAppend([Space, LParen], p);
      SpacedAppend([Space, LParen] + p, [RParen]);
    }
    SpacedAppend(head, [LParen]);
    SpacedAppend(head + [LParen], ps);
    SpacedAppend(head + [LParen] + ps, [RParen]);
    assert PrintChain(c, name, lastWasPtr) == [] + head + [LParen] + ps + [RParen];
    assert [] + head == head;
  }

  lemma {:induction false} SpacedParams(ps: seq<ParamDecl>, dots: bool)
    requires ProperParams(ps)
    ensures Spaced(PrintParams(ps, dots))
    decreases ParamsSize(ps), 1
  {
    if ps != [] {
      var a := PrintChain(ps[0].typ, ps[0].name, true);
      var b := if |ps| > 1 || dots then [Comma, Space] else [];
      var d := PrintParams(ps[1..], dots);
      SpacedChain(ps[0].typ, ps[0].name, true);
      SpacedParams(ps[1..], dots);
      SpacedAppend(a, b);
      SpacedAppend(a + b, d);
    }
  }

  // ---------------------------------------------------------------- the round trip

  /** Lexing drops spaces, but only between separated words. */
  ghost function ReadText(ts: seq<Token>): Parsed<Declaration> {
    if Spaced(ts) then ReadDecl(Strip(ts)) else Bad
  }

  /** The printed declaration, read by the C grammar, declares the given name with the given type. */
  lemma RoundTrip(c: Chain, name: string)
    requires Proper(c)
    ensures ReadText(PrintChain(c, name, true)) == Got(Declaration(Norm(c), name), [])
  {
    hide PrintChain, Strip, ReadDecl, Norm, FlatDecl;
    SpacedChain(c, name, true);
    StripDecl(c, name, true);
    ReadFlatDecl(c, name, []);
    assert FlatDecl(c, name) + [] == FlatDecl(c, name);
  }

  // ---------------------------------------------------------------- exactly when it works

  /** A base type first and no other, in the chain and in every parameter. */
  ghost predicate Shaped(c: Chain)
    decreases Size(c), 1
  {
    c != [] && c[0].EBase? && ShapedOuter(c[1..])
  }

  ghost predicate ShapedOuter(c: Chain)
    decreases Size(c), 0
  {
    c == [] ||
    ( && !c[0].EBase? && !c[0].EOdd?
      && (c[0].EFun? ==> (FunSize(c); ShapedParams(c[0].params) && (c[0].dots ==> c[0].params != [])))
      && ShapedOuter(c[1..]))
  }

  ghost predicate ShapedParams(ps: seq<ParamDecl>)
    decreases ParamsSize(ps), 2
  {
    ps != [] ==> Shaped(ps[0].typ) && ShapedParams(ps[1..])
  }

  /** No modifier stands directly on a function, in the chain or in a parameter. */
  predicate Clean(c: Chain)
    decreases Size(c), 0
  {
    c == [] || ((c[0].EFun? ==> (FunSize(c); AfterFun(c) && CleanParams(c[0].params))) && Clean(c[1..]))
  }

  predicate CleanParams(ps: seq<ParamDecl>)
    decreases ParamsSize(ps), 1
  {
    ps != [] ==> Clean(ps[0].typ) && CleanParams(ps[1..])
  }

  lemma {:induction false} OuterIff(c: Chain)
    ensures Outer(c) <==> ShapedOuter(c) && Clean(c)
    decreases Size(c), 0
  {
    if c != [] {
      OuterIff(c[1..]);
      if c[0].EFun? {
        FunSize(c);
        ParamsIff(c[0].params);
      }
    }
  }

  lemma {:induction false} ParamsIff(ps: seq<ParamDecl>)
    ensures ProperParams(ps) <==> ShapedParams(ps) && CleanParams(ps)
    decreases ParamsSize(ps), 1
  {
    if ps != [] {
      var c := ps[0].typ;
      if c != [] {
        assert Size(c[1..]) < Size(c);
        OuterIff(c[1..]);
      }
      ParamsIff(ps[1..]);
    }
  }

  lemma {:induction false} CleanAppend(a: Chain, b: Chain)
    requires Clean(a) && Clean(b) && (b == [] || !b[0].EMod?)
    ensures Clean(a + b)
    decreases |a|
  {
    if a == [] {
      assert a + b == b;
    } else {
      assert (a + b)[1..] == a[1..] + b;
      CleanAppend(a[1..], b);
    }
  }

  lemma {:induction false} CleanMods(qs: seq<Qual>)
    ensures Clean(ModElems(qs))
  {
    if qs != [] {
      CleanMods(qs[1..]);
      assert ModElems(qs)[1..] == ModElems(qs[1..]);
    }
  }

  lemma CleanHead(e: Elem, qs: seq<Qual>)
    requires !e.EFun?
    ensures Clean([e] + ModElems(qs))
  {
    CleanMods(qs);
    assert ([e] + ModElems(qs))[1..] == ModElems(qs);
  }

  predicate CleanDcl(d: Dcl) {
    match d
    case DName(_) => true
    case DPtr(_, e) => CleanDcl(e)
    case DArr(e, _) => CleanDcl(e)
    case DFun(e, ps, _) => CleanDcl(e) && CleanParams(ps)
  }

  /** C has no syntax that puts a qualifier on a function, so no declarator means one. */
  lemma {:induction false} MeaningClean(d: Dcl, acc: Chain)
    requires CleanDcl(d) && Clean(acc)
    ensures Clean(Meaning(d, acc))
  {
    match d
    case DName(_) =>
    case DPtr(qs, e) =>
      CleanHead(EPtr, qs);
      CleanAppend(acc, [EPtr] + ModElems(qs));
      Assoc(acc, [EPtr], ModElems(qs));
      MeaningClean(e, acc + [EPtr] + ModElems(qs));
    case DArr(e, n) =>
      CleanAppend(acc, [EArr(n)]);
      MeaningClean(e, acc + [EArr(n)]);
    case DFun(e, ps, dots) =>
      assert [EFun(ps, dots)][1..] == [];
      CleanAppend(acc, [EFun(ps, dots)]);
      MeaningClean(e, acc + [EFun(ps, dots)]);
  }

  lemma {:induction false} ReadDeclClean(ts: seq<Token>)
    ensures ReadDecl(ts).Got? ==> Clean(ReadDecl(ts).value.typ)
    decreases |ts|, 4
  {
    hide Clean, CleanDcl;
    var (qs, more) := LeadingQuals(ts);
    if more != [] && more[0].Spec? {
      ReadDclClean(more[1..]);
      var r := ReadDcl(more[1..]);
      if r.Got? {
        CleanHead(EBase(more[0].id), qs);
        MeaningClean(r.value, [EBase(more[0].id)] + ModElems(qs));
      }
    }
  }

  lemma {:induction false} ReadDclClean(ts: seq<Token>)
    ensures ReadDcl(ts).Got? ==> CleanDcl(ReadDcl(ts).value)
    decreases |ts|, 3
  {
    if ts != [] && ts[0].Star? {
      ReadDclClean(LeadingQuals(ts[1..]).1);
    } else if ts != [] && ts[0].Name? {
      ReadSuffixesClean(DName(ts[0].name), ts[1..]);
    } else if ts != [] && ts[0].LParen? && StartsDeclarator(ts[1..]) {
      ReadDclClean(ts[1..]);
      var r := ReadDcl(ts[1..]);
      if r.Got? && r.rest != [] {
        ReadSuffixesClean(r.value, r.rest[1..]);
      }
    } else {
      ReadSuffixesClean(DName(""), ts);
    }
  }

  lemma {:induction false} ReadSuffixesClean(d: Dcl, ts: seq<Token>)
    requires CleanDcl(d)
    ensures ReadSuffixes(d, ts).Got? ==> CleanDcl(ReadSuffixes(d, ts).value)
    decreases |ts|, 1
  {
    if ts != [] && ts[0].Bracket? {
      ReadSuffixesClean(DArr(d, ts[0].n), ts[1..]);
    } else if ts != [] && ts[0].LParen? {
      if |ts| > 1 && ts[1].RParen? {
        ReadSuffixesClean(DFun(d, [], false), ts[2..]);
      } else {
        ReadParamsClean(ts[1..]);
        var r := ReadParams(ts[1..]);
        if r.Got? {
          ReadSuffixesClean(DFun(d, r.value.params, r.value.dots), r.rest);
        }
      }
    }
  }

  lemma {:induction false} ReadParamsClean(ts: seq<Token>)
    ensures ReadParams(ts).Got? ==> CleanParams(ReadParams(ts).value.params)
    decreases |ts|, 5
  {
    hide Clean, ReadDecl;
    ReadDeclClean(ts);
    var r := ReadDecl(ts);
    if r.Got? && r.rest != [] {
      ReadParamsClean(r.rest[1..]);
    }
  }

  lemma {:induction false} CleanAfterMods(c: Chain)
    requires Clean(AfterMods(c))
    ensures Clean(c)
  {
    if c != [] && c[0].EMod? {
      CleanAfterMods(c[1..]);
    }
  }

  /** Dropping modifiers of arrays hides no modifier of a function. */
  lemma {:induction false} NormClean(c: Chain)
    requires Clean(Norm(c))
    ensures Clean(c)
    decreases Size(c), 0
  {
    if c != [] {
      var rest := c[1..];
      assert Norm(c)[1..] == if c[0].EArr? then Norm(AfterMods(rest)) else Norm(rest);
      if c[0].EArr? {
        AfterModsSize(rest);
        NormClean(AfterMods(rest));
        CleanAfterMods(rest);
      } else {
        NormClean(rest);
        if c[0].EFun? {
          FunSize(c);
          NormParamsClean(c[0].params);
          NormHead(rest);
        }
      }
    }
  }

  lemma NormHead(c: Chain)
    ensures c != [] && c[0].EMod? ==> Norm(c) != [] && Norm(c)[0].EMod?
  {
  }

  lemma {:induction false} NormParamsClean(ps: seq<ParamDecl>)
    requires CleanParams(NormParams(ps))
    ensures CleanParams(ps)
    decreases ParamsSize(ps), 1
  {
    if ps != [] {
      assert NormParams(ps)[1..] == NormParams(ps[1..]);
      NormClean(ps[0].typ);
      NormParamsClean(ps[1..]);
    }
  }

  /** The printed declaration reads back as the type exactly when no modifier stands on a function:
      the printer writes such a modifier in front of the function's declarator, where it is glued to
      the previous word or read as part of the return type. */
  lemma RoundTripIff(c: Chain, name: string)
    requires Shaped(c)
    ensures ReadText(PrintChain(c, name, true)) == Got(Declaration(Norm(c), name), []) <==> Clean(c)
  {
    hide PrintChain, Strip, ReadDecl, Norm, Spaced;
    OuterIff(c[1..]);
    if Clean(c) {
      RoundTrip(c, name);
    } else {
      ReadDeclClean(Strip(PrintChain(c, name, true)));
      if Clean(Norm(c)) {
        NormClean(c);
      }
    }
  }

  // ---------------------------------------------------------------- reading back the very type

  /** No modifier follows an array, in the chain or in a parameter. */
  predicate PlainArrays(c: Chain)
    decreases Size(c), 0
  {
    c == [] ||
    ( && (c[0].EArr? && |c| > 1 ==> !c[1].EMod?)
      && (c[0].EFun? ==> (FunSize(c); PlainParams(c[0].params)))
      && PlainArrays(c[1..]))
  }

  predicate PlainParams(ps: seq<ParamDecl>)
    decreases ParamsSize(ps), 1
  {
    ps != [] ==> PlainArrays(ps[0].typ) && PlainParams(ps[1..])
  }

  lemma {:induction false} AfterModsLength(c: Chain)
    ensures AfterMods(c) == c <==> c == [] || !c[0].EMod?
    ensures |AfterMods(c)| <= |c| && (|AfterMods(c)| == |c| ==> AfterMods(c) == c)
  {
    if c != [] && c[0].EMod? {
      AfterModsLength(c[1..]);
    }
  }

  lemma UnfoldNorm(c: Chain)
    requires c != []
    ensures c[0].EArr? ==> Norm(c) == [c[0]] + Norm(AfterMods(c[1..]))
    ensures c[0].EFun? ==> Norm(c) == [EFun(NormParams(c[0].params), c[0].dots)] + Norm(c[1..])
    ensures !c[0].EArr? && !c[0].EFun? ==> Norm(c) == [c[0]] + Norm(c[1..])
  {
  }

  lemma {:induction false} NormLength(c: Chain)
    ensures |Norm(c)| <= |c|
    decreases Size(c)
  {
    if c != [] {
      UnfoldNorm(c);
      hide Norm;
      var rest := c[1..];
      AfterModsSize(rest);
      AfterModsLength(rest);
      NormLength(rest);
      NormLength(AfterMods(rest));
    }
  }

  /** Nothing is dropped exactly when no array carries a modifier. */
  lemma {:induction false} NormIsIdentity(c: Chain)
    ensures Norm(c) == c <==> PlainArrays(c)
    decreases Size(c), 0
  {
    if c != [] {
      UnfoldNorm(c);
      hide Norm, NormParams;
      var rest := c[1..];
      assert c == [c[0]] + rest;
      NormIsIdentity(rest);
      if c[0].EArr? {
        AfterModsLength(rest);
        NormLength(AfterMods(rest));
        assert Norm(c)[1..] == Norm(AfterMods(rest));
      } else if c[0].EFun? {
        FunSize(c);
        NormParamsIdentity(c[0].params);
        assert Norm(c)[1..] == Norm(rest) && Norm(c)[0] == EFun(NormParams(c[0].params), c[0].dots);
      } else {
        assert Norm(c)[1..] == Norm(rest);
      }
    }
  }

  lemma {:induction false} NormParamsIdentity(ps: seq<ParamDecl>)
    ensures NormParams(ps) == ps <==> PlainParams(ps)
    decreases ParamsSize(ps), 1
  {
    if ps != [] {
      hide Norm;
      assert ps == [ps[0]] + ps[1..];
      assert NormParams(ps)[1..] == NormParams(ps[1..]) && NormParams(ps)[0] == ParamDecl(ps[0].name, Norm(ps[0].typ));
      NormIsIdentity(ps[0].typ);
      NormParamsIdentity(ps[1..]);
    }
  }

  /** The text reads back as the very type exactly when no modifier stands on a function or an array. */
  lemma ReadsItselfIff(c: Chain, name: string)
    requires Shaped(c)
    ensures ReadText(PrintChain(c, name, true)) == Got(Declaration(c, name), []) <==> Clean(c) && PlainArrays(c)
  {
    hide PrintChain, Strip, ReadDecl, Norm, Spaced, Clean, PlainArrays, Shaped;
    RoundTripIff(c, name);
    NormIsIdentity(c);
    ReadDeclClean(Strip(PrintChain(c, name, true)));
  }

  /** A const function returning a pointer to int prints as a function returning a const pointer. */
  lemma ModifiedFunctionMisread()
    ensures var c := [EBase(1), EPtr, EFun([], false), EMod(QConst)];
            ReadText(PrintChain(c, "f", true)) ==
              Got(Declaration([EBase(1), EPtr, EMod(QConst), EFun([], false)], "f"), [])
  {
    hide ReadDecl, Outer, Norm, Strip, FlatDecl;
    var c := [EBase(1), EPtr, EFun([], false), EMod(QConst)];
    var other := [EBase(1), EPtr, EMod(QConst), EFun([], false)];
    var p := [Spec(1), Space, Star, QualTok(QConst), Space, Name("f"), LParen, RParen];
    PrintModified();
    StripModified();
    assert Spaced(p);
    assert Proper(other) && Norm(other) == other by {
      ModifiedNorm();
    }
    ReadFlatDecl(other, "f", []);
    assert FlatDecl(other, "f") + [] == FlatDecl(other, "f");
  }

  lemma PrintModified()
    ensures PrintChain([EBase(1), EPtr, EFun([], false), EMod(QConst)], "f", true) ==
            [Spec(1), Space, Star, QualTok(QConst), Space, Name("f"), LParen, RParen]
  {
    var f := [EFun([], false), EMod(QConst)];
    assert f[1..] == [EMod(QConst)] && Mods(f[1..]) == [QConst] && AfterMods(f[1..]) == [];
    assert PrintChain(f, "f", true) == [QualTok(QConst), Space, Name("f"), LParen, RParen];
    var p := [EPtr] + f;
    assert p[1..] == f;
    assert PrintChain(p, "f", false) == [Space, Star] + PrintChain(f, "f", true);
    var c := [EBase(1), EPtr, EFun([], false), EMod(QConst)];
    assert c[1..] == p;
    assert AfterMods(p) == p && Mods(p) == [];
  }

  lemma StripModified()
    ensures Strip([Spec(1), Space, Star, QualTok(QConst), Space, Name("f"), LParen, RParen]) ==
            FlatDecl([EBase(1), EPtr, EMod(QConst), EFun([], false)], "f")
  {
    hide Strip, FlatDecl;
    var a, b := [Spec(1), Space, Star], [QualTok(QConst), Space, Name("f"), LParen, RParen];
    assert a + b == [Spec(1), Space, Star, QualTok(QConst), Space, Name("f"), LParen, RParen];
    StripAppend(a, b);
    StripShort();
    FlatModified();
  }

  lemma StripShort()
    ensures Strip([Spec(1), Space, Star]) == [Spec(1), Star]
    ensures Strip([QualTok(QConst), Space, Name("f"), LParen, RParen]) == [QualTok(QConst), Name("f"), LParen, RParen]
  {
    hide Strip;
    StripPair(Spec(1), [Star]);
    assert [Spec(1), Space] + [Star] == [Spec(1), Space, Star];
    StripTwo(Star, Star);
    var call := [Name("f"), LParen, RParen];
    StripPair(QualTok(QConst), call);
    StripTriple(Name("f"), LParen, RParen);
    assert [QualTok(QConst), Space] + call == [QualTok(QConst), Space, Name("f"), LParen, RParen];
  }

  lemma StripPair(t: Token, ts: seq<Token>)
    requires !t.Space?
    ensures Strip([t, Space] + ts) == [t] + Strip(ts)
  {
    StripTwo(t, Space);
    StripTwo(Space, t);
    hide Strip;
    StripAppend([t, Space], ts);
  }

  lemma StripTriple(a: Token, b: Token, c: Token)
    requires !a.Space? && !b.Space? && !c.Space?
    ensures Strip([a, b, c]) == [a, b, c]
  {
    StripTwo(a, b);
    StripTwo(b, c);
    StripTwo(c, c);
    hide Strip;
    StripAppend([a, b], [c]);
    assert [a, b] + [c] == [a, b, c];
  }

  lemma FlatModified()
    ensures FlatDecl([EBase(1), EPtr, EMod(QConst), EFun([], false)], "f") ==
            [Spec(1), Star, QualTok(QConst), Name("f"), LParen, RParen]
  {
    var f: Chain := [EFun([], false)];
    assert f[1..] == [] && Flat(f, "f") == [Name("f"), LParen, RParen];
    var m := [EMod(QConst)] + f;
    assert m[1..] == f && Mods(m) == [QConst] && AfterMods(m) == f;
    var p := [EPtr] + m;
    assert p[1..] == m && QualToks([QConst]) == [QualTok(QConst)];
    assert Flat(p, "f") == [Star] + [QualTok(QConst)] + Flat(f, "f");
    assert [EBase(1), EPtr, EMod(QConst), EFun([], false)][1..] == p && AfterMods(p) == p && Mods(p) == [];
  }

  lemma ModifiedNorm()
    ensures var other := [EBase(1), EPtr, EMod(QConst), EFun([], false)]; Proper(other) && Norm(other) == other
  {
    var f: Chain := [EFun([], false)];
    assert f[1..] == [] && Norm(f) == f && Outer(f);
    var m := [EMod(QConst)] + f;
    assert m[1..] == f && Norm(m) == m && Outer(m);
    var p := [EPtr] + m;
    assert p[1..] == m && Norm(p) == p && Outer(p);
    assert [EBase(1), EPtr, EMod(QConst), EFun([], false)][1..] == p;
  }
}
