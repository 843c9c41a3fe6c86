/** The class builder (src/module_class.py): resolve the struct a class
    wraps, generate its field block, bind functions to it one by one or by
    name prefix, and write it out. */
module ClassBuilder {
  import opened Wrappers
  import opened Strings
  import opened Writer
  import opened Ast
  import opened Entities
  import opened TypeNamer
  import opened FuncEmitter

  /** Python truthiness of an optional string argument. */
  predicate Given(s: Option<string>) {
    s.Some? && s.value != ""
  }

  /* ---------------------------------------------------------------------
     Resolving the struct
     --------------------------------------------------------------------- */

  /** Lines 77-94: the struct a class wraps and the name it is exposed
      under. Exactly one of `typedef` and `struct` must be given; through a
      typedef the underlying declaration must be a struct and the name
      defaults to the typedef's spelling; a name must result. */
  function ResolveStruct(h: Header, typedef: Option<string>, struct: Option<string>, rename: Option<string>): (res: Result<(StructDecl, string)>)
    ensures Given(typedef) && Given(struct) ==> res == Err(TypedefAndStruct)
    ensures !Given(typedef) && !Given(struct) ==> res == Err(NoTypedefOrStruct)
    ensures Given(typedef) && !Given(struct) ==>
      if typedef.value !in h.typedefs then res == Err(NotFound("typedefs", typedef.value))
      else if h.typedefs[typedef.value].target.None? then res == Err(NotAStruct(typedef.value))
      else if !Given(rename) && h.typedefs[typedef.value].spelling == "" then res == Err(NoRename)
      else res == Ok((h.typedefs[typedef.value].target.value,
                      if Given(rename) then rename.value else h.typedefs[typedef.value].spelling))
    ensures !Given(typedef) && Given(struct) ==>
      if struct.value !in h.structs then res == Err(NotFound("structs", struct.value))
      else if !Given(rename) then res == Err(NoRename)
      else res == Ok((h.structs[struct.value], rename.value))
    ensures res.Ok? ==> res.value.1 != ""
  {
    if Given(typedef) then
      if Given(struct) then Err(TypedefAndStruct)
      else if typedef.value !in h.typedefs then Err(NotFound("typedefs", typedef.value))
      else
        var td := h.typedefs[typedef.value];
        if td.target.None? then Err(NotAStruct(typedef.value))
        else
          var name := if Given(rename) then rename.value else td.spelling;
          if name == "" then Err(NoRename) else Ok((td.target.value, name))
    else if Given(struct) then
      if struct.value !in h.structs then Err(NotFound("structs", struct.value))
      else if !Given(rename) then Err(NoRename)
      else Ok((h.structs[struct.value], rename.value))
    else Err(NoTypedefOrStruct)
  }

  /* ---------------------------------------------------------------------
     The field block
     --------------------------------------------------------------------- */

  /** The field declarations among a struct's children, in order. */
  function FieldDecls(children: seq<Child>): seq<Decl>
    decreases |children|
  {
    if |children| == 0 then []
    else (if children[0].Field? then [children[0].decl] else []) + FieldDecls(children[1..])
  }

  function Spellings(ds: seq<Decl>): (ns: seq<string>)
    ensures |ns| == |ds|
    ensures forall k :: 0 <= k < |ds| ==> ns[k] == ds[k].spelling
  {
    seq(|ds|, k requires 0 <= k < |ds| => ds[k].spelling)
  }

  /** The fields that are written, in order. */
  function Emitted(children: seq<Child>, ignore: set<string>): seq<Decl>
    decreases |children|
  {
    if |children| == 0 then []
    else
      (if children[0].Field? && children[0].decl.spelling !in ignore then [children[0].decl] else [])
      + Emitted(children[1..], ignore)
  }

  /** Lines 271-279: ignored fields are left out of the struct body and
      every other field is written. */
  lemma {:induction false} EmittedMembers(children: seq<Child>, ignore: set<string>)
    ensures forall d :: d in Emitted(children, ignore) <==> Field(d) in children && d.spelling !in ignore
    decreases |children|
  {
    if |children| > 0 {
      EmittedMembers(children[1..], ignore);
      assert children == [children[0]] + children[1..];
    }
  }

  predicate Distinct(ns: seq<string>) {
    forall i, j :: 0 <= i < j < |ns| ==> ns[i] != ns[j]
  }

  /** Only fields, nested structs and nested unions may appear. */
  predicate KnownChildren(children: seq<Child>) {
    forall i :: 0 <= i < |children| ==> !children[i].Unexpected?
  }

  /** Line 279: the line a written field becomes, `None` when its
      declarator cannot be stated. */
  function FieldText(r: Registry, d: Decl): Option<string> {
    var decl := StringifyDecl(r, d, d.ty, None, false);
    if decl.Ok? then Some(decl.value.0 + ";") else None
  }

  lemma FieldTextFrame(r0: Registry, r1: Registry)
    requires SameShape(r0, r1)
    ensures forall d :: FieldText(r0, d) == FieldText(r1, d)
  {
    forall d: Decl {
      StringifyDeclFrame(r0, r1, d, d.ty, None, false);
    }
  }

  /** The specialization uses the declarations `ds` record as struct
      fields, together. */
  function DeclsUses(r: Registry, ds: seq<Decl>): set<(string, string)>
    decreases |ds|
  {
    if |ds| == 0 then {} else Uses(r, ds[0], ds[0].ty, false) + DeclsUses(r, ds[1..])
  }

  /** A use is recorded by the fields exactly when one of them records it. */
  lemma {:induction false} DeclsUsesExact(r: Registry, ds: seq<Decl>)
    ensures forall p :: p in DeclsUses(r, ds) <==> exists k :: 0 <= k < |ds| && p in Uses(r, ds[k], ds[k].ty, false)
    decreases |ds|
  {
    if |ds| > 0 {
      DeclsUsesExact(r, ds[1..]);
      forall p | p in DeclsUses(r, ds[1..])
        ensures exists k :: 0 <= k < |ds| && p in Uses(r, ds[k], ds[k].ty, false)
      {
        var j :| 0 <= j < |ds| - 1 && p in Uses(r, ds[1..][j], ds[1..][j].ty, false);
        assert ds[1..][j] == ds[j + 1];
      }
      forall p, k | 0 <= k < |ds| && p in Uses(r, ds[k], ds[k].ty, false)
        ensures p in DeclsUses(r, ds)
      {
        if k > 0 {
          assert ds[k] == ds[1..][k - 1];
        }
      }
    }
  }

  lemma {:induction false} DeclsUsesFrame(r0: Registry, r1: Registry, ds: seq<Decl>)
    requires SameShape(r0, r1)
    ensures DeclsUses(r0, ds) == DeclsUses(r1, ds)
    decreases |ds|
  {
    if |ds| > 0 {
      UsesFrame(r0, r1, ds[0], ds[0].ty, false);
      DeclsUsesFrame(r0, r1, ds[1..]);
    }
  }

  /** The condition under which the field walk from names `seen` succeeds:
      every child is expected, no field name repeats (neither another
      field's nor one seen before), and every written field can be stated. */
  ghost predicate WalkOk(r: Registry, children: seq<Child>, ignore: set<string>, seen: set<string>) {
    && KnownChildren(children)
    && Distinct(Spellings(FieldDecls(children)))
    && Elems(Spellings(FieldDecls(children))) !! seen
    && forall k :: 0 <= k < |Emitted(children, ignore)| ==> FieldText(r, Emitted(children, ignore)[k]).Some?
  }

  /** `texts` are the lines of the written fields, each computed against
      registry `r`. */
  ghost predicate FieldLines(r: Registry, children: seq<Child>, ignore: set<string>, texts: seq<string>) {
    && |texts| == |Emitted(children, ignore)|
    && forall k :: 0 <= k < |texts| ==> FieldText(r, Emitted(children, ignore)[k]) == Some(texts[k])
  }

  /** Lines 271-295: walk the children in order with the names `seen` so
      far, returning the written field lines, the names seen afterwards and
      the registry. */
  function FieldBlock(r: Registry, children: seq<Child>, ignore: set<string>, seen: set<string>): (res: Result<(seq<string>, set<string>, Registry)>)
    ensures res.Ok? <==> WalkOk(r, children, ignore, seen)
    ensures res.Ok? ==>
      && res.value.1 == seen + Elems(Spellings(FieldDecls(children)))
      && FieldLines(r, children, ignore, res.value.0)
      && Records(r, res.value.2, DeclsUses(r, Emitted(children, ignore)))
    decreases |children|
  {
    if |children| == 0 then
      assert Spellings(FieldDecls(children)) == [];
      Ok(([], seen, r))
    else
      var tail := children[1..];
      WalkStep(r, children, ignore, seen);
      match children[0]
      case Unexpected(kind) => Err(UnexpectedChild(kind))
      case NestedStruct => FieldBlock(r, tail, ignore, seen)
      case NestedUnion => FieldBlock(r, tail, ignore, seen)
      case Field(d) =>
        if d.spelling in seen then Err(DuplicateField(d.spelling))
        else if d.spelling in ignore then
          FieldBlock(r, tail, ignore, seen + {d.spelling})
        else
          match StringifyDecl(r, d, d.ty, None, false)
          case Err(e) => Err(e)
          case Ok(decl) =>
            GrowsSameShape(r, decl.1);
            WalkOkFrame(r, decl.1, tail, ignore, seen + {d.spelling});
            match FieldBlock(decl.1, tail, ignore, seen + {d.spelling})
            case Err(e) => Err(e)
            case Ok(rest) =>
              var e := Emitted(tail, ignore);
              assert Emitted(children, ignore) == [d] + e;
              assert ([d] + e)[1..] == e;
              DeclsUsesFrame(r, decl.1, e);
              RecordsTrans(r, decl.1, rest.2, Uses(r, d, d.ty, false), DeclsUses(r, e));
              FieldLinesCons(r, decl.1, children, ignore, decl.0 + ";", rest.0);
              Ok(([decl.0 + ";"] + rest.0, rest.1, rest.2))
  }

  lemma WalkOkFrame(r0: Registry, r1: Registry, children: seq<Child>, ignore: set<string>, seen: set<string>)
    requires SameShape(r0, r1)
    ensures WalkOk(r0, children, ignore, seen) == WalkOk(r1, children, ignore, seen)
  {
    FieldTextFrame(r0, r1);
  }

  lemma FieldLinesCons(r: Registry, r1: Registry, children: seq<Child>, ignore: set<string>, head: string, tail: seq<string>)
    requires SameShape(r, r1) && |children| > 0 && children[0].Field? && children[0].decl.spelling !in ignore
    requires FieldText(r, children[0].decl) == Some(head)
    requires FieldLines(r1, children[1..], ignore, tail)
    ensures FieldLines(r, children, ignore, [head] + tail)
  {
    FieldTextFrame(r, r1);
    EmittedStep(children, ignore);
    ConsLift(x => FieldText(r, x), x => FieldText(r1, x), Emitted(children, ignore), head, tail);
  }

  lemma EmittedStep(children: seq<Child>, ignore: set<string>)
    requires |children| > 0
    ensures !children[0].Field? ==>
      FieldDecls(children) == FieldDecls(children[1..]) && Emitted(children, ignore) == Emitted(children[1..], ignore)
    ensures children[0].Field? ==>
      && FieldDecls(children) == [children[0].decl] + FieldDecls(children[1..])
      && Spellings(FieldDecls(children)) == [children[0].decl.spelling] + Spellings(FieldDecls(children[1..]))
      && Emitted(children, ignore) ==
           (if children[0].decl.spelling in ignore then [] else [children[0].decl]) + Emitted(children[1..], ignore)
  {
  }

  lemma KnownChildrenStep(children: seq<Child>)
    requires |children| > 0
    ensures KnownChildren(children) <==> !children[0].Unexpected? && KnownChildren(children[1..])
  {
    if KnownChildren(children[1..]) && !children[0].Unexpected? {
      forall i | 0 < i < |children|
        ensures !children[i].Unexpected?
      {
        assert children[i] == children[1..][i - 1];
      }
    }
    if KnownChildren(children) {
      forall i | 0 <= i < |children| - 1
        ensures !children[1..][i].Unexpected?
      {
        assert children[1..][i] == children[i + 1];
      }
    }
  }

  /** A name list headed by `n` is duplicate-free and avoids `seen` exactly
      when its tail is duplicate-free and avoids `seen` and `n`. */
  lemma DistinctCons(n: string, rest: seq<string>, seen: set<string>)
    requires n !in seen
    ensures Distinct([n] + rest) && Elems([n] + rest) !! seen <==> Distinct(rest) && Elems(rest) !! (seen + {n})
    ensures Elems([n] + rest) == {n} + Elems(rest)
  {
    var all := [n] + rest;
    if Distinct(rest) && Elems(rest) !! (seen + {n}) {
      forall i, j | 0 <= i < j < |all|
        ensures all[i] != all[j]
      {
        if i == 0 {
          assert all[j] == rest[j - 1];
          assert rest[j - 1] in Elems(rest);
        } else {
          assert all[i] == rest[i - 1] && all[j] == rest[j - 1];
        }
      }
    }
    if Distinct(all) && Elems(all) !! seen {
      forall i, j | 0 <= i < j < |rest|
        ensures rest[i] != rest[j]
      {
        assert rest[i] == all[i + 1] && rest[j] == all[j + 1];
      }
      forall x | x in Elems(rest)
        ensures x != n
      {
        var j :| 0 <= j < |rest| && rest[j] == x;
        assert all[j + 1] == x && all[0] == n;
      }
    }
  }

  /** A property holds of every element of `(d if present) + rest` exactly
      when it holds of `d` (if present) and of every element of `rest`. */
  lemma AllCons<T>(e: seq<T>, d: T, present: bool, rest: seq<T>, p: T -> bool)
    requires e == (if present then [d] else []) + rest
    ensures (forall k :: 0 <= k < |e| ==> p(e[k])) <==> (present ==> p(d)) && (forall k :: 0 <= k < |rest| ==> p(rest[k]))
  {
    if present {
      assert e[0] == d;
      assert forall k :: 0 <= k < |rest| ==> rest[k] == e[k + 1];
    } else {
      assert e == rest;
    }
  }

  lemma FieldTextsStep(r: Registry, children: seq<Child>, ignore: set<string>)
    requires |children| > 0
    ensures var e := Emitted(children, ignore);
      var ok := forall k :: 0 <= k < |e| ==> FieldText(r, e[k]).Some?;
      var et := Emitted(children[1..], ignore);
      var okTail := forall k :: 0 <= k < |et| ==> FieldText(r, et[k]).Some?;
      ok <==>
        (children[0].Field? && children[0].decl.spelling !in ignore ==> FieldText(r, children[0].decl).Some?) && okTail
  {
    var present := children[0].Field? && children[0].decl.spelling !in ignore;
    var d := if children[0].Field? then children[0].decl else Decl("", Void(false), {}, None);
    assert Emitted(children, ignore) == (if present then [d] else []) + Emitted(children[1..], ignore);
    AllCons(Emitted(children, ignore), d, present, Emitted(children[1..], ignore), x => FieldText(r, x).Some?);
  }

  /** One step of the walk's success condition. */
  lemma WalkStep(r: Registry, children: seq<Child>, ignore: set<string>, seen: set<string>)
    requires |children| > 0
    ensures children[0].Unexpected? ==> !WalkOk(r, children, ignore, seen)
    ensures !children[0].Field? ==>
      && (children[0].Unexpected? || (WalkOk(r, children, ignore, seen) <==> WalkOk(r, children[1..], ignore, seen)))
      && Spellings(FieldDecls(children)) == Spellings(FieldDecls(children[1..]))
      && Emitted(children, ignore) == Emitted(children[1..], ignore)
    ensures children[0].Field? && children[0].decl.spelling in seen ==> !WalkOk(r, children, ignore, seen)
    ensures children[0].Field? && children[0].decl.spelling !in seen ==>
      var n := children[0].decl.spelling;
      && (WalkOk(r, children, ignore, seen) <==>
            && (n !in ignore ==> FieldText(r, children[0].decl).Some?)
            && WalkOk(r, children[1..], ignore, seen + {n}))
      && seen + Elems(Spellings(FieldDecls(children))) == (seen + {n}) + Elems(Spellings(FieldDecls(children[1..])))
      && (n in ignore ==> Emitted(children, ignore) == Emitted(children[1..], ignore))
  {
    EmittedStep(children, ignore);
    KnownChildrenStep(children);
    FieldTextsStep(r, children, ignore);
    if children[0].Field? {
      var n := children[0].decl.spelling;
      var rest := Spellings(FieldDecls(children[1..]));
      if n in seen {
        assert n in Elems([n] + rest);
      } else {
        DistinctCons(n, rest, seen);
      }
    }
  }

  /** Line 267: `%rename S::old new;` for each renamed field. */
  function RenameLines(s: string, renames: seq<(string, string)>): (ls: seq<Line>)
    ensures |ls| == |renames|
  {
    At(0, seq(|renames|, i requires 0 <= i < |renames| => "%rename " + s + "::" + renames[i].0 + " " + renames[i].1 + ";"))
  }

  /** Line 306: `%rename S::old "";` for each renamed field. */
  function UnrenameLines(s: string, renames: seq<(string, string)>): (ls: seq<Line>)
    ensures |ls| == |renames|
  {
    At(0, seq(|renames|, i requires 0 <= i < |renames| => "%rename " + s + "::" + renames[i].0 + " \"\";"))
  }

  function Keys(renames: seq<(string, string)>): set<string> {
    set i | 0 <= i < |renames| :: renames[i].0
  }

  /** Lines 249-306: the field block of struct `s`. `renames` are the
      field renames in the order they were given. The field walk must
      succeed and every ignored or renamed name must be a field. The
      renames come before the struct, the written fields inside it (one
      level in, ignored fields dropped), the un-renames after it, in the
      same order as the renames. */
  function GenStruct(r: Registry, s: StructDecl, ignore: set<string>, renames: seq<(string, string)>): (res: Result<(seq<Line>, Registry)>)
    ensures var fields := Elems(Spellings(FieldDecls(s.children)));
      res.Ok? <==>
        && FieldBlock(r, s.children, ignore, {}).Ok?
        && ignore <= fields
        && Keys(renames) <= fields
    ensures var fields := Elems(Spellings(FieldDecls(s.children)));
      FieldBlock(r, s.children, ignore, {}).Ok? && !(ignore <= fields) ==> res == Err(UnknownField(ignore - fields))
    ensures res.Ok? ==>
      var ls := res.value.0;
      var n := |renames|;
      var e := Emitted(s.children, ignore);
      && Records(r, res.value.1, DeclsUses(r, e))
      && |ls| == 2 * n + |e| + 2
      && (forall i :: 0 <= i < n ==> ls[i] == Line(0, "%rename " + s.spelling + "::" + renames[i].0 + " " + renames[i].1 + ";"))
      && ls[n] == Line(0, "struct " + s.spelling + " {")
      && (forall k :: 0 <= k < |e| ==> FieldText(r, e[k]) == Some(ls[n + 1 + k].text) && ls[n + 1 + k].depth == 1)
      && ls[n + 1 + |e|] == Line(0, "};")
      && (forall i :: 0 <= i < n ==> ls[n + 2 + |e| + i] == Line(0, "%rename " + s.spelling + "::" + renames[i].0 + " \"\";"))
  {
    match FieldBlock(r, s.children, ignore, {})
    case Err(e) => Err(e)
    case Ok(block) =>
      assert block.1 == Elems(Spellings(FieldDecls(s.children)));
      if !(ignore <= block.1) then Err(UnknownField(ignore - block.1))
      else if !(Keys(renames) <= block.1) then Err(UnknownField(Keys(renames) - block.1))
      else Ok((StructLines(s.spelling, renames, block.0), block.2))
  }

  /** The renames, the struct opening, the field lines one level in, the
      closing brace and the un-renames, in that order. */
  function StructLines(name: string, renames: seq<(string, string)>, texts: seq<string>): (ls: seq<Line>)
    ensures var n := |renames|;
      && |ls| == 2 * n + |texts| + 2
      && (forall i :: 0 <= i < n ==> ls[i] == Line(0, "%rename " + name + "::" + renames[i].0 + " " + renames[i].1 + ";"))
      && ls[n] == Line(0, "struct " + name + " {")
      && (forall k :: 0 <= k < |texts| ==> ls[n + 1 + k] == Line(1, texts[k]))
      && ls[n + 1 + |texts|] == Line(0, "};")
      && (forall i :: 0 <= i < n ==> ls[n + 2 + |texts| + i] == Line(0, "%rename " + name + "::" + renames[i].0 + " \"\";"))
  {
    var (a, b, e) := (RenameLines(name, renames), At(1, texts), UnrenameLines(name, renames));
    Layout(a, Line(0, "struct " + name + " {"), b, Line(0, "};"), e);
    a + [Line(0, "struct " + name + " {")] + b + [Line(0, "};")] + e
  }


  /* ---------------------------------------------------------------------
     The class
     --------------------------------------------------------------------- */

  /** Lines 65-108: a new class with no functions yet; its struct block
      opens with the C typedef and the SWIG rename of the struct, followed
      by the field block. */
  function New(
    r: Registry, h: Header, typedef: Option<string>, struct: Option<string>, rename: Option<string>,
    ignore: set<string>, renames: seq<(string, string)>
  ): (res: Result<(Class, Registry)>)
    ensures var resolved := ResolveStruct(h, typedef, struct, rename);
      res.Ok? <==> resolved.Ok? && GenStruct(r, resolved.value.0, ignore, renames).Ok?
    ensures res.Ok? ==>
      var c := res.value.0;
      var resolved := ResolveStruct(h, typedef, struct, rename).value;
      && c.name == resolved.1 && c.name != ""
      && c.structName == resolved.0.spelling
      && c.funcs == []
      && |c.structLines| >= 2
      && c.structLines[..2] == [Line(0, "typedef struct " + c.structName + " " + c.name + ";"),
                                Line(0, "%rename " + c.structName + " " + c.name + ";")]
      && c.structLines[2..] == GenStruct(r, resolved.0, ignore, renames).value.0
      && Records(r, res.value.1, DeclsUses(r, Emitted(resolved.0.children, ignore)))
  {
    var resolved :- ResolveStruct(h, typedef, struct, rename);
    var (s, name) := resolved;
    var fields :- GenStruct(r, s, ignore, renames);
    var head := At(0, ["typedef struct " + s.spelling + " " + name + ";", "%rename " + s.spelling + " " + name + ";"]);
    assert (head + fields.0)[..2] == head && (head + fields.0)[2..] == fields.0;
    Ok((Class(name, s.spelling, head + fields.0, []), fields.1))
  }

  /** Binding C function `cname` in role `kind` under interface name
      `name`: the function is marked used and its wrapper appended. */
  function Bind(
    c: Class, h: Header, r: Registry, cname: string, kind: FuncKind, name: string,
    defaults: map<string, string>, typemaps: seq<Typemap>
  ): (res: Result<(Class, Header, Registry)>)
    ensures cname !in h.funcs ==> res == Err(NotFound("funcs", cname))
    ensures cname in h.funcs ==>
      (res.Ok? <==> Build(r, h.funcs[cname], kind, name, false, {}, defaults, typemaps).Ok?)
    ensures res.Ok? ==>
      var (c1, h1, r1) := res.value;
      && cname in h.funcs
      && h1 == h.Use(cname)
      && c1.(funcs := c.funcs) == c
      && c1.funcs == c.funcs + [Build(r, h.funcs[cname], kind, name, false, {}, defaults, typemaps).value.0]
      && Records(r, r1, BuildUses(r, h.funcs[cname], kind, false, {}))
  {
    if cname !in h.funcs then Err(NotFound("funcs", cname))
    else
      var bound :- Build(r, h.funcs[cname], kind, name, false, {}, defaults, typemaps);
      Ok((c.(funcs := c.funcs + [bound.0]), h.Use(cname), bound.1))
  }

  /** Lines 110-119: the constructor is named after the struct. */
  function AddConstructor(c: Class, h: Header, r: Registry, cname: string): (res: Result<(Class, Header, Registry)>)
    ensures cname !in h.funcs ==> res == Err(NotFound("funcs", cname))
    ensures res.Ok? ==>
      var (c1, h1, _) := res.value;
      && h1.used == h.used + {cname} && h1.(used := h.used) == h
      && |c1.funcs| == |c.funcs| + 1 && c1.funcs[..|c.funcs|] == c.funcs && c1.(funcs := c.funcs) == c
      && var bf := c1.funcs[|c.funcs|];
      && bf.kind == Constructor && bf.name == c.structName && bf.cName == h.funcs[cname].decl.spelling
  {
    Bind(c, h, r, cname, Constructor, c.structName, map[], [])
  }

  /** Lines 121-130: the destructor is named after the struct and takes
      the object as its receiver. */
  function AddDestructor(c: Class, h: Header, r: Registry, cname: string): (res: Result<(Class, Header, Registry)>)
    ensures cname !in h.funcs ==> res == Err(NotFound("funcs", cname))
    ensures res.Ok? ==>
      var (c1, h1, _) := res.value;
      && h1.used == h.used + {cname} && h1.(used := h.used) == h
      && |c1.funcs| == |c.funcs| + 1 && c1.funcs[..|c.funcs|] == c.funcs && c1.(funcs := c.funcs) == c
      && var bf := c1.funcs[|c.funcs|];
      && bf.kind == Destructor && bf.name == c.structName && bf.cName == h.funcs[cname].decl.spelling
  {
    Bind(c, h, r, cname, Destructor, c.structName, map[], [])
  }

  /** Lines 132-154: an instance method under name `rename`. */
  function AddMethod(
    c: Class, h: Header, r: Registry, cname: string, rename: string,
    defaults: map<string, string>, typemaps: seq<Typemap>
  ): (res: Result<(Class, Header, Registry)>)
    ensures cname !in h.funcs ==> res == Err(NotFound("funcs", cname))
    ensures res.Ok? ==>
      var (c1, h1, _) := res.value;
      && h1.used == h.used + {cname} && h1.(used := h.used) == h
      && |c1.funcs| == |c.funcs| + 1 && c1.funcs[..|c.funcs|] == c.funcs && c1.(funcs := c.funcs) == c
      && var bf := c1.funcs[|c.funcs|];
      && bf.kind == This && bf.name == rename && bf.cName == h.funcs[cname].decl.spelling
      && bf.typemaps == typemaps
  {
    Bind(c, h, r, cname, This, rename, defaults, typemaps)
  }

  /** Lines 160-180: a static function under name `rename`. */
  function AddFunc(
    c: Class, h: Header, r: Registry, cname: string, rename: string,
    defaults: map<string, string>, typemaps: seq<Typemap>
  ): (res: Result<(Class, Header, Registry)>)
    ensures cname !in h.funcs ==> res == Err(NotFound("funcs", cname))
    ensures res.Ok? ==>
      var (c1, h1, _) := res.value;
      && h1.used == h.used + {cname} && h1.(used := h.used) == h
      && |c1.funcs| == |c.funcs| + 1 && c1.funcs[..|c.funcs|] == c.funcs && c1.(funcs := c.funcs) == c
      && var bf := c1.funcs[|c.funcs|];
      && bf.kind == Static && bf.name == rename && bf.cName == h.funcs[cname].decl.spelling
      && bf.typemaps == typemaps
  {
    Bind(c, h, r, cname, Static, rename, defaults, typemaps)
  }

  /* ---------------------------------------------------------------------
     Binding by prefix
     --------------------------------------------------------------------- */

  /** Lines 192-211 and 229-236, apart from the `used` test: an `RZ_API`
      function whose name starts with the prefix and, for methods, whose
      first argument is a pointer to the class's struct. */
  predicate Candidate(h: Header, n: string, prefix: string, structName: string, receiver: bool) {
    && n in h.funcs
    && StartsWith(n, prefix)
    && "RZ_API" in h.funcs[n].decl.attrs
    && (receiver ==>
          var ps := h.funcs[n].params;
          && |ps| > 0
          && ps[0].ty.Pointer?
          && CanonicalRecord(ps[0].ty.pointee) == Some(structName))
  }

  predicate Eligible(h: Header, n: string, prefix: string, structName: string, receiver: bool) {
    n !in h.used && Candidate(h, n, prefix, structName, receiver)
  }

  /** The eligible names among `names`, in order. */
  function MatchesIn(h: Header, names: seq<string>, prefix: string, structName: string, receiver: bool): (ms: seq<string>)
    ensures forall n :: n in ms ==> n in names && Eligible(h, n, prefix, structName, receiver)
    decreases |names|
  {
    if |names| == 0 then []
    else
      var last := names[|names| - 1];
      MatchesIn(h, names[..|names| - 1], prefix, structName, receiver)
      + (if Eligible(h, last, prefix, structName, receiver) then [last] else [])
  }

  /** The functions a prefixed binding takes, in the header's order. */
  function Matches(h: Header, prefix: string, structName: string, receiver: bool): seq<string> {
    MatchesIn(h, h.funcOrder, prefix, structName, receiver)
  }

  /** The interface name of a prefixed binding: the prefix stripped. */
  function Stripped(n: string, prefix: string): string
    requires StartsWith(n, prefix)
  {
    n[|prefix|..]
  }

  /** Every eligible name is among the matches. */
  lemma {:induction false} MatchesInComplete(h: Header, names: seq<string>, prefix: string, structName: string, receiver: bool)
    ensures forall n :: n in names && Eligible(h, n, prefix, structName, receiver) ==>
      n in MatchesIn(h, names, prefix, structName, receiver)
    decreases |names|
  {
    if |names| > 0 {
      var init := names[..|names| - 1];
      MatchesInComplete(h, init, prefix, structName, receiver);
      assert names == init + [names[|names| - 1]];
    }
  }

  lemma MatchesStep(h: Header, names: seq<string>, i: nat, prefix: string, structName: string, receiver: bool)
    requires i < |names|
    ensures MatchesIn(h, names[..i + 1], prefix, structName, receiver) ==
      MatchesIn(h, names[..i], prefix, structName, receiver)
      + (if Eligible(h, names[i], prefix, structName, receiver) then [names[i]] else [])
  {
    assert names[..i + 1][..i] == names[..i];
  }

  /** A name not yet reached is not among the matches so far. */
  lemma NotYetMatched(h: Header, i: nat, prefix: string, structName: string, receiver: bool)
    requires h.Valid() && i < |h.funcOrder|
    ensures h.funcOrder[i] !in MatchesIn(h, h.funcOrder[..i], prefix, structName, receiver)
  {
    var n := h.funcOrder[i];
    assert forall j :: 0 <= j < i ==> h.funcOrder[..i][j] != n;
    assert n !in h.funcOrder[..i];
  }

  /** A function bound by prefix: its C name, its stripped name, its kind. */
  predicate BoundAs(bf: BoundFunc, n: string, prefix: string, receiver: bool) {
    && StartsWith(n, prefix)
    && bf.cName == n
    && bf.name == Stripped(n, prefix)
    && bf.kind == (if receiver then This else Static)
  }

  /** The functions `added` were bound, in order, for the names `ms`. */
  ghost predicate BoundAll(added: seq<BoundFunc>, ms: seq<string>, prefix: string, receiver: bool) {
    && |added| == |ms|
    && forall k :: 0 <= k < |ms| ==> BoundAs(added[k], ms[k], prefix, receiver)
  }

  lemma BoundAllAppend(added: seq<BoundFunc>, ms: seq<string>, bf: BoundFunc, n: string, prefix: string, receiver: bool)
    requires BoundAll(added, ms, prefix, receiver) && BoundAs(bf, n, prefix, receiver)
    ensures BoundAll(added + [bf], ms + [n], prefix, receiver)
  {
  }

  lemma ElemsAppend(ms: seq<string>, n: string)
    ensures Elems(ms + [n]) == Elems(ms) + {n}
  {
  }

  /** Whether a function can be bound by prefix under name `n` minus the
      prefix. */
  ghost predicate Bindable(r: Registry, h: Header, n: string, prefix: string, receiver: bool)
    requires n in h.funcs && StartsWith(n, prefix)
  {
    Build(r, h.funcs[n], if receiver then This else Static, Stripped(n, prefix), false, {}, map[], []).Ok?
  }

  /** Lines 186-247: bind every eligible function of the header, in the
      header's order, as a method (`receiver`) or a static function, named
      by its C name with the prefix stripped, and mark each one used. The
      binding fails exactly when one of those functions cannot be bound. */
  method BindPrefixed(c: Class, h: Header, r: Registry, prefix: string, receiver: bool) returns (res: Result<(Class, Header, Registry)>)
    requires h.Valid()
    ensures res.Ok? <==> forall n :: n in Matches(h, prefix, c.structName, receiver) ==> Bindable(r, h, n, prefix, receiver)
    ensures res.Ok? ==>
      var (c1, h1, r1) := res.value;
      var ms := Matches(h, prefix, c.structName, receiver);
      && h1 == h.(used := h.used + Elems(ms))
      && c1.(funcs := c.funcs) == c
      && |c1.funcs| == |c.funcs| + |ms|
      && c1.funcs[..|c.funcs|] == c.funcs
      && BoundAll(c1.funcs[|c.funcs|..], ms, prefix, receiver)
      && (forall k :: 0 <= k < |ms| ==>
            BindOne(r, h, ms[k], prefix, receiver).Ok? && c1.funcs[|c.funcs| + k] == BindOne(r, h, ms[k], prefix, receiver).value.0)
      && Grows(r, r1)
      && Matches(h1, prefix, c.structName, receiver) == []
  {
    BindOneFacts(h, prefix, receiver);
    BindOneFuncFrame(h, prefix, receiver);
    var bind := (r0, n) => BindOne(r0, h, n, prefix, receiver);
    var bound := BindAll(h, r, prefix, c.structName, receiver, bind);
    BindOneBindable(h, r, prefix, c.structName, receiver);
    if bound.Err? {
      return Err(bound.error);
    }
    var (added, used, r1) := bound.value;
    var h1 := h.(used := used);
    MatchesExhausted(h, h1, prefix, c.structName, receiver);
    res := Ok((c.(funcs := c.funcs + added), h1, r1));
    assert (c.funcs + added)[|c.funcs|..] == added;
    assert forall k :: 0 <= k < |added| ==> (c.funcs + added)[|c.funcs| + k] == added[k];
  }

  /** The loop of `BindPrefixed`, over any binder that keeps the registry
      growing and whose success does not depend on what growing added: the
      functions bound, the names then used, and the registry after binding
      them. */
  method BindAll(h: Header, r: Registry, prefix: string, structName: string, receiver: bool,
                 bind: (Registry, string) -> Result<(BoundFunc, Registry)>)
    returns (res: Result<(seq<BoundFunc>, set<string>, Registry)>)
    requires h.Valid()
    requires forall r0, n :: bind(r0, n).Ok? ==> BoundAs(bind(r0, n).value.0, n, prefix, receiver) && Grows(r0, bind(r0, n).value.1)
    requires forall r0, r1, n :: Grows(r0, r1) ==> bind(r0, n).Ok? == bind(r1, n).Ok?
    requires forall r0, r1, n :: Grows(r0, r1) && bind(r0, n).Ok? ==> bind(r0, n).value.0 == bind(r1, n).value.0
    ensures res.Ok? <==> forall n :: n in Matches(h, prefix, structName, receiver) ==> bind(r, n).Ok?
    ensures res.Ok? ==>
      var ms := Matches(h, prefix, structName, receiver);
      && BoundAll(res.value.0, ms, prefix, receiver)
      && (forall k :: 0 <= k < |ms| ==> bind(r, ms[k]).Ok? && res.value.0[k] == bind(r, ms[k]).value.0)
      && res.value.1 == h.used + Elems(ms)
      && Grows(r, res.value.2)
  {
    var order := h.funcOrder;
    var added: seq<BoundFunc> := [];
    var used := h.used;
    var r1 := r;
    var i := 0;
    ghost var ms: seq<string> := [];
    assert order[..0] == [];
    while i < |order|
      invariant 0 <= i <= |order|
      invariant ms == MatchesIn(h, order[..i], prefix, structName, receiver)
      invariant BoundSoFar(h, r, prefix, receiver, bind, ms, added, used, r1)
    {
      var n := order[i];
      NextMatch(h, i, prefix, structName, receiver, used);
      if n !in used && Candidate(h, n, prefix, structName, receiver) {
        var built := bind(r1, n);
        if built.Err? {
          BindAllFails(h, r, r1, prefix, structName, receiver, bind, i);
          return Err(built.error);
        }
        BoundSoFarStep(h, r, prefix, receiver, bind, ms, added, used, r1, n);
        added := added + [built.value.0];
        used := used + {n};
        r1 := built.value.1;
        ms := ms + [n];
      } else {
        assert ms + [] == ms;
      }
      i := i + 1;
    }
    assert order[..i] == order;
    res := Ok((added, used, r1));
  }

  /** One more name of the header's order: it is matched exactly when it is
      not yet used and is a candidate. */
  lemma NextMatch(h: Header, i: nat, prefix: string, structName: string, receiver: bool, used: set<string>)
    requires h.Valid() && i < |h.funcOrder|
    requires used == h.used + Elems(MatchesIn(h, h.funcOrder[..i], prefix, structName, receiver))
    ensures var n := h.funcOrder[i];
      (n !in used && Candidate(h, n, prefix, structName, receiver)) == Eligible(h, n, prefix, structName, receiver)
    ensures var n := h.funcOrder[i];
      MatchesIn(h, h.funcOrder[..i + 1], prefix, structName, receiver) ==
      MatchesIn(h, h.funcOrder[..i], prefix, structName, receiver)
      + (if n !in used && Candidate(h, n, prefix, structName, receiver) then [n] else [])
  {
    MatchesStep(h, h.funcOrder, i, prefix, structName, receiver);
    NotYetMatched(h, i, prefix, structName, receiver);
  }

  /** An eligible name the binder refuses makes the whole binding fail. */
  lemma BindAllFails(h: Header, r: Registry, r1: Registry, prefix: string, structName: string, receiver: bool,
                     bind: (Registry, string) -> Result<(BoundFunc, Registry)>, i: nat)
    requires forall r0, r1, n :: Grows(r0, r1) ==> bind(r0, n).Ok? == bind(r1, n).Ok?
    requires i < |h.funcOrder| && Grows(r, r1)
    requires Eligible(h, h.funcOrder[i], prefix, structName, receiver) && !bind(r1, h.funcOrder[i]).Ok?
    ensures !(forall n :: n in Matches(h, prefix, structName, receiver) ==> bind(r, n).Ok?)
  {
    MatchesInComplete(h, h.funcOrder, prefix, structName, receiver);
    assert h.funcOrder[i] in Matches(h, prefix, structName, receiver);
  }

  /** The invariant of `BindAll` after binding the names `ms`. */
  ghost predicate BoundSoFar(h: Header, r: Registry, prefix: string, receiver: bool,
                             bind: (Registry, string) -> Result<(BoundFunc, Registry)>,
                             ms: seq<string>, added: seq<BoundFunc>, used: set<string>, r1: Registry) {
    && used == h.used + Elems(ms)
    && BoundAll(added, ms, prefix, receiver)
    && Grows(r, r1)
    && (forall n :: n in ms ==> bind(r, n).Ok?)
    && forall k :: 0 <= k < |ms| ==> bind(r, ms[k]).Ok? && added[k] == bind(r, ms[k]).value.0
  }

  lemma BoundSoFarStep(h: Header, r: Registry, prefix: string, receiver: bool,
                       bind: (Registry, string) -> Result<(BoundFunc, Registry)>,
                       ms: seq<string>, added: seq<BoundFunc>, used: set<string>, r1: Registry, n: string)
    requires forall r0, n :: bind(r0, n).Ok? ==> BoundAs(bind(r0, n).value.0, n, prefix, receiver) && Grows(r0, bind(r0, n).value.1)
    requires forall r0, r1, n :: Grows(r0, r1) ==> bind(r0, n).Ok? == bind(r1, n).Ok?
    requires forall r0, r1, n :: Grows(r0, r1) && bind(r0, n).Ok? ==> bind(r0, n).value.0 == bind(r1, n).value.0
    requires BoundSoFar(h, r, prefix, receiver, bind, ms, added, used, r1) && bind(r1, n).Ok?
    ensures BoundSoFar(h, r, prefix, receiver, bind, ms + [n], added + [bind(r1, n).value.0], used + {n}, bind(r1, n).value.1)
  {
    GrowsTrans(r, r1, bind(r1, n).value.1);
    BoundAllAppend(added, ms, bind(r1, n).value.0, n, prefix, receiver);
    ElemsAppend(ms, n);
    assert bind(r, n).Ok? && bind(r, n).value.0 == bind(r1, n).value.0;
    var (ms1, added1) := (ms + [n], added + [bind(r1, n).value.0]);
    forall k | 0 <= k < |ms1|
      ensures bind(r, ms1[k]).Ok? && added1[k] == bind(r, ms1[k]).value.0
    {
      if k < |ms| {
        assert ms1[k] == ms[k] && added1[k] == added[k];
      }
    }
  }

  /** One prefixed binding of the header's function `n`. */
  function BindOne(r: Registry, h: Header, n: string, prefix: string, receiver: bool): (res: Result<(BoundFunc, Registry)>)
    ensures res.Ok? ==> BoundAs(res.value.0, n, prefix, receiver) && Grows(r, res.value.1)
    ensures res.Ok? ==> n in h.funcs && Records(r, res.value.1, BuildUses(r, h.funcs[n], if receiver then This else Static, false, {}))
  {
    if n in h.funcs && StartsWith(n, prefix) && h.funcs[n].decl.spelling == n then
      Build(r, h.funcs[n], if receiver then This else Static, Stripped(n, prefix), false, {}, map[], [])
    else
      Err(NotFound("functions", n))
  }

  lemma BindOneFacts(h: Header, prefix: string, receiver: bool)
    ensures forall r0, n :: BindOne(r0, h, n, prefix, receiver).Ok? ==>
      BoundAs(BindOne(r0, h, n, prefix, receiver).value.0, n, prefix, receiver) && Grows(r0, BindOne(r0, h, n, prefix, receiver).value.1)
    ensures forall r0, r1, n :: Grows(r0, r1) ==> BindOne(r0, h, n, prefix, receiver).Ok? == BindOne(r1, h, n, prefix, receiver).Ok?
  {
    forall r0, r1, n | Grows(r0, r1)
      ensures BindOne(r0, h, n, prefix, receiver).Ok? == BindOne(r1, h, n, prefix, receiver).Ok?
    {
      if n in h.funcs && StartsWith(n, prefix) {
        BindableFrame(r0, r1, h, n, prefix, receiver);
      }
    }
  }

  /** The function a prefixed binding produces does not depend on the
      specializations discovered before it. */
  lemma BindOneFuncFrame(h: Header, prefix: string, receiver: bool)
    ensures forall r0, r1, n :: Grows(r0, r1) && BindOne(r0, h, n, prefix, receiver).Ok? ==>
      BindOne(r1, h, n, prefix, receiver).Ok? &&
      BindOne(r0, h, n, prefix, receiver).value.0 == BindOne(r1, h, n, prefix, receiver).value.0
  {
    forall r0, r1, n | Grows(r0, r1) && BindOne(r0, h, n, prefix, receiver).Ok?
      ensures BindOne(r1, h, n, prefix, receiver).Ok?
      ensures BindOne(r0, h, n, prefix, receiver).value.0 == BindOne(r1, h, n, prefix, receiver).value.0
    {
      BindOneSame(r0, r1, h, n, prefix, receiver);
    }
  }

  lemma BindOneSame(r0: Registry, r1: Registry, h: Header, n: string, prefix: string, receiver: bool)
    requires Grows(r0, r1) && BindOne(r0, h, n, prefix, receiver).Ok?
    ensures BindOne(r1, h, n, prefix, receiver).Ok?
    ensures BindOne(r0, h, n, prefix, receiver).value.0 == BindOne(r1, h, n, prefix, receiver).value.0
  {
    GrowsSameShape(r0, r1);
    BuildFuncFrame(r0, r1, h.funcs[n], if receiver then This else Static, Stripped(n, prefix), false, {}, map[], []);
  }

  /** On the names a prefixed binding takes, `BindOne` succeeds exactly
      when the function is bindable. */
  lemma BindOneBindable(h: Header, r: Registry, prefix: string, structName: string, receiver: bool)
    requires h.Valid()
    ensures forall n :: n in Matches(h, prefix, structName, receiver) ==>
      (BindOne(r, h, n, prefix, receiver).Ok? <==> Bindable(r, h, n, prefix, receiver))
  {
  }

  lemma BindableFrame(r0: Registry, r1: Registry, h: Header, n: string, prefix: string, receiver: bool)
    requires Grows(r0, r1) && n in h.funcs && StartsWith(n, prefix)
    ensures Bindable(r0, h, n, prefix, receiver) == Bindable(r1, h, n, prefix, receiver)
  {
    GrowsSameShape(r0, r1);
    BuildFrame(r0, r1, h.funcs[n], if receiver then This else Static, Stripped(n, prefix), false, {}, map[], []);
  }

  /** After a prefixed binding nothing is left for a second one. */
  lemma MatchesExhausted(h: Header, h1: Header, prefix: string, structName: string, receiver: bool)
    requires h1.funcs == h.funcs && h1.funcOrder == h.funcOrder
    requires h1.used == h.used + Elems(MatchesIn(h, h.funcOrder, prefix, structName, receiver))
    ensures MatchesIn(h1, h1.funcOrder, prefix, structName, receiver) == []
  {
    MatchesInComplete(h, h.funcOrder, prefix, structName, receiver);
    UsedUp(h, h1, MatchesIn(h, h.funcOrder, prefix, structName, receiver), prefix, structName, receiver);
  }

  /** Once every eligible name is marked used, none is eligible any more. */
  lemma UsedUp(h: Header, h1: Header, ms: seq<string>, prefix: string, structName: string, receiver: bool)
    requires h1.funcs == h.funcs && h1.funcOrder == h.funcOrder && h1.used == h.used + Elems(ms)
    requires forall n :: n in h.funcOrder && Eligible(h, n, prefix, structName, receiver) ==> n in ms
    ensures MatchesIn(h1, h1.funcOrder, prefix, structName, receiver) == []
  {
    forall n | n in h1.funcOrder
      ensures !Eligible(h1, n, prefix, structName, receiver)
    {
      if Eligible(h, n, prefix, structName, receiver) {
        assert n in Elems(ms);
      }
    }
    MatchesNone(h1, h1.funcOrder, prefix, structName, receiver);
  }

  lemma {:induction false} MatchesNone(h: Header, names: seq<string>, prefix: string, structName: string, receiver: bool)
    requires forall n :: n in names ==> !Eligible(h, n, prefix, structName, receiver)
    ensures MatchesIn(h, names, prefix, structName, receiver) == []
    decreases |names|
  {
    if |names| > 0 {
      var init := names[..|names| - 1];
      assert forall j :: 0 <= j < |init| ==> init[j] == names[j];
      MatchesNone(h, init, prefix, structName, receiver);
    }
  }

  /** Lines 186-222: bind the eligible functions whose first argument
      points at the class's struct as methods. */
  method AddPrefixedMethods(c: Class, h: Header, r: Registry, prefix: string) returns (res: Result<(Class, Header, Registry)>)
    requires h.Valid()
    ensures res.Ok? <==> forall n :: n in Matches(h, prefix, c.structName, true) ==> Bindable(r, h, n, prefix, true)
    ensures res.Ok? ==>
      var (c1, h1, _) := res.value;
      var ms := Matches(h, prefix, c.structName, true);
      && h1.used == h.used + Elems(ms)
      && (forall n :: n in ms ==> n !in h.used && StartsWith(n, prefix) && "RZ_API" in h.funcs[n].decl.attrs)
      && (forall n :: n in ms ==>
            var ps := h.funcs[n].params;
            |ps| > 0 && ps[0].ty.Pointer? && CanonicalRecord(ps[0].ty.pointee) == Some(c.structName))
      && |c1.funcs| == |c.funcs| + |ms| && c1.funcs[..|c.funcs|] == c.funcs
      && (forall k :: 0 <= k < |ms| ==>
            var bf := c1.funcs[|c.funcs| + k];
            && StartsWith(ms[k], prefix)
            && bf.kind == This && bf.cName == ms[k] && bf.name == ms[k][|prefix|..]
            && ms[k] in h.funcs
            && Build(r, h.funcs[ms[k]], This, ms[k][|prefix|..], false, {}, map[], []).Ok?
            && bf == Build(r, h.funcs[ms[k]], This, ms[k][|prefix|..], false, {}, map[], []).value.0)
      && Matches(h1, prefix, c.structName, true) == []
    ensures res.Ok? && Matches(h, prefix, c.structName, true) == [] ==> res.value.0 == c && res.value.1 == h
  {
    res := BindPrefixed(c, h, r, prefix, true);
    if res.Ok? {
      ghost var added := res.value.0.funcs[|c.funcs|..];
      assert forall k :: 0 <= k < |added| ==> added[k] == res.value.0.funcs[|c.funcs| + k];
    }
    if res.Ok? && Matches(h, prefix, c.structName, true) == [] {
      assert res.value.1.used == h.used;
      assert res.value.0.funcs == res.value.0.funcs[..|c.funcs|];
    }
  }

  /** Lines 224-247: bind the eligible functions as static functions. */
  method AddPrefixedFuncs(c: Class, h: Header, r: Registry, prefix: string) returns (res: Result<(Class, Header, Registry)>)
    requires h.Valid()
    ensures res.Ok? <==> forall n :: n in Matches(h, prefix, c.structName, false) ==> Bindable(r, h, n, prefix, false)
    ensures res.Ok? ==>
      var (c1, h1, _) := res.value;
      var ms := Matches(h, prefix, c.structName, false);
      && h1.used == h.used + Elems(ms)
      && (forall n :: n in ms ==> n !in h.used && StartsWith(n, prefix) && "RZ_API" in h.funcs[n].decl.attrs)
      && |c1.funcs| == |c.funcs| + |ms| && c1.funcs[..|c.funcs|] == c.funcs
      && (forall k :: 0 <= k < |ms| ==>
            var bf := c1.funcs[|c.funcs| + k];
            && StartsWith(ms[k], prefix)
            && bf.kind == Static && bf.cName == ms[k] && bf.name == ms[k][|prefix|..]
            && ms[k] in h.funcs
            && Build(r, h.funcs[ms[k]], Static, ms[k][|prefix|..], false, {}, map[], []).Ok?
            && bf == Build(r, h.funcs[ms[k]], Static, ms[k][|prefix|..], false, {}, map[], []).value.0)
      && Matches(h1, prefix, c.structName, false) == []
    ensures res.Ok? && Matches(h, prefix, c.structName, false) == [] ==> res.value.0 == c && res.value.1 == h
  {
    res := BindPrefixed(c, h, r, prefix, false);
    if res.Ok? {
      ghost var added := res.value.0.funcs[|c.funcs|..];
      assert forall k :: 0 <= k < |added| ==> added[k] == res.value.0.funcs[|c.funcs| + k];
    }
    if res.Ok? && Matches(h, prefix, c.structName, false) == [] {
      assert res.value.1.used == h.used;
      assert res.value.0.funcs == res.value.0.funcs[..|c.funcs|];
    }
  }

  /* ---------------------------------------------------------------------
     Writing
     --------------------------------------------------------------------- */

  /** Lines 308-318: the struct block, then the bound functions one level
      in inside `%extend S { ... }`. */
  function WriteClass(c: Class): (out: seq<Line>)
    ensures |out| == |c.structLines| + |WriteFuncs(c.funcs, 1)| + 2
    ensures out[..|c.structLines|] == c.structLines
    ensures out[|c.structLines|] == Line(0, "%extend " + c.structName + " {")
    ensures out[|c.structLines| + 1..|out| - 1] == WriteFuncs(c.funcs, 1)
    ensures out[|out| - 1] == Line(0, "}")
  {
    c.structLines + [Line(0, "%extend " + c.structName + " {")] + WriteFuncs(c.funcs, 1) + [Line(0, "}")]
  }

  /** Binding a function to a class inserts exactly that function's text,
      one level in, before the class's closing line. */
  lemma WriteClassBind(c: Class, bf: BoundFunc)
    ensures var out := WriteClass(c);
      WriteClass(c.(funcs := c.funcs + [bf])) == out[..|out| - 1] + WriteFunc(bf, 1) + [Line(0, "}")]
  {
    WriteFuncsAppend(c.funcs, bf, 1);
    InsertBefore(c.structLines + [Line(0, "%extend " + c.structName + " {")], WriteFuncs(c.funcs, 1), WriteFunc(bf, 1), [Line(0, "}")]);
  }
}
