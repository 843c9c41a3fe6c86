/** The generic builder (src/module_generic.py): register a generic
    container in the module's registry, bind its methods, collect the lines
    of its `%extend` blocks, and write its SWIG macro followed by one
    invocation per discovered specialization. */
module GenericBuilder {
  import opened Wrappers
  import opened Writer
  import opened Ast
  import opened Entities
  import opened FuncEmitter

  /** Each specialization extended so far is listed once in `extKeys`, and
      those are exactly the keys of `specExtensions` (the insertion order of
      the source's default dictionary). */
  ghost predicate ExtensionsWf(g: Generic) {
    && (forall i, j :: 0 <= i < j < |g.extKeys| ==> g.extKeys[i] != g.extKeys[j])
    && (forall s :: s in g.extKeys <==> s in g.specExtensions)
  }

  /* ---------------------------------------------------------------------
     Registration and methods
     --------------------------------------------------------------------- */

  /** Lines 35-59: register generic `name`. It must be a typedef of the
      header whose underlying declaration is a struct; that struct's
      spelling then maps to the generic. The generic starts with no
      specializations, functions or extensions. A name registered again
      keeps its place in the registration order. */
  function New(r: Registry, h: Header, name: string, pointer: bool, dependencies: seq<string>): (res: Result<Registry>)
    ensures name !in h.typedefs ==> res == Err(NotFound("typedefs", name))
    ensures name in h.typedefs && h.typedefs[name].target.None? ==> res == Err(NotAStruct(name))
    ensures res.Ok? <==> name in h.typedefs && h.typedefs[name].target.Some?
    ensures res.Ok? ==>
      var r1 := res.value;
      && r1.generics == r.generics[name := Generic(name, pointer, {}, dependencies, [], [], [], map[])]
      && r1.mappings == r.mappings[h.typedefs[name].target.value.spelling := name]
      && (name in r.order ==> r1.order == r.order)
      && (name !in r.order ==> r1.order == r.order + [name])
  {
    if name !in h.typedefs then Err(NotFound("typedefs", name))
    else match h.typedefs[name].target
      case None => Err(NotAStruct(name))
      case Some(s) =>
        Ok(Registry(
          r.generics[name := Generic(name, pointer, {}, dependencies, [], [], [], map[])],
          if name in r.order then r.order else r.order + [name],
          r.mappings[s.spelling := name]))
  }

  /** Registering a generic keeps the registry consistent, and the new
      generic's extension bookkeeping starts consistent too. */
  lemma NewValid(r: Registry, h: Header, name: string, pointer: bool, dependencies: seq<string>)
    requires r.Valid() && New(r, h, name, pointer, dependencies).Ok?
    ensures var r1 := New(r, h, name, pointer, dependencies).value;
      && r1.Valid()
      && name in r1.generics && r1.generics[name].specializations == {}
      && ExtensionsWf(r1.generics[name])
  {
    var r1 := New(r, h, name, pointer, dependencies).value;
    forall i, j | 0 <= i < j < |r1.order|
      ensures r1.order[i] != r1.order[j]
    {
      if name !in r.order && j == |r.order| {
        assert r1.order[j] == name;
        assert r1.order[i] == r.order[i];
      }
    }
  }

  /** Lines 61-86: bind C function `cname` to generic `g` as a method
      (kind `This`) named `rename`; `genericRet` and `genericArgs` say what
      is spelled with the macro's type parameter. The function is marked
      used, and apart from the new function the registry only grows. */
  function AddMethod(r: Registry, h: Header, g: string, cname: string, rename: string,
                     genericRet: bool, genericArgs: set<string>): (res: Result<(Registry, Header)>)
    requires g in r.generics
    ensures cname !in h.funcs ==> res == Err(NotFound("funcs", cname))
    ensures cname in h.funcs ==>
      (res.Ok? <==> Build(r, h.funcs[cname], This, rename, genericRet, genericArgs, map[], []).Ok?)
    ensures res.Ok? ==>
      var (r1, h1) := res.value;
      var bf := Build(r, h.funcs[cname], This, rename, genericRet, genericArgs, map[], []).value.0;
      && cname in h.funcs
      && h1 == h.Use(cname)
      && g in r1.generics
      && r1.generics[g].funcs == r.generics[g].funcs + [bf]
      && bf.kind == This && bf.name == rename
      && GrowsWithFunc(r, r1, g)
      && SpecsRecorded(r, r1, BuildUses(r, h.funcs[cname], This, genericRet, genericArgs))
  {
    if cname !in h.funcs then Err(NotFound("funcs", cname))
    else match Build(r, h.funcs[cname], This, rename, genericRet, genericArgs, map[], [])
      case Err(e) => Err(e)
      case Ok(built) =>
        var r1 := WithFunc(r, built.1, g, built.0);
        WithFuncRecords(r, built.1, g, built.0, BuildUses(r, h.funcs[cname], This, genericRet, genericArgs));
        Ok((r1, h.Use(cname)))
  }

  /** Apart from generic `g`'s functions, `r1` is `r` with possibly more
      specializations discovered. */
  ghost predicate GrowsWithFunc(r: Registry, r1: Registry, g: string) {
    && r1.mappings == r.mappings
    && r1.order == r.order
    && r1.generics.Keys == r.generics.Keys
    && forall n :: n in r.generics ==>
         && r.generics[n].specializations <= r1.generics[n].specializations
         && r1.generics[n] == r.generics[n].(specializations := r1.generics[n].specializations, funcs := r1.generics[n].funcs)
         && (n != g ==> r1.generics[n].funcs == r.generics[n].funcs)
  }

  /** `r2`, grown from `r`, with `bf` appended to generic `g`'s functions. */
  function WithFunc(r: Registry, r2: Registry, g: string, bf: BoundFunc): (r1: Registry)
    requires g in r.generics && Grows(r, r2)
    ensures g in r1.generics && r1.generics[g].funcs == r.generics[g].funcs + [bf]
    ensures GrowsWithFunc(r, r1, g)
    ensures forall n :: n in r.generics ==> r1.generics[n].specializations == r2.generics[n].specializations
  {
    var gen := r2.generics[g];
    Registry(r2.generics[g := gen.(funcs := gen.funcs + [bf])], r2.order, r2.mappings)
  }

  /** Appending a function keeps the specializations recorded so far. */
  lemma WithFuncRecords(r: Registry, r2: Registry, g: string, bf: BoundFunc, uses: set<(string, string)>)
    requires g in r.generics && Records(r, r2, uses)
    ensures var r1 := WithFunc(r, r2, g, bf); GrowsWithFunc(r, r1, g) && SpecsRecorded(r, r1, uses)
  {
  }

  /** Binding a method keeps the registry consistent. */
  lemma GrowsWithFuncValid(r: Registry, r1: Registry, g: string)
    requires r.Valid() && g in r.generics && GrowsWithFunc(r, r1, g)
    ensures r1.Valid()
    ensures ExtensionsWf(r.generics[g]) ==> ExtensionsWf(r1.generics[g])
  {
  }

  /* ---------------------------------------------------------------------
     Extensions
     --------------------------------------------------------------------- */

  /** Lines 88-93: append lines to the generic's own `%extend`, in call
      order. */
  function AddExtension(g: Generic, lines: seq<string>): (g1: Generic)
    ensures g1.extensions == g.extensions + At(0, lines)
    ensures g1.(extensions := g.extensions) == g
  {
    g.(extensions := g.extensions + At(0, lines))
  }

  /** Lines 95-100: append lines to the `%extend` of one specialization, in
      call order. A specialization is listed the first time a line is added
      for it; adding no lines leaves the generic untouched. */
  function AddSpecializationExtension(g: Generic, spec: string, lines: seq<string>): (g1: Generic)
    ensures |lines| == 0 ==> g1 == g
    ensures |lines| > 0 ==>
      && spec in g1.specExtensions
      && g1.specExtensions[spec] == (if spec in g.specExtensions then g.specExtensions[spec] else []) + At(0, lines)
      && g1.extKeys == g.extKeys + (if spec in g.specExtensions then [] else [spec])
    ensures forall s :: s in g.specExtensions && s != spec ==> s in g1.specExtensions && g1.specExtensions[s] == g.specExtensions[s]
    ensures g1.(extKeys := g.extKeys, specExtensions := g.specExtensions) == g
    ensures ExtensionsWf(g) ==> ExtensionsWf(g1)
  {
    if |lines| == 0 then g
    else if spec in g.specExtensions then
      g.(specExtensions := g.specExtensions[spec := g.specExtensions[spec] + At(0, lines)])
    else
      g.(extKeys := g.extKeys + [spec], specExtensions := g.specExtensions[spec := At(0, lines)])
  }

  /* ---------------------------------------------------------------------
     Writing
     --------------------------------------------------------------------- */

  /** The opening of the macro, up to the `%extend` of the specialized
      type. */
  function MacroHead(name: string): seq<Line> {
    [ Line(0, "%define %" + name + "(TYPE)"),
      Line(1, "%nodefaultctor " + name + "_##TYPE;"),
      Line(1, "%{"),
      Line(1, "typedef " + name + " " + name + "_##TYPE;"),
      Line(1, "%}"),
      Line(1, "typedef struct {} " + name + "_##TYPE;"),
      Line(1, "%extend " + name + "_##TYPE {") ]
  }

  function MacroTail(): seq<Line> {
    [Line(1, "}"), Line(0, "%enddef")]
  }

  /** Lines 106-123: the `%define` macro: the head, then inside the
      `%extend` the functions and then the extensions, two levels in, and
      the closing lines. */
  function Macro(g: Generic): (m: seq<Line>)
    ensures var (f, e) := (WriteFuncs(g.funcs, 2), Shift(g.extensions, 2));
      && |m| == 9 + |f| + |e|
      && m[0] == Line(0, "%define %" + g.name + "(TYPE)")
      && m[1] == Line(1, "%nodefaultctor " + g.name + "_##TYPE;")
      && m[2] == Line(1, "%{")
      && m[3] == Line(1, "typedef " + g.name + " " + g.name + "_##TYPE;")
      && m[4] == Line(1, "%}")
      && m[5] == Line(1, "typedef struct {} " + g.name + "_##TYPE;")
      && m[6] == Line(1, "%extend " + g.name + "_##TYPE {")
      && m[7..7 + |f|] == f
      && m[7 + |f|..7 + |f| + |e|] == e
      && m[|m| - 2..] == [Line(1, "}"), Line(0, "%enddef")]
  {
    var (f, e) := (WriteFuncs(g.funcs, 2), Shift(g.extensions, 2));
    Slices4(MacroHead(g.name), f, e, MacroTail());
    MacroHead(g.name) + f + e + MacroTail()
  }

  /** Binding a method inserts exactly its text, two levels in, after the
      functions already bound and before the extensions. */
  lemma MacroBind(g: Generic, bf: BoundFunc)
    ensures var (f, e) := (WriteFuncs(g.funcs, 2), Shift(g.extensions, 2));
      Macro(g.(funcs := g.funcs + [bf])) == MacroHead(g.name) + f + WriteFunc(bf, 2) + e + MacroTail()
  {
    WriteFuncsAppend(g.funcs, bf, 2);
  }

  /** Adding extension lines inserts them, two levels in, just before the
      closing lines of the macro. */
  lemma MacroExtend(g: Generic, lines: seq<string>)
    ensures var m := Macro(g);
      Macro(AddExtension(g, lines)) == m[..|m| - 2] + At(2, lines) + MacroTail()
  {
    var (h, f, e) := (MacroHead(g.name), WriteFuncs(g.funcs, 2), Shift(g.extensions, 2));
    ShiftAppend(g.extensions, At(0, lines), 2);
    assert Shift(At(0, lines), 2) == At(2, lines);
    InsertBefore(h, f + e, At(2, lines), MacroTail());
    assert h + f + e == h + (f + e);
    assert h + f + (e + At(2, lines)) == h + ((f + e) + At(2, lines));
  }

  /** Lines 126-128 for one specialization: each dependency's macro is
      invoked on it, in order, and then the generic's own. */
  function InvocationBlock(name: string, dependencies: seq<string>, spec: string): (b: seq<Line>)
    ensures |b| == |dependencies| + 1
    ensures forall j :: 0 <= j < |dependencies| ==> b[j] == Line(0, "%" + dependencies[j] + "(" + spec + ")")
    ensures b[|dependencies|] == Line(0, "%" + name + "(" + spec + ")")
  {
    At(0, seq(|dependencies|, j requires 0 <= j < |dependencies| => "%" + dependencies[j] + "(" + spec + ")"))
      + [Line(0, "%" + name + "(" + spec + ")")]
  }

  /** Lines 125-128: the invocation blocks of the specializations, in the
      order they are visited. */
  function Invocations(name: string, dependencies: seq<string>, specs: seq<string>): seq<Line>
    decreases |specs|
  {
    if |specs| == 0 then []
    else InvocationBlock(name, dependencies, specs[0]) + Invocations(name, dependencies, specs[1..])
  }

  /** `i` blocks of `k` lines each: `i * k`, spelled without
      multiplication. */
  function Offset(i: nat, k: nat): nat {
    if i == 0 then 0 else Offset(i - 1, k) + k
  }

  lemma {:induction false} OffsetIsProduct(i: nat, k: nat)
    ensures Offset(i, k) == i * k
  {
    if i > 0 {
      OffsetIsProduct(i - 1, k);
      assert i * k == (i - 1) * k + k;
    }
  }

  /** The `i`-th specialization's block sits at offset
      `i * (|dependencies| + 1)`. */
  lemma {:induction false} InvocationsAt(name: string, dependencies: seq<string>, specs: seq<string>, i: nat)
    requires i < |specs|
    ensures var (inv, k) := (Invocations(name, dependencies, specs), |dependencies| + 1);
      && |inv| == Offset(|specs|, k)
      && Offset(i, k) + k <= |inv|
      && inv[Offset(i, k)..Offset(i, k) + k] == InvocationBlock(name, dependencies, specs[i])
    decreases |specs|
  {
    var k := |dependencies| + 1;
    var b := InvocationBlock(name, dependencies, specs[0]);
    var rest := Invocations(name, dependencies, specs[1..]);
    InvocationsLength(name, dependencies, specs[1..]);
    assert Invocations(name, dependencies, specs) == b + rest;
    if i > 0 {
      InvocationsAt(name, dependencies, specs[1..], i - 1);
      SliceRight(b, rest, Offset(i, k), Offset(i, k) + k);
    } else {
      assert (b + rest)[..k] == b;
    }
  }

  lemma {:induction false} InvocationsLength(name: string, dependencies: seq<string>, specs: seq<string>)
    ensures |Invocations(name, dependencies, specs)| == Offset(|specs|, |dependencies| + 1)
    decreases |specs|
  {
    if |specs| > 0 {
      InvocationsLength(name, dependencies, specs[1..]);
      var b := InvocationBlock(name, dependencies, specs[0]);
      assert Invocations(name, dependencies, specs) == b + Invocations(name, dependencies, specs[1..]);
    }
  }

  /** For every visited specialization the generic's own invocation is
      present at the end of its block, and each dependency's invocation on
      the same specialization comes before it, in dependency order. */
  lemma DependenciesFirst(name: string, dependencies: seq<string>, specs: seq<string>, i: nat)
    requires i < |specs|
    ensures var (inv, o) := (Invocations(name, dependencies, specs), i * (|dependencies| + 1));
      && o + |dependencies| < |inv|
      && inv[o + |dependencies|] == Line(0, "%" + name + "(" + specs[i] + ")")
      && forall j :: 0 <= j < |dependencies| ==>
           inv[o + j] == Line(0, "%" + dependencies[j] + "(" + specs[i] + ")")
  {
    var (inv, k) := (Invocations(name, dependencies, specs), |dependencies| + 1);
    OffsetIsProduct(i, k);
    var o := Offset(i, k);
    InvocationsAt(name, dependencies, specs, i);
    var b := inv[o..o + k];
    forall j | 0 <= j < |dependencies|
      ensures inv[o + j] == Line(0, "%" + dependencies[j] + "(" + specs[i] + ")")
    {
      assert inv[o + j] == b[j];
    }
    assert inv[o + |dependencies|] == b[|dependencies|];
  }

  /** Lines 132-135 for one specialization: its `%extend` with its lines
      one level in. */
  function SpecBlock(name: string, spec: string, lines: seq<Line>): (b: seq<Line>)
    ensures |b| == |lines| + 2
    ensures b[0] == Line(0, "%extend " + name + "_" + spec + " {")
    ensures forall k :: 0 <= k < |lines| ==> b[k + 1] == Line(lines[k].depth + 1, lines[k].text)
    ensures b[|b| - 1] == Line(0, "}")
  {
    [Line(0, "%extend " + name + "_" + spec + " {")] + Shift(lines, 1) + [Line(0, "}")]
  }

  /** Lines 130-135: the `%extend` of each extended specialization, in the
      order they were first extended. */
  function SpecBlocks(name: string, keys: seq<string>, exts: map<string, seq<Line>>): seq<Line>
    requires forall k :: k in keys ==> k in exts
    decreases |keys|
  {
    if |keys| == 0 then []
    else SpecBlock(name, keys[0], exts[keys[0]]) + SpecBlocks(name, keys[1..], exts)
  }

  /** Extending a specialization again inserts the new lines, one level
      in, just before the closing line of its block. */
  lemma SpecBlockExtend(name: string, spec: string, lines: seq<Line>, more: seq<string>)
    ensures var b := SpecBlock(name, spec, lines);
      SpecBlock(name, spec, lines + At(0, more)) == b[..|b| - 1] + At(1, more) + [Line(0, "}")]
  {
    ShiftAppend(lines, At(0, more), 1);
    assert Shift(At(0, more), 1) == At(1, more);
    InsertBefore([Line(0, "%extend " + name + "_" + spec + " {")], Shift(lines, 1), At(1, more), [Line(0, "}")]);
  }

  /** Extending a new specialization appends its block after the others. */
  lemma {:induction false} SpecBlocksAppend(name: string, keys: seq<string>, exts: map<string, seq<Line>>, spec: string, lines: seq<Line>)
    requires forall k :: k in keys ==> k in exts
    requires spec !in keys
    ensures SpecBlocks(name, keys + [spec], exts[spec := lines]) == SpecBlocks(name, keys, exts) + SpecBlock(name, spec, lines)
    decreases |keys|
  {
    if |keys| == 0 {
      assert SpecBlocks(name, [spec], exts[spec := lines]) == SpecBlock(name, spec, lines) + SpecBlocks(name, [], exts[spec := lines]);
    } else {
      assert (keys + [spec])[1..] == keys[1..] + [spec];
      assert keys[0] != spec;
      SpecBlocksAppend(name, keys[1..], exts, spec, lines);
    }
  }

  /** The position of the first key outside `known`, or `|keys|` when
      every key is known. */
  function FirstUnknown(keys: seq<string>, known: set<string>): (i: nat)
    ensures i <= |keys|
    ensures forall j :: 0 <= j < i ==> keys[j] in known
    ensures i < |keys| ==> keys[i] !in known
    decreases |keys|
  {
    if |keys| == 0 then 0
    else if keys[0] !in known then 0
    else 1 + FirstUnknown(keys[1..], known)
  }

  /** Lines 102-135: every extended specialization must have been
      discovered; otherwise the first one, in extension order, that was
      not is the error. The text is laid out as `WriteLayout` states. */
  function Write(g: Generic, specs: seq<string>): (res: Result<seq<Line>>)
    requires forall s :: s in specs <==> s in g.specializations
    requires forall i, j :: 0 <= i < j < |specs| ==> specs[i] != specs[j]
    requires ExtensionsWf(g)
    ensures res.Ok? <==> forall k :: k in g.specExtensions ==> k in g.specializations
    ensures res.Err? ==>
      exists i :: 0 <= i < |g.extKeys| && res.error == UnknownSpecialization(g.extKeys[i])
        && g.extKeys[i] !in g.specializations
        && forall j :: 0 <= j < i ==> g.extKeys[j] in g.specializations
  {
    var i := FirstUnknown(g.extKeys, g.specializations);
    if i < |g.extKeys| then
      Err(UnknownSpecialization(g.extKeys[i]))
    else
      Ok(Macro(g) + Invocations(g.name, g.dependencies, specs) + SpecBlocks(g.name, g.extKeys, g.specExtensions))
  }

  /** Lines 102-135: the macro, then the invocations of each discovered
      specialization in the order `specs` visits them (the source iterates
      a set, so the order is a parameter), then the extended
      specializations' blocks. */
  lemma WriteLayout(g: Generic, specs: seq<string>)
    requires forall s :: s in specs <==> s in g.specializations
    requires forall i, j :: 0 <= i < j < |specs| ==> specs[i] != specs[j]
    requires ExtensionsWf(g) && Write(g, specs).Ok?
    ensures
      var out := Write(g, specs).value;
      var m := Macro(g);
      var inv := Invocations(g.name, g.dependencies, specs);
      var blocks := SpecBlocks(g.name, g.extKeys, g.specExtensions);
      && |out| == |m| + |inv| + |blocks|
      && out[..|m|] == m
      && out[|m|..|m| + |inv|] == inv
      && out[|m| + |inv|..] == blocks
  {
    var m := Macro(g);
    var inv := Invocations(g.name, g.dependencies, specs);
    var blocks := SpecBlocks(g.name, g.extKeys, g.specExtensions);
    assert Write(g, specs).value == m + inv + blocks;
    assert (m + inv + blocks)[..|m|] == m;
    assert (m + inv + blocks)[|m|..|m| + |inv|] == inv;
    assert (m + inv + blocks)[|m| + |inv|..] == blocks;
  }
}
