/** The type namer and the generic-specialization scanner of the module
    (src/module.py): turning a C type into an interface declarator or a
    documentation type name, and discovering, from the `/*<T>*/` comment a
    declaration carries, which specialization of a generic it uses. */
module TypeNamer {
  import opened Wrappers
  import opened Strings
  import opened Ast
  import opened Entities

  /* ---------------------------------------------------------------------
     Generic lookup
     --------------------------------------------------------------------- */

  /** The generic a type refers to through any number of pointer levels:
      `"void"` for a void pointee, the registered generic of its canonical
      struct, or nothing. */
  function GetGenericName(r: Registry, t: Type): (g: Option<string>)
    ensures StripPointers(t).Void? ==> g == Some("void")
    ensures !StripPointers(t).Void? ==>
      var key := CanonicalDeclSpelling(StripPointers(t));
      g == (if key in r.mappings then Some(r.mappings[key]) else None)
    ensures r.Valid() && g.Some? && !StripPointers(t).Void? ==> g.value in r.generics
  {
    if t.Pointer? then GetGenericName(r, t.pointee)
    else if t.Void? then Some("void")
    else if CanonicalDeclSpelling(t) in r.mappings then Some(r.mappings[CanonicalDeclSpelling(t)])
    else None
  }

  /** Python truthiness of a looked-up generic name other than `"void"`. */
  predicate IsGenericName(g: Option<string>) {
    g.Some? && g.value != "void" && g.value != ""
  }

  /* ---------------------------------------------------------------------
     Specialization scanning
     --------------------------------------------------------------------- */

  /** A token of the form `/*<...>*/`. */
  predicate IsAnnotation(tok: string) {
    StartsWith(tok, "/*<") && EndsWith(tok, ">*/")
  }

  lemma AnnotationLength(tok: string)
    requires IsAnnotation(tok)
    ensures |tok| >= 6
  {
    assert tok[..3] == "/*<";
    assert tok[|tok| - 3..] == ">*/";
    assert tok[0] == '/' && tok[1] == '*' && tok[2] == '<';
    assert tok[|tok| - 3] == '>';
  }

  /** The text between `/*<` and `>*/`. */
  function AnnotationBody(tok: string): (s: string)
    requires IsAnnotation(tok)
    ensures |s| == |tok| - 6
  {
    AnnotationLength(tok);
    tok[3..|tok| - 3]
  }

  /** `s` with one leading `const ` removed. */
  function DropConst(s: string): string {
    if StartsWith(s, "const ") then s[6..] else s
  }

  /** Lines 93-99: the annotation token must look like `/*<...>*/`; its
      inner text loses one leading `const `. */
  function AnnotationInner(annotation: Option<string>, generic: string, at: string): (r: Result<string>)
    ensures r.Ok? <==> annotation.Some? && IsAnnotation(annotation.value)
    ensures r.Err? ==> r.error == MissingAnnotation(generic, at)
    ensures r.Ok? ==> r.value == DropConst(AnnotationBody(annotation.value))
  {
    if annotation.None? || !IsAnnotation(annotation.value) then Err(MissingAnnotation(generic, at))
    else
      var inner := AnnotationBody(annotation.value);
      if StartsWith(inner, "const ") then Ok(inner[6..]) else Ok(inner)
  }

  /** Lines 104-116: a pointer-based generic's specialization must end in
      ` *`, which is dropped; any other generic keeps the inner text. */
  function PointerSpecialization(name: string, pointer: bool, generic: string, at: string): (r: Result<string>)
    ensures !pointer ==> r == Ok(name)
    ensures pointer ==> (r.Ok? <==> EndsWith(name, " *"))
    ensures pointer && r.Ok? ==> name == r.value + " *"
    ensures pointer && |name| > 0 && name[|name| - 1] != '*' ==> r == Err(PointerMissing(generic, at))
    ensures pointer && |name| > 1 && name[|name| - 1] == '*' && name[|name| - 2] != ' ' ==> r == Err(SpaceMissing(at))
  {
    if !pointer then Ok(name)
    else if |name| < 1 then Err(IndexOutOfRange(at))
    else if name[|name| - 1] != '*' then Err(PointerMissing(generic, at))
    else if |name| < 2 then Err(IndexOutOfRange(at))
    else if name[|name| - 2] != ' ' then Err(SpaceMissing(at))
    else
      assert name == name[..|name| - 2] + " *";
      Ok(name[..|name| - 2])
  }

  /** The whole scanning rule: the specialization a token names for a
      generic with the given pointer flag. */
  function ScanAnnotation(annotation: Option<string>, pointer: bool, generic: string, at: string): Result<string> {
    var inner :- AnnotationInner(annotation, generic, at);
    PointerSpecialization(inner, pointer, generic, at)
  }

  /** The token an author writes to name specialization `spec`. */
  function Annotation(spec: string, pointer: bool): string {
    "/*<" + spec + (if pointer then " *" else "") + ">*/"
  }

  lemma AnnotationBodyOf(s: string)
    ensures IsAnnotation("/*<" + s + ">*/")
    ensures AnnotationBody("/*<" + s + ">*/") == s
  {
    var tok := "/*<" + s + ">*/";
    assert tok[..3] == "/*<";
    assert tok[|tok| - 3..] == ">*/";
    assert tok[3..|tok| - 3] == s;
  }

  /** Scanning recovers the specialization an annotation was written for. */
  lemma {:induction false} ScanAnnotationRoundTrip(spec: string, pointer: bool, generic: string, at: string)
    requires !StartsWith(spec + " ", "const ")
    ensures ScanAnnotation(Some(Annotation(spec, pointer)), pointer, generic, at) == Ok(spec)
  {
    var inner := spec + (if pointer then " *" else "");
    assert Annotation(spec, pointer) == "/*<" + inner + ">*/";
    AnnotationBodyOf(inner);
    if |spec| >= 6 {
      assert inner[..6] == spec[..6] == (spec + " ")[..6];
    } else if |spec| == 5 && pointer {
      assert inner[..6] == (spec + " ")[..6];
    } else if pointer && |spec| == 4 {
      assert inner[5] == '*';
    }
    assert !StartsWith(inner, "const ");
    assert DropConst(inner) == inner;
    assert AnnotationInner(Some(Annotation(spec, pointer)), generic, at) == Ok(inner);
    if pointer {
      EndsWithConcat(spec, " *");
      var r := PointerSpecialization(inner, true, generic, at);
      assert r.value + " *" == spec + " *";
      assert r.value == (r.value + " *")[..|r.value|];
      assert r == Ok(spec);
    } else {
      assert inner == spec;
    }
    assert ScanAnnotation(Some(Annotation(spec, pointer)), pointer, generic, at) == PointerSpecialization(inner, pointer, generic, at);
  }

  /** A leading `const ` in the annotation does not reach the specialization. */
  lemma {:induction false} ScanAnnotationConst(spec: string, pointer: bool, generic: string, at: string)
    ensures ScanAnnotation(Some(Annotation("const " + spec, pointer)), pointer, generic, at) == Ok(spec)
  {
    var rest := spec + (if pointer then " *" else "");
    var inner := "const " + rest;
    assert Annotation("const " + spec, pointer) == "/*<" + inner + ">*/";
    AnnotationBodyOf(inner);
    StartsWithConcat("const ", rest);
    assert inner[6..] == rest;
    assert AnnotationInner(Some(Annotation("const " + spec, pointer)), generic, at) == Ok(rest);
    if pointer {
      EndsWithConcat(spec, " *");
      var r := PointerSpecialization(rest, true, generic, at);
      assert r.value + " *" == spec + " *";
      assert r.value == (r.value + " *")[..|r.value|];
    } else {
      assert rest == spec;
    }
  }

  /** Conversely every accepted token is the annotation of its result,
      possibly written with a leading `const `. */
  lemma {:induction false} ScanAnnotationInverse(tok: string, pointer: bool, generic: string, at: string)
    requires ScanAnnotation(Some(tok), pointer, generic, at).Ok?
    ensures var s := ScanAnnotation(Some(tok), pointer, generic, at).value;
      tok == Annotation(s, pointer) || tok == Annotation("const " + s, pointer)
  {
    var s := ScanAnnotation(Some(tok), pointer, generic, at).value;
    AnnotationLength(tok);
    var body := AnnotationBody(tok);
    assert tok == tok[..3] + body + tok[|tok| - 3..];
    assert tok == "/*<" + body + ">*/";
    var inner := DropConst(body);
    var tail := if pointer then " *" else "";
    assert inner == s + tail;
    if StartsWith(body, "const ") {
      assert body == body[..6] + body[6..];
      assert body == "const " + s + tail;
      assert tok == Annotation("const " + s, pointer);
    } else {
      assert tok == Annotation(s, pointer);
    }
  }

  /** Lines 75-120: scan the declaration's annotation for generic `g` and
      record the specialization it names in `g`'s set. */
  function AddGenericSpecialization(r: Registry, d: Decl, g: string): (res: Result<(string, Registry)>)
    ensures res.Ok? ==> g in r.generics && g in res.value.1.generics
    ensures g in r.generics ==>
      (res.Ok? <==> ScanAnnotation(d.annotation, r.generics[g].pointer, g, d.spelling).Ok?)
    ensures res.Ok? ==>
      res.value.0 == ScanAnnotation(d.annotation, r.generics[g].pointer, g, d.spelling).value
    ensures res.Ok? ==>
      res.value.1.generics[g].specializations == r.generics[g].specializations + {res.value.0}
    ensures res.Ok? ==> Records(r, res.value.1, {(g, res.value.0)})
    ensures res.Ok? ==> forall h :: h in r.generics && h != g ==> res.value.1.generics[h] == r.generics[h]
    ensures !(d.annotation.Some? && IsAnnotation(d.annotation.value)) ==>
      res == Err(MissingAnnotation(g, d.spelling))
  {
    var inner :- AnnotationInner(d.annotation, g, d.spelling);
    if g !in r.generics then Err(NotFound("generics", g))
    else
      var gen := r.generics[g];
      var spec :- PointerSpecialization(inner, gen.pointer, g, d.spelling);
      Ok((spec, r.(generics := r.generics[g := gen.(specializations := gen.specializations + {spec})])))
  }

  /** The specialization use a declaration of type `t` records: its generic
      paired with the specialization its annotation names, when the type is
      a concrete (non-macro) use of a registered generic whose annotation
      scans; nothing otherwise. */
  function Uses(r: Registry, d: Decl, t: Type, generic: bool): set<(string, string)> {
    var gn := GetGenericName(r, t);
    if generic || !IsGenericName(gn) || gn.value !in r.generics then {}
    else
      var scanned := ScanAnnotation(d.annotation, r.generics[gn.value].pointer, gn.value, d.spelling);
      if scanned.Ok? then {(gn.value, scanned.value)} else {}
  }

  /** The use a declaration records depends only on the registry's shape. */
  lemma UsesFrame(r0: Registry, r1: Registry, d: Decl, t: Type, generic: bool)
    requires SameShape(r0, r1)
    ensures Uses(r0, d, t, generic) == Uses(r1, d, t, generic)
  {
    assert GetGenericName(r0, t) == GetGenericName(r1, t);
  }

  /** Recording the same use twice changes nothing: a specialization is in
      its generic's set once however often it is used. */
  lemma AddGenericSpecializationIdempotent(r: Registry, d: Decl, g: string)
    requires AddGenericSpecialization(r, d, g).Ok?
    ensures var (s, r1) := AddGenericSpecialization(r, d, g).value;
      AddGenericSpecialization(r1, d, g) == Ok((s, r1))
  {
    var (s, r1) := AddGenericSpecialization(r, d, g).value;
    var gen := r1.generics[g];
    assert gen.specializations + {s} == gen.specializations;
    assert r1.generics[g := gen.(specializations := gen.specializations + {s})] == r1.generics;
  }

  /** Scanning reads only the shape of the registry. */
  lemma AddGenericSpecializationFrame(r0: Registry, r1: Registry, d: Decl, g: string)
    requires SameShape(r0, r1)
    ensures AddGenericSpecialization(r0, d, g).Ok? == AddGenericSpecialization(r1, d, g).Ok?
    ensures AddGenericSpecialization(r0, d, g).Ok? ==>
      AddGenericSpecialization(r0, d, g).value.0 == AddGenericSpecialization(r1, d, g).value.0
  {
  }

  /* ---------------------------------------------------------------------
     Declarators
     --------------------------------------------------------------------- */

  /** Lines 142-152: the name substituted for the type, if any. */
  function TypeName(r: Registry, d: Decl, t: Type, generic: bool): (res: Result<(Option<string>, Registry)>)
    ensures res.Ok? ==> Records(r, res.value.1, Uses(r, d, t, generic))
    ensures res.Ok? && res.value.0.Some? ==> res.value.0.value != ""
    ensures generic ==> res.Ok? && res.value.1 == r
    ensures GetGenericName(r, t) == Some("void") ==>
      res == Ok((if generic then Some("TYPE") else None, r))
    ensures !IsGenericName(GetGenericName(r, t)) && GetGenericName(r, t) != Some("void") ==>
      res == Ok((None, r))
    ensures IsGenericName(GetGenericName(r, t)) && generic ==>
      res == Ok((Some(GetGenericName(r, t).value + "_##TYPE"), r))
    ensures IsGenericName(GetGenericName(r, t)) && !generic ==>
      var g := GetGenericName(r, t).value;
      var added := AddGenericSpecialization(r, d, g);
      && (res.Ok? <==> added.Ok?)
      && (res.Ok? ==> res.value == (Some(g + "_" + added.value.0), added.value.1))
  {
    var gn := GetGenericName(r, t);
    if gn == Some("void") then Ok((if generic then Some("TYPE") else None, r))
    else if gn.Some? && gn.value != "" then
      if generic then Ok((Some(gn.value + "_##TYPE"), r))
      else
        var added :- AddGenericSpecialization(r, d, gn.value);
        Ok((Some(gn.value + "_" + added.0), added.1))
    else
      assert Uses(r, d, t, generic) == {};
      Ok((None, r))
  }

  lemma TypeNameFrame(r0: Registry, r1: Registry, d: Decl, t: Type, generic: bool)
    requires SameShape(r0, r1)
    ensures TypeName(r0, d, t, generic).Ok? == TypeName(r1, d, t, generic).Ok?
    ensures TypeName(r0, d, t, generic).Ok? ==>
      TypeName(r0, d, t, generic).value.0 == TypeName(r1, d, t, generic).value.0
  {
    assert GetGenericName(r0, t) == GetGenericName(r1, t);
    var gn := GetGenericName(r0, t);
    if IsGenericName(gn) && !generic {
      AddGenericSpecializationFrame(r0, r1, d, gn.value);
    }
  }

  /** Lines 155-163: peel pointer levels, prefixing one `*` per level and,
      when `marked`, a `const ` for each const-qualified pointee. */
  function Unwrap(marked: bool, t: Type, acc: string): (res: (string, Type))
    ensures res.1 == StripPointers(t)
    decreases t
  {
    if t.Pointer? then
      Unwrap(marked, t.pointee, ConstPrefix(marked && IsConst(t.pointee)) + "*" + acc)
    else (acc, t)
  }

  /** Lines 166-178: reorder an array or function-prototype shape around
      the name, returning the type left to spell. */
  function Reshape(name: string, t: Type): (string, Type) {
    match t
    case ConstArray(e, n) => (name + "[" + NatToString(n) + "]", e)
    case IncompleteArray(e) => (name + "[]", e)
    case FuncProto(ps, res) => ("(" + name + ")(" + Join(", ", ProtoArgs(ps)) + ")", res)
    case _ => (name, t)
  }

  /** The spelled parameter types of a function prototype, with `bool` for
      the boolean kind. */
  function ProtoArgs(ps: seq<Type>): (r: seq<string>)
    ensures |r| == |ps|
    ensures forall i :: 0 <= i < |ps| ==> r[i] == (if ps[i].Bool? then "bool" else Spelling(ps[i]))
  {
    seq(|ps|, i requires 0 <= i < |ps| => if ps[i].Bool? then "bool" else Spelling(ps[i]))
  }

  /** Lines 180-183: the type word: `bool` for the boolean kind, otherwise
      the substituted name, otherwise clang's spelling. */
  function TypeWord(typeName: Option<string>, t: Type): string {
    if t.Bool? then "bool" else typeName.GetOr(Spelling(t))
  }

  /** Lines 154-183 once the type name is known. */
  function Declarator(typeName: Option<string>, t: Type, name: string): string {
    var marked := typeName.Some?;
    var (named, base) := Unwrap(marked, t, ConstPrefix(marked && IsConst(t)) + name);
    var (shaped, rest) := Reshape(named, base);
    TypeWord(typeName, rest) + " " + shaped
  }

  /** Without a substituted name, pointer levels contribute exactly one `*`
      each and no `const` marker. */
  lemma {:induction false} UnwrapUnmarked(t: Type, acc: string)
    ensures Unwrap(false, t, acc) == (Stars(PointerDepth(t)) + acc, StripPointers(t))
    decreases t
  {
    if t.Pointer? {
      assert ConstPrefix(false) + "*" + acc == "*" + acc;
      assert Unwrap(false, t, acc) == Unwrap(false, t.pointee, "*" + acc);
      UnwrapUnmarked(t.pointee, "*" + acc);
      StarsSucc(PointerDepth(t.pointee));
      assert Stars(PointerDepth(t.pointee)) + ("*" + acc) == (Stars(PointerDepth(t.pointee)) + "*") + acc;
    } else {
      assert Stars(0) + acc == acc;
    }
  }

  /** Lines 155-163 read as a whole: the text the pointer levels of `t` put
      before a substituted name. From the innermost level out, each level
      contributes its `const ` when it is const-qualified, and consecutive
      levels are separated by one `*`; the type's own qualifier comes last. */
  function PointerMarks(t: Type): string
    decreases t
  {
    if t.Pointer? then PointerMarks(t.pointee) + "*" + ConstPrefix(IsConst(t))
    else ConstPrefix(IsConst(t))
  }

  /** With a substituted name, unravelling the pointers prefixes the name
      with exactly the pointer marks. */
  lemma {:induction false} UnwrapMarked(t: Type, acc: string)
    ensures Unwrap(true, t, ConstPrefix(IsConst(t)) + acc).0 == PointerMarks(t) + acc
    decreases t
  {
    if t.Pointer? {
      var p, top := t.pointee, ConstPrefix(IsConst(t));
      assert ConstPrefix(true && IsConst(p)) + "*" + (top + acc) == ConstPrefix(IsConst(p)) + ("*" + top + acc);
      UnwrapMarked(p, "*" + top + acc);
      assert PointerMarks(p) + ("*" + top + acc) == PointerMarks(t) + acc;
    }
  }

  /** A const-free chain is marked with one `*` per pointer level only. */
  lemma {:induction false} MarksConstFree(t: Type)
    requires ConstFreeChain(t)
    ensures PointerMarks(t) == Stars(PointerDepth(t))
    decreases t
  {
    if t.Pointer? {
      MarksConstFree(t.pointee);
      StarsSucc(PointerDepth(t.pointee));
      assert PointerMarks(t) == Stars(PointerDepth(t.pointee)) + "*";
    }
  }

  /** A const-qualified level adds `const `: a const pointee type starts the
      marks with it, and a const pointer ends them with it, right before the
      name. */
  lemma {:induction false} MarksConst(t: Type)
    ensures IsConst(StripPointers(t)) ==> StartsWith(PointerMarks(t), "const ")
    ensures IsConst(t) ==> EndsWith(PointerMarks(t), "const ")
    decreases t
  {
    if t.Pointer? {
      MarksConst(t.pointee);
      var inner := PointerMarks(t.pointee);
      if IsConst(StripPointers(t)) {
        StartsWithAppend(inner, "const ", "*" + ConstPrefix(IsConst(t)));
        assert PointerMarks(t) == inner + ("*" + ConstPrefix(IsConst(t)));
      }
      if IsConst(t) {
        EndsWithConcat(inner + "*", "const ");
      }
    } else if IsConst(t) {
      StartsWithConcat("const ", "");
      EndsWithConcat("", "const ");
      assert PointerMarks(t) == "const ";
    }
  }

  /** No level of the pointer chain is const-qualified. */
  predicate ConstFreeChain(t: Type) {
    !IsConst(t) && (t.Pointer? ==> ConstFreeChain(t.pointee))
  }

  /** With a substituted name, `const` markers appear only for const
      levels: a const-free chain unwraps as if unmarked. */
  lemma {:induction false} UnwrapConstFree(t: Type, acc: string)
    requires t.Pointer? ==> ConstFreeChain(t.pointee)
    ensures Unwrap(true, t, acc) == Unwrap(false, t, acc)
    decreases t
  {
    if t.Pointer? {
      assert !IsConst(t.pointee);
      assert ConstPrefix(true && IsConst(t.pointee)) + "*" + acc == "*" + acc;
      UnwrapConstFree(t.pointee, "*" + acc);
    }
  }

  /** Each pointer level of a plain (unsubstituted) declarator prepends one
      `*` to the name. */
  lemma DeclaratorPointers(t: Type, name: string)
    ensures Declarator(None, t, name) == Declarator(None, StripPointers(t), Stars(PointerDepth(t)) + name)
  {
    assert ConstPrefix(false) + name == name;
    UnwrapUnmarked(t, name);
    assert ConstPrefix(false) + (Stars(PointerDepth(t)) + name) == Stars(PointerDepth(t)) + name;
    UnwrapUnmarked(StripPointers(t), Stars(PointerDepth(t)) + name);
  }

  /** Without pointer levels or a substituted name, the declarator is the
      type word of what the shape leaves, then the reshaped name. */
  lemma DeclaratorUnpointed(t: Type, name: string)
    requires !t.Pointer?
    ensures Declarator(None, t, name) == TypeWord(None, Reshape(name, t).1) + " " + Reshape(name, t).0
  {
    assert ConstPrefix(false) + name == name;
    assert Unwrap(false, t, name) == (name, t);
  }

  /** The declarator shapes of lines 166-183 for a type with no pointer
      level and no substituted name. */
  lemma DeclaratorShapes(t: Type, name: string)
    requires !t.Pointer?
    ensures t.ConstArray? ==>
      Declarator(None, t, name) == TypeWord(None, t.element) + " " + name + "[" + NatToString(t.count) + "]"
    ensures t.IncompleteArray? ==>
      Declarator(None, t, name) == TypeWord(None, t.element) + " " + name + "[]"
    ensures t.FuncProto? ==>
      Declarator(None, t, name) == TypeWord(None, t.result) + " (" + name + ")(" + Join(", ", ProtoArgs(t.params)) + ")"
    ensures t.Bool? ==> Declarator(None, t, name) == "bool " + name
    ensures !(t.ConstArray? || t.IncompleteArray? || t.FuncProto? || t.Bool?) ==>
      Declarator(None, t, name) == Spelling(t) + " " + name
  {
    if t.ConstArray? {
      DeclaratorArray(t, name);
    } else if t.IncompleteArray? {
      DeclaratorOpenArray(t, name);
    } else if t.FuncProto? {
      DeclaratorProto(t, name);
    } else {
      DeclaratorUnpointed(t, name);
    }
  }

  lemma DeclaratorArray(t: Type, name: string)
    requires t.ConstArray?
    ensures Declarator(None, t, name) == TypeWord(None, t.element) + " " + name + "[" + NatToString(t.count) + "]"
  {
    DeclaratorUnpointed(t, name);
    var w, c := TypeWord(None, t.element), NatToString(t.count);
    assert w + " " + (name + "[" + c + "]") == w + " " + name + "[" + c + "]";
  }

  lemma DeclaratorOpenArray(t: Type, name: string)
    requires t.IncompleteArray?
    ensures Declarator(None, t, name) == TypeWord(None, t.element) + " " + name + "[]"
  {
    DeclaratorUnpointed(t, name);
    var w := TypeWord(None, t.element);
    assert w + " " + (name + "[]") == w + " " + name + "[]";
  }

  lemma DeclaratorProto(t: Type, name: string)
    requires t.FuncProto?
    ensures Declarator(None, t, name) == TypeWord(None, t.result) + " (" + name + ")(" + Join(", ", ProtoArgs(t.params)) + ")"
  {
    DeclaratorUnpointed(t, name);
    var w, j := TypeWord(None, t.result), Join(", ", ProtoArgs(t.params));
    assert w + " " + ("(" + name + ")(" + j + ")") == w + " (" + name + ")(" + j + ")";
  }

  /** Lines 122-183: the declaration string for `name` (the declaration's
      own spelling when absent) of type `t`; `generic` is set when called
      from a generic's `%define`. A concrete generic use records its
      specialization in the registry; `StringifyDeclGeneric` states the
      text of a generic declaration. */
  function StringifyDecl(r: Registry, d: Decl, t: Type, name: Option<string>, generic: bool): (res: Result<(string, Registry)>)
    ensures res.Ok? <==> TypeName(r, d, t, generic).Ok?
    ensures res.Ok? ==> Records(r, res.value.1, Uses(r, d, t, generic))
    ensures generic ==> res.Ok? && res.value.1 == r
    ensures !IsGenericName(GetGenericName(r, t)) && !(generic && GetGenericName(r, t) == Some("void")) ==>
      res == Ok((Declarator(None, StripPointers(t), Stars(PointerDepth(t)) + name.GetOr(d.spelling)), r))
  {
    var named :- TypeName(r, d, t, generic);
    var text := Declarator(named.0, t, name.GetOr(d.spelling));
    if named.0.None? then
      DeclaratorPointers(t, name.GetOr(d.spelling));
      Ok((text, named.1))
    else
      Ok((text, named.1))
  }

  /** A declaration of a generic (or of void inside a macro) is the
      substituted type name, a space, the pointer marks and the name:
      `G_##TYPE` or `TYPE` inside a macro, `G_spec` for the specialization
      `spec` its annotation names outside one. */
  lemma StringifyDeclGeneric(r: Registry, d: Decl, t: Type, name: Option<string>, generic: bool)
    requires "" !in r.mappings && StringifyDecl(r, d, t, name, generic).Ok?
    ensures var (text, nm) := (StringifyDecl(r, d, t, name, generic).value.0, name.GetOr(d.spelling));
      && (generic && GetGenericName(r, t) == Some("void") ==> text == "TYPE" + " " + PointerMarks(t) + nm)
      && (generic && IsGenericName(GetGenericName(r, t)) ==>
            text == GetGenericName(r, t).value + "_##TYPE" + " " + PointerMarks(t) + nm)
      && (!generic && IsGenericName(GetGenericName(r, t)) ==>
            text == GetGenericName(r, t).value + "_" + AddGenericSpecialization(r, d, GetGenericName(r, t).value).value.0
                    + " " + PointerMarks(t) + nm)
  {
    var named := TypeName(r, d, t, generic).value.0;
    if named.Some? {
      DeclMarks(r, t, named.value, name.GetOr(d.spelling));
    }
  }

  /** The declarator of a generic use: the type name, a space, the pointer
      marks and the name. */
  lemma DeclMarks(r: Registry, t: Type, tn: string, nm: string)
    requires "" !in r.mappings && GetGenericName(r, t).Some?
    ensures Declarator(Some(tn), t, nm) == tn + " " + PointerMarks(t) + nm
  {
    var base := Unwrap(true, t, ConstPrefix(IsConst(t)) + nm).1;
    GenericBase(r, t);
    assert !base.ConstArray? && !base.IncompleteArray? && !base.FuncProto? && !base.Bool?;
    UnwrapMarked(t, nm);
    assert tn + " " + (PointerMarks(t) + nm) == tn + " " + PointerMarks(t) + nm;
  }

  /** Under a registry without the empty struct spelling, a type that names
      a generic (or void) is a struct, a typedef to one, or void once its
      pointers are peeled: never an array, prototype or boolean. */
  lemma GenericBase(r: Registry, t: Type)
    requires "" !in r.mappings && GetGenericName(r, t).Some?
    ensures StripPointers(t).Void? || CanonicalRecord(StripPointers(t)).Some?
  {
    var base := StripPointers(t);
    if !base.Void? {
      assert CanonicalDeclSpelling(base) in r.mappings;
    }
  }

  lemma StringifyDeclFrame(r0: Registry, r1: Registry, d: Decl, t: Type, name: Option<string>, generic: bool)
    requires SameShape(r0, r1)
    ensures StringifyDecl(r0, d, t, name, generic).Ok? == StringifyDecl(r1, d, t, name, generic).Ok?
    ensures StringifyDecl(r0, d, t, name, generic).Ok? ==>
      StringifyDecl(r0, d, t, name, generic).value.0 == StringifyDecl(r1, d, t, name, generic).value.0
  {
    TypeNameFrame(r0, r1, d, t, generic);
  }

  /* ---------------------------------------------------------------------
     Documentation names
     --------------------------------------------------------------------- */

  /** Lines 204-241: the documentation name of a type that is not a
      generic use. */
  function DocName(t: Type): Option<string> {
    if t.Pointer? && t.pointee.Integer? && IsCharKind(t.pointee.kind) then Some("str")
    else if t.Pointer? && t.pointee.Typedef? then Some(Spelling(t.pointee))
    else if t.Typedef? then Some(Spelling(t))
    else if t.Bool? then Some("bool")
    else if t.Integer? && IsListedIntKind(t.kind) then Some("int")
    else if t.Void? then None
    else Some("\"" + Spelling(t) + "\"")
  }

  /** Lines 185-241: the documentation type name of `t`, `None` when the
      type documents as nothing. */
  function StringifyTypePy(r: Registry, d: Decl, t: Type, generic: bool): (res: Result<(Option<string>, Registry)>)
    ensures res.Ok? ==> Records(r, res.value.1, Uses(r, d, t, generic))
    ensures generic ==> res.Ok? && res.value.1 == r
    ensures generic && GetGenericName(r, t) == Some("void") ==> res.value.0 == Some("T")
    ensures generic && IsGenericName(GetGenericName(r, t)) ==>
      res.value.0 == Some(GetGenericName(r, t).value + "[T]")
    ensures !generic && IsGenericName(GetGenericName(r, t)) ==>
      var g := GetGenericName(r, t).value;
      var added := AddGenericSpecialization(r, d, g);
      && (res.Ok? <==> added.Ok?)
      && (res.Ok? ==> res.value == (Some(g + "[" + added.value.0 + "]"), added.value.1))
    ensures !IsGenericName(GetGenericName(r, t)) && !(generic && GetGenericName(r, t) == Some("void")) ==>
      && res.Ok? && res.value.1 == r
      && (t.Pointer? && t.pointee.Integer? && IsCharKind(t.pointee.kind) ==> res.value.0 == Some("str"))
      && (t.Pointer? && t.pointee.Typedef? ==> res.value.0 == Some(Spelling(t.pointee)))
      && (t.Integer? && IsListedIntKind(t.kind) ==> res.value.0 == Some("int"))
      && (t.Integer? && !IsListedIntKind(t.kind) ==> res.value.0 == Some("\"" + Spelling(t) + "\""))
      && (t.Bool? ==> res.value.0 == Some("bool"))
      && (t.Void? ==> res.value.0 == None)
      && (t.Typedef? ==> res.value.0 == Some(Spelling(t)))
      && (!(t.Pointer? && t.pointee.Integer? && IsCharKind(t.pointee.kind)) && !(t.Pointer? && t.pointee.Typedef?)
          && !t.Typedef? && !t.Bool? && !(t.Integer? && IsListedIntKind(t.kind)) && !t.Void? ==>
            res.value.0 == Some("\"" + Spelling(t) + "\""))
  {
    var gn := GetGenericName(r, t);
    if gn == Some("void") && generic then Ok((Some("T"), r))
    else if IsGenericName(gn) then
      if generic then Ok((Some(gn.value + "[T]"), r))
      else
        var added :- AddGenericSpecialization(r, d, gn.value);
        Ok((Some(gn.value + "[" + added.0 + "]"), added.1))
    else Ok((DocName(t), r))
  }

  /** A field holding a pointer to a prototype is declared as
      `R (*name)(params)`. */
  lemma DeclaratorFunctionPointer(ps: seq<Type>, res: Type, name: string)
    ensures Declarator(None, Pointer(FuncProto(ps, res), false), name)
      == TypeWord(None, res) + " (*" + name + ")(" + Join(", ", ProtoArgs(ps)) + ")"
  {
    var proto := FuncProto(ps, res);
    DeclaratorPointers(Pointer(proto, false), name);
    assert Stars(PointerDepth(Pointer(proto, false))) == "*";
    DeclaratorProto(proto, "*" + name);
    StarredNameText(TypeWord(None, res), name, Join(", ", ProtoArgs(ps)));
  }

  lemma StarredNameText(w: string, name: string, a: string)
    ensures w + " (" + ("*" + name) + ")(" + a + ")" == w + " (*" + name + ")(" + a + ")"
  {
    assert " (" + "*" == " (*";
  }

  /** A field holding a pointer to a function that takes a function pointer
      is declared in clang's spelling throughout. */
  lemma DeclaratorCallbackField()
    ensures Declarator(None, Pointer(FuncProto([Pointer(FuncProto([Pointer(Void(false), false)], Void(false)), false)], Void(false)), false), "f")
      == "void (*f)(void (*)(void *))"
  {
    var cb := Pointer(FuncProto([Pointer(Void(false), false)], Void(false)), false);
    DeclaratorFunctionPointer([cb], Void(false), "f");
    SpellingFunctionPointer();
    var args := ProtoArgs([cb]);
    assert args == ["void (*)(void *)"];
    assert Join(", ", args) == "void (*)(void *)";
    var d := Declarator(None, Pointer(FuncProto([cb], Void(false)), false), "f");
    assert d == TypeWord(None, Void(false)) + " (*" + "f" + ")(" + "void (*)(void *)" + ")";
    assert TypeWord(None, Void(false)) == "void";
    CallbackFieldText();
  }

  lemma CallbackFieldText()
    ensures "void" + " (*" + "f" + ")(" + "void (*)(void *)" + ")" == "void (*f)(void (*)(void *))"
  {
  }

  /** A pointer to a pointer to characters documents as a quoted C
      spelling with the stars together. */
  lemma DocNameDoublePointer()
    ensures DocName(Pointer(Pointer(Integer(CharS, true), false), false)) == Some("\"const char **\"")
  {
    var t := Pointer(Pointer(Integer(CharS, true), false), false);
    SpellingDoublePointer();
    assert DocName(t) == Some("\"" + Spelling(t) + "\"");
    assert "\"" + "const char **" + "\"" == "\"const char **\"";
  }

  /** The documentation name and the declaration of the same declaration
      record the same specialization: either both can be computed or
      neither, and both leave the same registry. */
  lemma DocAndDeclAgree(r: Registry, d: Decl, t: Type, name: Option<string>, generic: bool)
    ensures StringifyTypePy(r, d, t, generic).Ok? == StringifyDecl(r, d, t, name, generic).Ok?
    ensures StringifyTypePy(r, d, t, generic).Ok? ==>
      StringifyTypePy(r, d, t, generic).value.1 == StringifyDecl(r, d, t, name, generic).value.1
  {
  }
}
