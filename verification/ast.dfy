/** The parsed C declarations the generator consumes, abstracted from the
    clang cursors and types it walks, and the per-header declaration index.

    A type is a tree of clang type kinds. Canonical-type resolution only
    ever looks through typedefs here, so a typedef carries its underlying
    type and the canonical declaration of a type is found by following them. */
module Ast {
  import opened Wrappers
  import opened Strings

  /** Clang's integer and character type kinds. The first twelve are the
      kinds the documentation namer lists; the rest are kinds it does not. */
  datatype IntKind =
    | CharU | UChar | UShort | UInt | ULong | ULongLong
    | CharS | SChar | Short | Int | Long | LongLong
    | Int128 | UInt128 | WChar

  datatype Type =
    | Pointer(pointee: Type, isConst: bool)
    | ConstArray(element: Type, count: nat)
    | IncompleteArray(element: Type)
    | FuncProto(params: seq<Type>, result: Type)
    | Bool(isConst: bool)
    | Void(isConst: bool)
    | Integer(kind: IntKind, isConst: bool)
    | Typedef(name: string, underlying: Type, isConst: bool)
    | Record(decl: string, isConst: bool)
    | Other(spelling: string, isConst: bool)

  /** Clang's `is_const_qualified`: the type's own qualifier. */
  function IsConst(t: Type): bool {
    match t
    case ConstArray(_, _) => false
    case IncompleteArray(_) => false
    case FuncProto(_, _) => false
    case _ => t.isConst
  }

  /** The four character kinds (`SCHAR`, `CHAR_S`, `UCHAR`, `CHAR_U`). */
  predicate IsCharKind(k: IntKind) {
    k == SChar || k == CharS || k == UChar || k == CharU
  }

  /** The twelve integer kinds that document as `int`. */
  predicate IsListedIntKind(k: IntKind) {
    !(k == Int128 || k == UInt128 || k == WChar)
  }

  function IntKindName(k: IntKind): string {
    match k
    case CharU => "char"
    case UChar => "unsigned char"
    case UShort => "unsigned short"
    case UInt => "unsigned int"
    case ULong => "unsigned long"
    case ULongLong => "unsigned long long"
    case CharS => "char"
    case SChar => "signed char"
    case Short => "short"
    case Int => "int"
    case Long => "long"
    case LongLong => "long long"
    case Int128 => "__int128"
    case UInt128 => "unsigned __int128"
    case WChar => "wchar_t"
  }

  function ConstPrefix(c: bool): string {
    if c then "const " else ""
  }

  /** The C spelling clang gives a type (`_Bool` for the boolean kind).
      Like clang's type printer, it is the part written before the declared
      name followed by the part written after it, with an empty name:
      `char **`, `char *const *`, `void (*)(void *)`, `int (*)[4]`,
      `char *[4]` and `int (void)`. */
  function Spelling(t: Type): string
    decreases t, 1
  {
    SpellBefore(t, true) + SpellAfter(t, true)
  }

  /** The spelled parameter list of a prototype: `void` when it is empty. */
  function ParamsText(ps: seq<Type>): string
    decreases ps, 3
  {
    if |ps| == 0 then "void" else SpelledList(ps)
  }

  /** The spellings of `ps` joined with `, `. */
  function SpelledList(ps: seq<Type>): string
    decreases ps, 2
  {
    if |ps| == 0 then ""
    else if |ps| == 1 then Spelling(ps[0])
    else Spelling(ps[0]) + ", " + SpelledList(ps[1..])
  }

  function LeafName(t: Type): string
    requires !t.Pointer? && !t.ConstArray? && !t.IncompleteArray? && !t.FuncProto?
  {
    match t
    case Bool(c) => ConstPrefix(c) + "_Bool"
    case Void(c) => ConstPrefix(c) + "void"
    case Integer(k, c) => ConstPrefix(c) + IntKindName(k)
    case Typedef(n, _, c) => ConstPrefix(c) + n
    case Record(d, c) => ConstPrefix(c) + "struct " + d
    case Other(s, c) => ConstPrefix(c) + s
  }

  /** The part of a declarator written before the name; `empty` says the
      name (or the inner declarator standing for it) is empty. */
  function SpellBefore(t: Type, empty: bool): string
    decreases t, 0
  {
    match t
    case Pointer(p, c) =>
      SpellBefore(p, false) + (if p.ConstArray? || p.IncompleteArray? then "(" else "")
        + "*" + (if c then "const" + (if empty then "" else " ") else "")
    case ConstArray(e, _) => SpellBefore(e, false)
    case IncompleteArray(e) => SpellBefore(e, false)
    case FuncProto(_, res) => SpellBefore(res, false) + (if empty then "" else "(")
    case _ => LeafName(t) + (if empty then "" else " ")
  }

  /** The part of a declarator written after the name. */
  function SpellAfter(t: Type, empty: bool): string
    decreases t, 0
  {
    match t
    case Pointer(p, _) => (if p.ConstArray? || p.IncompleteArray? then ")" else "") + SpellAfter(p, false)
    case ConstArray(e, n) => "[" + NatToString(n) + "]" + SpellAfter(e, false)
    case IncompleteArray(e) => "[]" + SpellAfter(e, false)
    case FuncProto(ps, res) => (if empty then "" else ")") + "(" + ParamsText(ps) + ")" + SpellAfter(res, false)
    case _ => ""
  }

  /** A chain of pointers ending in a type that is neither an array nor a
      prototype: everything of its spelling comes before the name. */
  predicate PlainChain(t: Type) {
    match t
    case Pointer(p, _) => PlainChain(p)
    case ConstArray(_, _) => false
    case IncompleteArray(_) => false
    case FuncProto(_, _) => false
    case _ => true
  }

  /** What separates a plain chain's spelling from a declarator written
      after it: nothing after an unqualified `*`, a space otherwise. */
  function Gap(t: Type): string {
    if t.Pointer? && !t.isConst then "" else " "
  }

  lemma {:induction false} PlainChainAfter(t: Type, empty: bool)
    requires PlainChain(t)
    ensures SpellAfter(t, empty) == ""
    decreases t
  {
    if t.Pointer? {
      PlainChainAfter(t.pointee, false);
    }
  }

  /** Before a non-empty declarator a plain chain is its spelling and the
      gap. */
  lemma PlainBefore(t: Type)
    requires PlainChain(t)
    ensures SpellBefore(t, false) == Spelling(t) + Gap(t)
  {
    PlainChainAfter(t, true);
    if t.Pointer? {
      var inner := SpellBefore(t.pointee, false) + "*";
      if t.isConst {
        assert SpellBefore(t, false) == inner + ("const" + " ");
      }
    }
  }

  /** A pointer to a plain chain is spelled as the pointee, the gap, then
      `*` and the pointer's own `const`. */
  lemma PointerSpelling(p: Type, c: bool)
    requires PlainChain(p)
    ensures Spelling(Pointer(p, c)) == Spelling(p) + Gap(p) + "*" + (if c then "const" else "")
  {
    PointerParts(p, c);
    PlainChainAfter(p, false);
    PlainBefore(p);
  }

  /** A pointer to anything but an array, with an empty name. */
  lemma PointerParts(p: Type, c: bool)
    requires !p.ConstArray? && !p.IncompleteArray?
    ensures Spelling(Pointer(p, c)) == SpellBefore(p, false) + "*" + (if c then "const" else "") + SpellAfter(p, false)
  {
    assert SpellBefore(Pointer(p, c), true) == SpellBefore(p, false) + "" + "*" + (if c then "const" else "");
    assert SpellAfter(Pointer(p, c), true) == "" + SpellAfter(p, false);
  }

  lemma FunctionPointerParts(ps: seq<Type>, res: Type)
    ensures Spelling(Pointer(FuncProto(ps, res), false)) ==
      SpellBefore(FuncProto(ps, res), false) + "" + "*" + "" + ("" + SpellAfter(FuncProto(ps, res), false))
  {
    var f := FuncProto(ps, res);
    assert SpellBefore(Pointer(f, false), true) == SpellBefore(f, false) + "" + "*" + "";
    assert SpellAfter(Pointer(f, false), true) == "" + SpellAfter(f, false);
  }

  lemma ProtoBefore(ps: seq<Type>, res: Type)
    requires PlainChain(res)
    ensures SpellBefore(FuncProto(ps, res), false) == Spelling(res) + Gap(res) + "("
  {
    PlainBefore(res);
  }

  lemma ProtoAfter(ps: seq<Type>, res: Type)
    requires PlainChain(res)
    ensures SpellAfter(FuncProto(ps, res), false) == ")" + ("(" + ParamsText(ps) + ")")
  {
    PlainChainAfter(res, false);
  }

  /** The text of a star grouped in parentheses between `b` and `a`. */
  lemma GroupedText(b: string, a: string)
    ensures (b + "(") + "" + "*" + "" + ("" + (")" + a)) == b + "(*)" + a
    ensures b + "(" + "*" + "" + (")" + a) == b + "(*)" + a
  {
    assert b + "(*)" + a == b + "(" + "*" + ")" + a;
  }

  /** A pointer to a prototype groups the star in parentheses before the
      parameter list. */
  lemma FunctionPointerSpelling(ps: seq<Type>, res: Type)
    requires PlainChain(res)
    ensures Spelling(Pointer(FuncProto(ps, res), false)) == Spelling(res) + Gap(res) + "(*)" + "(" + ParamsText(ps) + ")"
  {
    FunctionPointerParts(ps, res);
    ProtoBefore(ps, res);
    ProtoAfter(ps, res);
    GroupedText(Spelling(res) + Gap(res), "(" + ParamsText(ps) + ")");
  }

  /** A pointer to an array groups the star in parentheses before the
      bound. */
  lemma ArrayPointerSpelling(e: Type, n: nat)
    requires PlainChain(e)
    ensures Spelling(Pointer(ConstArray(e, n), false)) == Spelling(e) + Gap(e) + "(*)" + "[" + NatToString(n) + "]"
  {
    var k := NatToString(n);
    ArrayAfter(e, n);
    PlainBefore(e);
    ArrayPointerParts(e, n);
    GroupedText(Spelling(e) + Gap(e), "[" + k + "]");
  }

  lemma ArrayPointerParts(e: Type, n: nat)
    ensures Spelling(Pointer(ConstArray(e, n), false)) == SpellBefore(e, false) + "(" + "*" + "" + (")" + SpellAfter(ConstArray(e, n), false))
  {
    var arr := ConstArray(e, n);
    assert SpellBefore(Pointer(arr, false), true) == SpellBefore(e, false) + "(" + "*" + "";
    assert SpellAfter(Pointer(arr, false), true) == ")" + SpellAfter(arr, false);
  }

  lemma ArrayAfter(e: Type, n: nat)
    requires PlainChain(e)
    ensures SpellAfter(ConstArray(e, n), false) == "[" + NatToString(n) + "]"
  {
    PlainChainAfter(e, false);
  }

  /** An array of a plain chain writes its bound straight after the
      element's spelling and gap. */
  lemma ArraySpelling(e: Type, n: nat)
    requires PlainChain(e)
    ensures Spelling(ConstArray(e, n)) == Spelling(e) + Gap(e) + ("[" + NatToString(n) + "]")
  {
    ArrayAfter(e, n);
    PlainBefore(e);
    assert Spelling(ConstArray(e, n)) == SpellBefore(e, false) + SpellAfter(ConstArray(e, n), false);
  }

  /** A bare prototype is its result, the gap and the parameter list. */
  lemma PrototypeSpelling(ps: seq<Type>, res: Type)
    requires PlainChain(res)
    ensures Spelling(FuncProto(ps, res)) == Spelling(res) + Gap(res) + ("(" + ParamsText(ps) + ")")
  {
    PrototypeParts(ps, res);
    PlainChainAfter(res, false);
    PlainBefore(res);
  }

  lemma PrototypeParts(ps: seq<Type>, res: Type)
    ensures Spelling(FuncProto(ps, res)) == SpellBefore(res, false) + ("(" + ParamsText(ps) + ")" + SpellAfter(res, false))
  {
    var f := FuncProto(ps, res);
    assert SpellBefore(f, true) == SpellBefore(res, false);
    assert SpellAfter(f, true) == "(" + ParamsText(ps) + ")" + SpellAfter(res, false);
  }

  lemma SpellingConstCharPointer()
    ensures Spelling(Pointer(Integer(CharS, true), false)) == "const char *"
  {
    assert Spelling(Integer(CharS, true)) == "const char";
    PointerSpelling(Integer(CharS, true), false);
  }

  /** A pointer to a pointer is spelled with the stars together. */
  lemma SpellingDoublePointer()
    ensures Spelling(Pointer(Pointer(Integer(CharS, true), false), false)) == "const char **"
  {
    SpellingConstCharPointer();
    PointerSpelling(Pointer(Integer(CharS, true), false), false);
  }

  lemma SpellingCharConstPointer()
    ensures Spelling(Pointer(Integer(CharS, false), true)) == "char *const"
  {
    assert Spelling(Integer(CharS, false)) == "char";
    PointerSpelling(Integer(CharS, false), true);
  }

  /** A const-qualified pointer writes `const` after its star. */
  lemma SpellingConstPointer()
    ensures Spelling(Pointer(Pointer(Integer(CharS, false), true), false)) == "char *const *"
  {
    SpellingCharConstPointer();
    PointerSpelling(Pointer(Integer(CharS, false), true), false);
  }

  lemma SpellingVoidPointer()
    ensures Spelling(Pointer(Void(false), false)) == "void *"
  {
    PointerSpelling(Void(false), false);
  }

  lemma ParamsVoidPointer()
    ensures ParamsText([Pointer(Void(false), false)]) == "void *"
  {
    SpellingVoidPointer();
  }

  lemma LeafGap(t: Type)
    requires !t.Pointer?
    ensures Gap(t) == " "
  {
  }

  /** A pointer to a function taking `void *`. */
  lemma SpellingFunctionPointer()
    ensures Spelling(Pointer(FuncProto([Pointer(Void(false), false)], Void(false)), false)) == "void (*)(void *)"
  {
    var vp := Pointer(Void(false), false);
    FunctionPointerSpelling([vp], Void(false));
    VoidGap();
    ParamsVoidPointer();
    FunctionPointerText();
  }

  lemma VoidGap()
    ensures Spelling(Void(false)) + Gap(Void(false)) == "void "
  {
    assert Spelling(Void(false)) == "void";
  }

  lemma FunctionPointerText()
    ensures "void " + "(*)" + "(" + "void *" + ")" == "void (*)(void *)"
  {
  }

  /** A pointer to an array of four `int`. */
  lemma SpellingArrayPointer()
    ensures Spelling(Pointer(ConstArray(Integer(Int, false), 4), false)) == "int (*)[4]"
  {
    assert NatToString(4) == "4";
    assert Spelling(Integer(Int, false)) == "int";
    LeafGap(Integer(Int, false));
    ArrayPointerSpelling(Integer(Int, false), 4);
  }

  lemma SpellingCharPointer()
    ensures Spelling(Pointer(Integer(CharS, false), false)) == "char *"
  {
    PointerSpelling(Integer(CharS, false), false);
  }

  /** An array of four `char *` keeps the star with the element. */
  lemma SpellingPointerArray()
    ensures Spelling(ConstArray(Pointer(Integer(CharS, false), false), 4)) == "char *[4]"
  {
    assert NatToString(4) == "4";
    SpellingCharPointer();
    ArraySpelling(Pointer(Integer(CharS, false), false), 4);
  }

  /** A prototype without parameters lists `void`. */
  lemma SpellingEmptyPrototype()
    ensures Spelling(FuncProto([], Integer(Int, false))) == "int (void)"
  {
    LeafGap(Integer(Int, false));
    PrototypeSpelling([], Integer(Int, false));
  }

  /** The record a type names once typedefs are looked through
      (`get_canonical().get_declaration()` when that is a struct). */
  function CanonicalRecord(t: Type): Option<string> {
    match t
    case Typedef(_, u, _) => CanonicalRecord(u)
    case Record(d, _) => Some(d)
    case _ => None
  }

  /** The spelling of a type's canonical declaration; clang gives the empty
      spelling when the canonical type has no declaration. */
  function CanonicalDeclSpelling(t: Type): string {
    CanonicalRecord(t).GetOr("")
  }

  /** The type left once every pointer level is peeled off. */
  function StripPointers(t: Type): (b: Type)
    ensures !b.Pointer?
  {
    if t.Pointer? then StripPointers(t.pointee) else t
  }

  /** The number of pointer levels above `StripPointers(t)`. */
  function PointerDepth(t: Type): nat {
    if t.Pointer? then 1 + PointerDepth(t.pointee) else 0
  }

  /** A declaration with a type: a struct field, a function parameter, or a
      function (whose type is its result type). `attrs` are the attribute
      macros it carries (`RZ_API`, `RZ_NONNULL`, `RZ_DEPRECATE`, ...);
      `annotation` is the first source token between the end of its type
      reference and its own name, `None` when there is no such token or no
      type reference to start from. */
  datatype Decl = Decl(spelling: string, ty: Type, attrs: set<string>, annotation: Option<string>)

  /** A function: its own declaration (result type and attributes) and its
      parameters in declaration order. */
  datatype Func = Func(decl: Decl, params: seq<Decl>)

  /** A child cursor of a struct declaration. */
  datatype Child =
    | Field(decl: Decl)
    | NestedStruct
    | NestedUnion
    | Unexpected(kind: string)

  datatype StructDecl = StructDecl(spelling: string, children: seq<Child>)

  /** A typedef; `target` is the declaration of its underlying type when
      that declaration is a struct, `None` otherwise. */
  datatype TypedefDecl = TypedefDecl(spelling: string, target: Option<StructDecl>)

  /** The declaration index of one header: structs, typedefs and functions
      by name (functions also in the header's order) and the names already
      bound by some builder. */
  datatype Header = Header(
    name: string,
    structs: map<string, StructDecl>,
    typedefs: map<string, TypedefDecl>,
    funcs: map<string, Func>,
    funcOrder: seq<string>,
    used: set<string>)
  {
    /** `funcOrder` lists each indexed function once, and each function is
        indexed under its own spelling. */
    ghost predicate Valid() {
      && (forall i, j :: 0 <= i < j < |funcOrder| ==> funcOrder[i] != funcOrder[j])
      && (forall n :: n in funcOrder <==> n in funcs)
      && (forall n :: n in funcs ==> funcs[n].decl.spelling == n)
    }

    /** `header.used.add(n)` */
    function Use(n: string): (h: Header)
      ensures h.used == used + {n}
      ensures h.(used := used) == this
    {
      this.(used := used + {n})
    }
  }
}
