/** The function emitter (src/module_func.py): from one C function and the
    role it plays, build the call-through wrapper text, the non-null
    `%contract` block and the argument lists, and write them out. */
module FuncEmitter {
  import opened Wrappers
  import opened Strings
  import opened Writer
  import opened Ast
  import opened Entities
  import opened TypeNamer

  function Elems(s: seq<string>): set<string> {
    set x | x in s
  }

  predicate HasLine(lines: seq<Line>, text: string) {
    exists i :: 0 <= i < |lines| && lines[i].text == text
  }

  /* ---------------------------------------------------------------------
     Arguments
     --------------------------------------------------------------------- */

  /** Destructors and instance methods receive the object as their first C
      argument, which the generated wrapper supplies itself. */
  predicate HasReceiver(kind: FuncKind) {
    kind == Destructor || kind == This
  }

  /** Lines 63-65: the C arguments that appear in the argument lists. */
  function CallArgs(kind: FuncKind, params: seq<Decl>): seq<Decl> {
    if HasReceiver(kind) && |params| > 0 then params[1..]
    else if HasReceiver(kind) then []
    else params
  }

  /** Lines 79-89: the identifier passed through for an argument; `self`
      is renamed so that it does not clash with SWIG's own `self`. */
  function InnerName(a: Decl): string {
    if a.spelling == "self" then "_self" else a.spelling
  }

  function InnerNames(args: seq<Decl>): (r: seq<string>)
    ensures |r| == |args|
    ensures forall k :: 0 <= k < |args| ==> r[k] == InnerName(args[k])
  {
    seq(|args|, k requires 0 <= k < |args| => InnerName(args[k]))
  }

  /** The outer name an argument is declared under: `_self` for `self`,
      its own spelling otherwise. */
  function OuterName(a: Decl): Option<string> {
    if a.spelling == "self" then Some("_self") else None
  }

  /** The specialization use an argument's declaration records. */
  function ArgUses(r: Registry, a: Decl, genericArgs: set<string>): set<(string, string)> {
    Uses(r, a, a.ty, a.spelling in genericArgs)
  }

  /** The uses the arguments' declarations record, together. */
  function ArgsUses(r: Registry, args: seq<Decl>, genericArgs: set<string>): set<(string, string)>
    decreases |args|
  {
    if |args| == 0 then {} else ArgUses(r, args[0], genericArgs) + ArgsUses(r, args[1..], genericArgs)
  }

  /** A use is recorded by the arguments exactly when one of them records it. */
  lemma {:induction false} ArgsUsesExact(r: Registry, args: seq<Decl>, genericArgs: set<string>)
    ensures forall p :: p in ArgsUses(r, args, genericArgs) <==>
      exists k :: 0 <= k < |args| && p in ArgUses(r, args[k], genericArgs)
    decreases |args|
  {
    if |args| > 0 {
      ArgsUsesExact(r, args[1..], genericArgs);
      forall p | p in ArgsUses(r, args[1..], genericArgs)
        ensures exists k :: 0 <= k < |args| && p in ArgUses(r, args[k], genericArgs)
      {
        var j :| 0 <= j < |args| - 1 && p in ArgUses(r, args[1..][j], genericArgs);
        assert args[1..][j] == args[j + 1];
      }
      forall p, k | 0 <= k < |args| && p in ArgUses(r, args[k], genericArgs)
        ensures p in ArgsUses(r, args, genericArgs)
      {
        if k > 0 {
          assert args[k] == args[1..][k - 1];
        }
      }
    }
  }

  lemma {:induction false} ArgsUsesFrame(r0: Registry, r1: Registry, args: seq<Decl>, genericArgs: set<string>)
    requires SameShape(r0, r1)
    ensures ArgsUses(r0, args, genericArgs) == ArgsUses(r1, args, genericArgs)
    decreases |args|
  {
    if |args| > 0 {
      UsesFrame(r0, r1, args[0], args[0].ty, args[0].spelling in genericArgs);
      ArgsUsesFrame(r0, r1, args[1..], genericArgs);
    }
  }

  /** Lines 79-97: one argument of the visible signature: its declarator
      (generic-erased when the argument is listed in `genericArgs`), then
      ` = v` when a default `v` is given for it. An argument spelled `self`
      never receives a default. */
  function OuterArg(r: Registry, a: Decl, genericArgs: set<string>, defaults: map<string, string>): (res: Result<(string, Registry)>)
    ensures var decl := StringifyDecl(r, a, a.ty, OuterName(a), a.spelling in genericArgs);
      && (res.Ok? <==> decl.Ok?)
      && (res.Ok? ==> Records(r, res.value.1, ArgUses(r, a, genericArgs)))
      && (res.Ok? && (a.spelling == "self" || a.spelling !in defaults) ==> res.value.0 == decl.value.0)
      && (res.Ok? && a.spelling != "self" && a.spelling in defaults ==>
            res.value.0 == decl.value.0 + " = " + defaults[a.spelling])
  {
    if a.spelling == "self" then
      StringifyDecl(r, a, a.ty, Some("_self"), "self" in genericArgs)
    else
      var decl :- StringifyDecl(r, a, a.ty, None, a.spelling in genericArgs);
      var suffix := if a.spelling in defaults then " = " + defaults[a.spelling] else "";
      Ok((decl.0 + suffix, decl.1))
  }

  lemma OuterArgFrame(r0: Registry, r1: Registry, a: Decl, genericArgs: set<string>, defaults: map<string, string>)
    requires SameShape(r0, r1)
    ensures OuterArg(r0, a, genericArgs, defaults).Ok? == OuterArg(r1, a, genericArgs, defaults).Ok?
    ensures OuterArg(r0, a, genericArgs, defaults).Ok? ==>
      OuterArg(r0, a, genericArgs, defaults).value.0 == OuterArg(r1, a, genericArgs, defaults).value.0
  {
    StringifyDeclFrame(r0, r1, a, a.ty, OuterName(a), a.spelling in genericArgs);
  }

  /** The text an argument contributes, `None` when it cannot be stated. */
  function ArgText(r: Registry, a: Decl, genericArgs: set<string>, defaults: map<string, string>): Option<string> {
    var res := OuterArg(r, a, genericArgs, defaults);
    if res.Ok? then Some(res.value.0) else None
  }

  lemma ArgTextFrame(r0: Registry, r1: Registry, genericArgs: set<string>, defaults: map<string, string>)
    requires SameShape(r0, r1)
    ensures forall a :: ArgText(r0, a, genericArgs, defaults) == ArgText(r1, a, genericArgs, defaults)
  {
    forall a {
      OuterArgFrame(r0, r1, a, genericArgs, defaults);
    }
  }

  /** The outer argument list does not depend on which specializations
      have been discovered. */
  lemma OuterArgsFrame(r0: Registry, r1: Registry, args: seq<Decl>, genericArgs: set<string>, defaults: map<string, string>)
    requires SameShape(r0, r1)
    ensures OuterArgs(r0, args, genericArgs, defaults).Ok? == OuterArgs(r1, args, genericArgs, defaults).Ok?
    ensures OuterArgs(r0, args, genericArgs, defaults).Ok? ==>
      OuterArgs(r0, args, genericArgs, defaults).value.0 == OuterArgs(r1, args, genericArgs, defaults).value.0
  {
    ArgTextFrame(r0, r1, genericArgs, defaults);
    var (o0, o1) := (OuterArgs(r0, args, genericArgs, defaults), OuterArgs(r1, args, genericArgs, defaults));
    if o0.Ok? {
      forall k | 0 <= k < |args|
        ensures o0.value.0[k] == o1.value.0[k]
      {
        assert ArgText(r0, args[k], genericArgs, defaults) == ArgText(r1, args[k], genericArgs, defaults);
      }
    }
  }

  /** Lines 77-97: the outer argument list, built left to right while the
      registry collects the specializations the arguments use. It succeeds
      exactly when every argument can be stated, and each entry is what
      that argument alone yields against the starting registry. */
  function OuterArgs(r: Registry, args: seq<Decl>, genericArgs: set<string>, defaults: map<string, string>): (res: Result<(seq<string>, Registry)>)
    ensures res.Ok? <==> forall k :: 0 <= k < |args| ==> ArgText(r, args[k], genericArgs, defaults).Some?
    ensures res.Ok? ==> |res.value.0| == |args| && Records(r, res.value.1, ArgsUses(r, args, genericArgs))
    ensures res.Ok? ==> forall k :: 0 <= k < |args| ==>
      ArgText(r, args[k], genericArgs, defaults) == Some(res.value.0[k])
    decreases |args|
  {
    if |args| == 0 then Ok(([], r))
    else
      match OuterArg(r, args[0], genericArgs, defaults)
      case Err(e) => Err(e)
      case Ok(first) =>
        GrowsSameShape(r, first.1);
        ArgTextFrame(r, first.1, genericArgs, defaults);
        match OuterArgs(first.1, args[1..], genericArgs, defaults)
        case Err(e) =>
          var j :| 0 <= j < |args| - 1 && !ArgText(first.1, args[1..][j], genericArgs, defaults).Some?;
          assert args[1..][j] == args[j + 1];
          Err(e)
        case Ok(rest) =>
          ArgsUsesFrame(r, first.1, args[1..], genericArgs);
          RecordsTrans(r, first.1, rest.1, ArgUses(r, args[0], genericArgs), ArgsUses(r, args[1..], genericArgs));
          ConsLift(a => ArgText(r, a, genericArgs, defaults), a => ArgText(first.1, a, genericArgs, defaults),
                   args, first.0, rest.0);
          Ok(([first.0] + rest.0, rest.1))
  }

  /** Per-element facts about the head and the tail of a list, where the
      tail's facts were established under an equivalent evaluation, hold
      for the whole list. */
  lemma {:induction false} ConsLift<A, B>(f: A -> Option<B>, g: A -> Option<B>, xs: seq<A>, head: B, tail: seq<B>)
    requires |xs| > 0 && f(xs[0]) == Some(head) && |tail| == |xs| - 1
    requires forall x :: f(x) == g(x)
    requires forall j :: 0 <= j < |tail| ==> g(xs[1..][j]) == Some(tail[j])
    ensures forall k :: 0 <= k < |xs| ==> f(xs[k]) == Some(([head] + tail)[k])
  {
    forall k | 0 <= k < |xs|
      ensures f(xs[k]) == Some(([head] + tail)[k])
    {
      if k > 0 {
        assert xs[1..][k - 1] == xs[k];
      }
    }
  }

  /* ---------------------------------------------------------------------
     Wrapper text
     --------------------------------------------------------------------- */

  /** `$self` heads the call-through arguments of a receiver kind. */
  function ReceiverArg(kind: FuncKind): seq<string> {
    if HasReceiver(kind) then ["$self"] else []
  }

  /** Line 159: the runtime deprecation notice. */
  function DeprecationCall(name: string, cName: string): string {
    "rizin_try_warn_deprecate(\"" + name + "\", \"" + cName + "\");"
  }

  /** Lines 140-155: the opening line for each kind; `decl` is the result
      declarator that heads instance and static wrappers. */
  function Opening(kind: FuncKind, name: string, decl: string, outerStr: string): string {
    match kind
    case Constructor => name + "(" + outerStr + ") {"
    case Destructor => "~" + name + "(" + outerStr + ") {"
    case This => decl + "(" + outerStr + ") {"
    case Static => "static " + decl + "(" + outerStr + ") {"
  }

  /** Lines 147-154: the result declarator, for the kinds that have one. */
  function HeaderDecl(r: Registry, f: Func, kind: FuncKind, name: string, genericRet: bool): (res: Result<(string, Registry)>)
    ensures res.Ok? ==> Records(r, res.value.1, HeaderUses(r, f, kind, genericRet))
  {
    if kind == This || kind == Static then StringifyDecl(r, f.decl, f.decl.ty, Some(name), genericRet)
    else Ok(("", r))
  }

  /** The specialization use the result declarator records. */
  function HeaderUses(r: Registry, f: Func, kind: FuncKind, genericRet: bool): set<(string, string)> {
    if kind == This || kind == Static then Uses(r, f.decl, f.decl.ty, genericRet) else {}
  }

  /** The uses binding a function records: its arguments', then its result
      declarator's. */
  function BuildUses(r: Registry, f: Func, kind: FuncKind, genericRet: bool, genericArgs: set<string>): set<(string, string)> {
    ArgsUses(r, CallArgs(kind, f.params), genericArgs) + HeaderUses(r, f, kind, genericRet)
  }

  /** Line 163: the erased result type a generic return is cast to: the
      macro's type name with the result's pointer marks, or the plain
      unnamed declarator when the result is not generic. */
  function CastType(r: Registry, f: Func): (c: string)
    ensures var (t, gn) := (f.decl.ty, GetGenericName(r, f.decl.ty));
      && ("" !in r.mappings && gn == Some("void") ==> c == "TYPE" + " " + PointerMarks(t))
      && ("" !in r.mappings && IsGenericName(gn) ==> c == gn.value + "_##TYPE" + " " + PointerMarks(t))
      && (!IsGenericName(gn) && gn != Some("void") ==> c == Declarator(None, StripPointers(t), Stars(PointerDepth(t))))
  {
    var t := f.decl.ty;
    var c := StringifyDecl(r, f.decl, t, Some(""), true).value.0;
    assert Stars(PointerDepth(t)) + "" == Stars(PointerDepth(t));
    if "" in r.mappings then c
    else
      StringifyDeclGeneric(r, f.decl, t, Some(""), true);
      assert "TYPE" + " " + PointerMarks(t) + "" == "TYPE" + " " + PointerMarks(t);
      if IsGenericName(GetGenericName(r, t)) then
        var g := GetGenericName(r, t).value;
        assert g + "_##TYPE" + " " + PointerMarks(t) + "" == g + "_##TYPE" + " " + PointerMarks(t);
        c
      else
        c
  }

  /** Lines 161-167: the call-through statement. */
  function ReturnLine(f: Func, genericRet: bool, cast: string, callStr: string): string {
    if genericRet then "return (" + cast + ")" + f.decl.spelling + "(" + callStr + ");"
    else "return " + f.decl.spelling + "(" + callStr + ");"
  }

  /** Lines 140-168: header, optional deprecation notice, call, close. */
  function BodyLines(head: string, deprecation: Option<string>, ret: string): seq<Line> {
    [Line(0, head)] + (if deprecation.Some? then [Line(1, deprecation.value)] else []) + [Line(1, ret), Line(0, "}")]
  }

  /** Lines 140-168: the wrapper text of a bound function whose result
      declarator reads `decl`, whose erased result type reads `cast`, and
      whose outer and call-through arguments read `outerStr` and `callStr`. */
  function Wrapper(f: Func, kind: FuncKind, name: string, genericRet: bool, decl: string, cast: string, outerStr: string, callStr: string): (body: seq<Line>)
    ensures |body| == 3 + (if "RZ_DEPRECATE" in f.decl.attrs then 1 else 0)
    ensures body[0] == Line(0, Opening(kind, name, decl, outerStr))
    ensures HasLine(body, DeprecationCall(name, f.decl.spelling)) <==> "RZ_DEPRECATE" in f.decl.attrs
    ensures "RZ_DEPRECATE" in f.decl.attrs ==> body[1] == Line(1, DeprecationCall(name, f.decl.spelling))
    ensures body[|body| - 2] == Line(1, ReturnLine(f, genericRet, cast, callStr))
    ensures body[|body| - 1] == Line(0, "}")
  {
    var notice := DeprecationCall(name, f.decl.spelling);
    var deprecation := if "RZ_DEPRECATE" in f.decl.attrs then Some(notice) else None;
    var ret := ReturnLine(f, genericRet, cast, callStr);
    var head := Opening(kind, name, decl, outerStr);
    StartsWithConcat("rizin_", "try_warn_deprecate(\"" + name + "\", \"" + f.decl.spelling + "\");");
    EndsWithConcat("rizin_try_warn_deprecate(\"" + name + "\", \"" + f.decl.spelling + "\")", ";");
    ReturnLineShape(f, genericRet, cast, callStr);
    OpeningEnds(kind, name, decl, outerStr);
    BodyDeprecation(head, deprecation, ret, notice);
    BodyLines(head, deprecation, ret)
  }

  lemma OpeningEnds(kind: FuncKind, name: string, decl: string, outerStr: string)
    ensures EndsWith(Opening(kind, name, decl, outerStr), "{")
  {
    var o := Opening(kind, name, decl, outerStr);
    assert o[|o| - 1] == '{';
  }

  /** The deprecation notice is in a wrapper exactly when one was asked for:
      no header, call or closing line can be mistaken for it. */
  lemma BodyDeprecation(head: string, deprecation: Option<string>, ret: string, notice: string)
    requires EndsWith(head, "{") && StartsWith(ret, "return ")
    requires StartsWith(notice, "rizin_") && EndsWith(notice, ";")
    requires deprecation.Some? ==> deprecation.value == notice
    ensures HasLine(BodyLines(head, deprecation, ret), notice) <==> deprecation.Some?
  {
    var body := BodyLines(head, deprecation, ret);
    if deprecation.Some? {
      assert body[1].text == notice;
    } else {
      assert body == [Line(0, head), Line(1, ret), Line(0, "}")];
      assert head[|head| - 1] == '{' && notice[|notice| - 1] == ';';
      assert ret[1] == 'e' && notice[1] == 'i';
      assert head != notice && ret != notice && "}" != notice;
      assert !HasLine(body, notice);
    }
  }

  /* ---------------------------------------------------------------------
     Contracts
     --------------------------------------------------------------------- */

  predicate NonNull(a: Decl) {
    "RZ_NONNULL" in a.attrs
  }

  /** Lines 174-178: the spellings of the `RZ_NONNULL` arguments, in order. */
  function NonNullNames(args: seq<Decl>): seq<string>
    decreases |args|
  {
    if |args| == 0 then []
    else (if NonNull(args[0]) then [args[0].spelling] else []) + NonNullNames(args[1..])
  }

  /** `ix` lists, strictly increasing, the positions in `args` of exactly
      the non-null arguments, and `names` are their spellings. */
  ghost predicate IndexesNonNull(args: seq<Decl>, names: seq<string>, ix: seq<nat>) {
    && |ix| == |names|
    && ListsNonNull(args, names, ix)
    && Increasing(ix)
    && (forall i :: 0 <= i < |args| && NonNull(args[i]) ==> i in ix)
  }

  ghost predicate ListsNonNull(args: seq<Decl>, names: seq<string>, ix: seq<nat>)
    requires |ix| == |names|
  {
    forall k :: 0 <= k < |ix| ==> ix[k] < |args| && NonNull(args[ix[k]]) && names[k] == args[ix[k]].spelling
  }

  ghost predicate Increasing(ix: seq<nat>) {
    forall k, l :: 0 <= k < l < |ix| ==> ix[k] < ix[l]
  }

  /** The positions `rest` in a tail, moved to the whole list. */
  function Prepend(here: bool, rest: seq<nat>): (ix: seq<nat>)
    ensures |ix| == |rest| + (if here then 1 else 0)
    ensures here ==> ix[0] == 0
    ensures forall k :: (if here then 1 else 0) <= k < |ix| ==> ix[k] == rest[k - (if here then 1 else 0)] + 1
  {
    (if here then [0] else []) + seq(|rest|, k requires 0 <= k < |rest| => rest[k] + 1)
  }

  lemma PrependLists(args: seq<Decl>, tailNames: seq<string>, rest: seq<nat>)
    requires |args| > 0 && |rest| == |tailNames| && ListsNonNull(args[1..], tailNames, rest)
    ensures ListsNonNull(args, (if NonNull(args[0]) then [args[0].spelling] else []) + tailNames, Prepend(NonNull(args[0]), rest))
  {
    var off := if NonNull(args[0]) then 1 else 0;
    var ix := Prepend(NonNull(args[0]), rest);
    var names := (if NonNull(args[0]) then [args[0].spelling] else []) + tailNames;
    forall k | 0 <= k < |ix|
      ensures ix[k] < |args| && NonNull(args[ix[k]]) && names[k] == args[ix[k]].spelling
    {
      if k >= off {
        assert names[k] == tailNames[k - off];
        assert args[ix[k]] == args[1..][rest[k - off]];
      }
    }
  }

  lemma PrependIncreasing(here: bool, rest: seq<nat>)
    requires Increasing(rest)
    ensures Increasing(Prepend(here, rest))
  {
    var off := if here then 1 else 0;
    var ix := Prepend(here, rest);
    forall k, l | 0 <= k < l < |ix|
      ensures ix[k] < ix[l]
    {
      if k >= off {
        assert rest[k - off] < rest[l - off];
      }
    }
  }

  lemma PrependComplete(args: seq<Decl>, rest: seq<nat>)
    requires |args| > 0
    requires forall i :: 0 <= i < |args| - 1 && NonNull(args[1..][i]) ==> i in rest
    ensures forall i :: 0 <= i < |args| && NonNull(args[i]) ==> i in Prepend(NonNull(args[0]), rest)
  {
    var off := if NonNull(args[0]) then 1 else 0;
    var ix := Prepend(NonNull(args[0]), rest);
    forall i | 0 <= i < |args| && NonNull(args[i])
      ensures i in ix
    {
      if i == 0 {
        assert ix[0] == 0;
      } else {
        assert args[1..][i - 1] == args[i];
        var k :| 0 <= k < |rest| && rest[k] == i - 1;
        assert ix[k + off] == rest[k] + 1;
      }
    }
  }

  lemma PrependIndex(args: seq<Decl>, tailNames: seq<string>, rest: seq<nat>) returns (ix: seq<nat>)
    requires |args| > 0 && IndexesNonNull(args[1..], tailNames, rest)
    ensures IndexesNonNull(args, (if NonNull(args[0]) then [args[0].spelling] else []) + tailNames, ix)
  {
    ix := Prepend(NonNull(args[0]), rest);
    PrependLists(args, tailNames, rest);
    PrependIncreasing(NonNull(args[0]), rest);
    PrependComplete(args, rest);
  }

  /** The non-null names are exactly the `RZ_NONNULL` arguments, in
      declaration order: `ix` gives, strictly increasing, the position of
      each listed argument, and every such argument is listed. */
  lemma {:induction false} NonNullNamesExact(args: seq<Decl>) returns (ix: seq<nat>)
    ensures |ix| == |NonNullNames(args)|
    ensures forall k :: 0 <= k < |ix| ==>
      ix[k] < |args| && NonNull(args[ix[k]]) && NonNullNames(args)[k] == args[ix[k]].spelling
    ensures forall k, l :: 0 <= k < l < |ix| ==> ix[k] < ix[l]
    ensures forall i :: 0 <= i < |args| && NonNull(args[i]) ==> i in ix
    decreases |args|
  {
    if |args| == 0 {
      ix := [];
    } else {
      var rest := NonNullNamesExact(args[1..]);
      ix := PrependIndex(args, NonNullNames(args[1..]), rest);
    }
  }

  /** Lines 180-185: the `%contract` block; empty when nothing is non-null. */
  function ContractLines(name: string, outerStr: string, nonnull: seq<string>): (c: seq<Line>)
    ensures nonnull == [] <==> c == []
    ensures nonnull != [] ==>
      && |c| == |nonnull| + 3
      && c[0] == Line(0, "%contract " + name + "(" + outerStr + ") {")
      && c[1] == Line(0, "require:")
      && (forall k :: 0 <= k < |nonnull| ==> c[k + 2] == Line(1, nonnull[k] + " != NULL;"))
      && c[|c| - 1] == Line(0, "}")
  {
    if |nonnull| == 0 then []
    else
      At(0, ["%contract " + name + "(" + outerStr + ") {", "require:"])
      + seq(|nonnull|, k requires 0 <= k < |nonnull| => Line(1, nonnull[k] + " != NULL;"))
      + [Line(0, "}")]
  }

  /* ---------------------------------------------------------------------
     The bound function
     --------------------------------------------------------------------- */

  /** Lines 38-185: bind C function `f` in role `kind` under interface
      name `name`. */
  function Build(
    r: Registry, f: Func, kind: FuncKind, name: string, genericRet: bool,
    genericArgs: set<string>, defaults: map<string, string>, typemaps: seq<Typemap>
  ): (res: Result<(BoundFunc, Registry)>)
    ensures res.Ok? ==> Records(r, res.value.1, BuildUses(r, f, kind, genericRet, genericArgs))
    ensures res.Ok? ==>
      var bf := res.value.0;
      && bf.kind == kind && bf.name == name && bf.cName == f.decl.spelling && bf.typemaps == typemaps
    // the argument lists
    ensures res.Ok? ==>
      var bf := res.value.0;
      var args := CallArgs(kind, f.params);
      && |bf.inner| == |args| && |bf.outer| == |args|
      && (forall k :: 0 <= k < |args| ==> bf.inner[k] == InnerName(args[k]))
      && (forall k :: 0 <= k < |args| ==> ArgText(r, args[k], genericArgs, defaults) == Some(bf.outer[k]))
      && genericArgs <= Elems(bf.inner)
      && defaults.Keys <= Elems(bf.inner)
    // the directive sanity checks
    ensures
      var args := CallArgs(kind, f.params);
      var names := Elems(InnerNames(args));
      OuterArgs(r, args, genericArgs, defaults).Ok? && !(genericArgs <= names) ==>
        res == Err(UnknownGenericArgument(genericArgs - names))
    ensures
      var args := CallArgs(kind, f.params);
      var names := Elems(InnerNames(args));
      OuterArgs(r, args, genericArgs, defaults).Ok? && genericArgs <= names && !(defaults.Keys <= names) ==>
        res == Err(UnknownDefaultArgument(defaults.Keys - names))
    ensures
      var args := CallArgs(kind, f.params);
      var names := Elems(InnerNames(args));
      res.Ok? <==>
        && OuterArgs(r, args, genericArgs, defaults).Ok?
        && genericArgs <= names && defaults.Keys <= names
        && HeaderDecl(r, f, kind, name, genericRet).Ok?
    // the wrapper text
    ensures res.Ok? ==>
      var bf := res.value.0;
      && |bf.body| == 3 + (if "RZ_DEPRECATE" in f.decl.attrs then 1 else 0)
      && ("RZ_DEPRECATE" in f.decl.attrs ==> bf.body[1] == Line(1, DeprecationCall(name, f.decl.spelling)))
      && bf.body[0] == Line(0, Opening(kind, name, HeaderDecl(r, f, kind, name, genericRet).value.0, Join(", ", bf.outer)))
      && (HasLine(bf.body, DeprecationCall(name, f.decl.spelling)) <==> "RZ_DEPRECATE" in f.decl.attrs)
      && bf.body[|bf.body| - 2] == Line(1, ReturnLine(f, genericRet, CastType(r, f), Join(", ", ReceiverArg(kind) + bf.inner)))
      && bf.body[|bf.body| - 1] == Line(0, "}")
    // the contract
    ensures res.Ok? ==>
      res.value.0.contract == ContractLines(name, Join(", ", res.value.0.outer), NonNullNames(CallArgs(kind, f.params)))
  {
    var args := CallArgs(kind, f.params);
    var outer :- OuterArgs(r, args, genericArgs, defaults);
    var inner := InnerNames(args);
    var names := Elems(inner);
    if !(genericArgs <= names) then Err(UnknownGenericArgument(genericArgs - names))
    else if !(defaults.Keys <= names) then Err(UnknownDefaultArgument(defaults.Keys - names))
    else
      var outerStr := Join(", ", outer.0);
      var callStr := Join(", ", ReceiverArg(kind) + inner);
      GrowsSameShape(r, outer.1);
      HeaderDeclFrame(r, outer.1, f, kind, name, genericRet);
      var decl :- HeaderDecl(outer.1, f, kind, name, genericRet);
      UsesFrame(r, outer.1, f.decl, f.decl.ty, genericRet);
      RecordsTrans(r, outer.1, decl.1, ArgsUses(r, args, genericArgs), HeaderUses(r, f, kind, genericRet));
      GrowsSameShape(r, decl.1);
      HeaderDeclFrame(r, decl.1, f, kind, name, genericRet);
      CastTypeFrame(r, decl.1, f);
      var body := Wrapper(f, kind, name, genericRet, decl.0, CastType(decl.1, f), outerStr, callStr);
      var contract := ContractLines(name, outerStr, NonNullNames(args));
      Ok((BoundFunc(kind, name, f.decl.spelling, outer.0, inner, body, contract, typemaps), decl.1))
  }

  /** Whether a function can be bound does not depend on which
      specializations have been discovered. */
  lemma BuildFrame(
    r0: Registry, r1: Registry, f: Func, kind: FuncKind, name: string, genericRet: bool,
    genericArgs: set<string>, defaults: map<string, string>, typemaps: seq<Typemap>)
    requires SameShape(r0, r1)
    ensures Build(r0, f, kind, name, genericRet, genericArgs, defaults, typemaps).Ok? ==
            Build(r1, f, kind, name, genericRet, genericArgs, defaults, typemaps).Ok?
  {
    ArgTextFrame(r0, r1, genericArgs, defaults);
    HeaderDeclFrame(r0, r1, f, kind, name, genericRet);
  }

  /** Nor does the function it is bound as: its argument lists, wrapper
      and contract come out the same. */
  lemma BuildFuncFrame(
    r0: Registry, r1: Registry, f: Func, kind: FuncKind, name: string, genericRet: bool,
    genericArgs: set<string>, defaults: map<string, string>, typemaps: seq<Typemap>)
    requires SameShape(r0, r1)
    requires Build(r0, f, kind, name, genericRet, genericArgs, defaults, typemaps).Ok?
    ensures Build(r1, f, kind, name, genericRet, genericArgs, defaults, typemaps).Ok?
    ensures Build(r0, f, kind, name, genericRet, genericArgs, defaults, typemaps).value.0 ==
            Build(r1, f, kind, name, genericRet, genericArgs, defaults, typemaps).value.0
  {
    var args := CallArgs(kind, f.params);
    OuterArgsFrame(r0, r1, args, genericArgs, defaults);
    var (o0, o1) := (OuterArgs(r0, args, genericArgs, defaults).value, OuterArgs(r1, args, genericArgs, defaults).value);
    GrowsSameShape(r0, o0.1);
    GrowsSameShape(r1, o1.1);
    HeaderCastFrame(o0.1, o1.1, f, kind, name, genericRet);
  }

  /** The declaration header and the cast type computed after it are the
      same in two registries of the same shape. */
  lemma HeaderCastFrame(r0: Registry, r1: Registry, f: Func, kind: FuncKind, name: string, genericRet: bool)
    requires SameShape(r0, r1)
    requires HeaderDecl(r0, f, kind, name, genericRet).Ok?
    ensures HeaderDecl(r1, f, kind, name, genericRet).Ok?
    ensures HeaderDecl(r0, f, kind, name, genericRet).value.0 == HeaderDecl(r1, f, kind, name, genericRet).value.0
    ensures CastType(HeaderDecl(r0, f, kind, name, genericRet).value.1, f) ==
            CastType(HeaderDecl(r1, f, kind, name, genericRet).value.1, f)
  {
    HeaderDeclFrame(r0, r1, f, kind, name, genericRet);
    var (d0, d1) := (HeaderDecl(r0, f, kind, name, genericRet).value, HeaderDecl(r1, f, kind, name, genericRet).value);
    GrowsSameShape(r0, d0.1);
    GrowsSameShape(r1, d1.1);
    CastTypeFrame(d0.1, d1.1, f);
  }

  /** The wrapper's result declarator does not depend on which
      specializations have been discovered. */
  lemma HeaderDeclFrame(r0: Registry, r1: Registry, f: Func, kind: FuncKind, name: string, genericRet: bool)
    requires SameShape(r0, r1)
    ensures HeaderDecl(r0, f, kind, name, genericRet).Ok? == HeaderDecl(r1, f, kind, name, genericRet).Ok?
    ensures HeaderDecl(r0, f, kind, name, genericRet).Ok? ==>
      HeaderDecl(r0, f, kind, name, genericRet).value.0 == HeaderDecl(r1, f, kind, name, genericRet).value.0
  {
    StringifyDeclFrame(r0, r1, f.decl, f.decl.ty, Some(name), genericRet);
  }

  lemma CastTypeFrame(r0: Registry, r1: Registry, f: Func)
    requires SameShape(r0, r1)
    ensures CastType(r0, f) == CastType(r1, f)
  {
    StringifyDeclFrame(r0, r1, f.decl, f.decl.ty, Some(""), true);
  }

  /** The call-through statement returns the C function applied to the
      call-through arguments, cast to the erased type exactly when the
      result is generic. */
  lemma ReturnLineShape(f: Func, genericRet: bool, cast: string, callStr: string)
    ensures StartsWith(ReturnLine(f, genericRet, cast, callStr), "return ")
    ensures genericRet ==> StartsWith(ReturnLine(f, genericRet, cast, callStr), "return (" + cast + ")")
    ensures !genericRet ==> StartsWith(ReturnLine(f, genericRet, cast, callStr), "return " + f.decl.spelling + "(")
    ensures EndsWith(ReturnLine(f, genericRet, cast, callStr), f.decl.spelling + "(" + callStr + ");")
  {
    var line := ReturnLine(f, genericRet, cast, callStr);
    var tail := f.decl.spelling + "(" + callStr + ");";
    if genericRet {
      var head := "return (" + cast + ")";
      assert line == head + tail;
      StartsWithConcat(head, tail);
      StartsWithConcat("return ", "(" + cast + ")" + tail);
      assert line == "return " + ("(" + cast + ")" + tail);
      EndsWithConcat(head, tail);
    } else {
      assert line == "return " + tail;
      StartsWithConcat("return ", tail);
      StartsWithConcat("return " + f.decl.spelling + "(", callStr + ");");
      assert line == "return " + f.decl.spelling + "(" + (callStr + ");");
      EndsWithConcat("return ", tail);
    }
  }

  /* ---------------------------------------------------------------------
     Writing
     --------------------------------------------------------------------- */

  function Activations(typemaps: seq<Typemap>, d: nat): seq<Line>
    decreases |typemaps|
  {
    if |typemaps| == 0 then [] else Shift(typemaps[0].activate, d) + Activations(typemaps[1..], d)
  }

  function Deactivations(typemaps: seq<Typemap>, d: nat): seq<Line>
    decreases |typemaps|
  {
    if |typemaps| == 0 then [] else Shift(typemaps[0].deactivate, d) + Deactivations(typemaps[1..], d)
  }

  /** Lines 187-199: contract, typemap activations, wrapper, typemap
      deactivations, written `d` levels deep. */
  function WriteFunc(bf: BoundFunc, d: nat): (out: seq<Line>)
    ensures var c := |bf.contract|;
      var a := |Activations(bf.typemaps, d)|;
      var b := |bf.body|;
      && |out| == c + a + b + |Deactivations(bf.typemaps, d)|
      && out[..c] == Shift(bf.contract, d)
      && out[c..c + a] == Activations(bf.typemaps, d)
      && out[c + a..c + a + b] == Shift(bf.body, d)
      && out[c + a + b..] == Deactivations(bf.typemaps, d)
  {
    Shift(bf.contract, d) + Activations(bf.typemaps, d) + Shift(bf.body, d) + Deactivations(bf.typemaps, d)
  }

  /** The bound functions of an entity, written one after the other. */
  function WriteFuncs(fs: seq<BoundFunc>, d: nat): seq<Line>
    decreases |fs|
  {
    if |fs| == 0 then [] else WriteFunc(fs[0], d) + WriteFuncs(fs[1..], d)
  }

  /** Binding one more function appends exactly its text to what the
      bound functions write. */
  lemma {:induction false} WriteFuncsAppend(fs: seq<BoundFunc>, f: BoundFunc, d: nat)
    ensures WriteFuncs(fs + [f], d) == WriteFuncs(fs, d) + WriteFunc(f, d)
    decreases |fs|
  {
    if |fs| == 0 {
      assert WriteFuncs([f], d) == WriteFunc(f, d) + WriteFuncs([], d);
    } else {
      assert (fs + [f])[1..] == fs[1..] + [f];
      WriteFuncsAppend(fs[1..], f, d);
    }
  }
}
