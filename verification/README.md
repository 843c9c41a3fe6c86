# rz-bindgen core, modelled in Dafny

rz-bindgen reads the C headers of Rizin through libclang and writes one SWIG
interface file, `rizin.i`. This project models the part of the generator that
turns bound declarations into interface text and proves properties of that
model:

- **TypeNamer** (`src/module.py`). It maps a C type to the generic it
  instantiates, if any. It reads the `/*<type>*/` annotation that names a
  specialization and records the specialization. It builds the declaration
  string for a name and a type (`stringify_decl`) and the Python type name
  used in documentation (`stringify_type_py`).
- **FuncEmitter** (`src/module_func.py`). It binds one C function in one of
  four roles: constructor, destructor, method or static function
  (`FuncKind`). The output has four parts: the outer and inner argument lists,
  the wrapper body with its optional deprecation notice, the `%contract` block
  for `RZ_NONNULL` arguments, and the typemap activations around the wrapper.
- **ClassBuilder** (`src/module_class.py`). It resolves the struct a class
  wraps and generates the struct block with ignored and renamed fields. It
  binds constructors, destructors, methods and static functions, one at a
  time or all at once by name prefix. It writes the class.
- **GenericBuilder** (`src/module_generic.py`). It registers a generic and
  binds its methods. It records the generic's extensions and the extensions
  of single specializations. It writes the `%define` macro, invokes the macro
  for every discovered specialization (dependencies first), and writes the
  `%extend` blocks of the specializations.
- **ModuleWriter** (`src/module.py`, `Module.write`). It lays out the whole
  interface in order: the module line and header includes, then the typemap
  prelude, enums, generics, deprecation helpers, classes, directors and the
  typemap epilogue.

## How the model is structured

The source keeps all module state in one Python singleton. Here that state is
split in two:

- A `Registry` holds the generics, their registration order and the map from
  struct spellings to generic names. Every operation that may discover a
  specialization takes the registry and returns a new one.
- Classes, enums, directors and header names are passed to `ModuleWriter.Write`
  explicitly.

A writer's output is a sequence of `Line(depth, text)`. Writing a buffered
writer into another one at depth `d` is `Writer.Shift(lines, d)`.

Every `raise` and every failing `assert` in the source ends the generator. The
model returns each of them as an `Err` of the `Error` datatype instead.

`Grows(r0, r1)` says that `r1` is `r0` with possibly more specializations and
nothing else changed. `Records(r0, r1, found)` strengthens it: the added
specializations are exactly the `(generic, specialization)` pairs in `found`.
The type namer, the function emitter, the struct walk, `ClassBuilder.New`,
`ClassBuilder.Bind`, `ClassBuilder.BindOne` and `GenericBuilder.AddMethod`
state `Records`, with `found` computed from their inputs. For one declaration
it is `TypeNamer.Uses`, and for argument lists and struct fields it is a union
of those. The prefix-binding loop (`ClassBuilder.BindAll` and the members
built on it) states only `Grows` (see "Left out").

The lemmas ending in `Frame` show that a result does not depend on the
specializations discovered earlier. For `FuncEmitter.BuildFrame`,
`ClassBuilder.BindableFrame` and `ClassBuilder.WalkOkFrame` the result is
whether the call succeeds. For `UsesFrame`, `ArgsUsesFrame` and
`DeclsUsesFrame` it is the set of uses. For the others it is also the text the
call produces, and `FuncEmitter.BuildFuncFrame` and
`ClassBuilder.BindOneFuncFrame` state it for the whole bound function. That
is what lets the model thread the registry functionally and still match the
source, which mutates it.

Wherever the source reads a clang type's `spelling`, the model uses
`Ast.Spelling`. Like clang's type printer, it writes the part of a declarator
that comes before the name and the part after it, with an empty name. This
gives `char **`, `char *const *`, `void (*)(void *)`, `int (*)[4]`,
`char *[4]` and `int (void)`.

## Model

| member | source | states |
|---|---|---|
| TypeNamer.GetGenericName | src/module.py:56-73 | Pointer levels are stripped first. A void base gives `void`. Otherwise the result is the generic mapped from the canonical struct spelling, or none when there is no mapping. A mapped generic is always a registered generic. |
| TypeNamer.AnnotationInner | src/module.py:93-99 | The annotation is accepted exactly when the token has the `/*<...>*/` shape. Otherwise the error is the missing-annotation error naming the generic and the location. The result is the token's inside with one leading `const ` removed. |
| TypeNamer.AnnotationBodyOf | src/module.py:97 | The inside of the annotation written for `s` is `s` itself. |
| TypeNamer.PointerSpecialization | src/module.py:104-116 | A non-pointer generic keeps the name unchanged. A pointer generic accepts the name exactly when it ends in ` *`, and the result is the name without that suffix. A missing `*` and a missing space give their two distinct errors. |
| TypeNamer.ScanAnnotationRoundTrip | src/module.py:93-116 | Writing the annotation of a specialization and scanning it back returns that specialization, for pointer and non-pointer generics. |
| TypeNamer.ScanAnnotationConst | src/module.py:93-116 | A `const `-qualified annotation scans to the specialization without `const`. |
| TypeNamer.ScanAnnotationInverse | src/module.py:93-116 | Every accepted token is the annotation of its result, either plain or `const`-qualified. |
| TypeNamer.AddGenericSpecialization | src/module.py:75-120 | It succeeds exactly when the annotation scan succeeds for a registered generic. It returns the scanned name and records exactly that name for that generic. Every other generic is left unchanged, and so are the mappings and the order. Without a well-formed annotation the error is the missing-annotation error. |
| TypeNamer.AddGenericSpecializationIdempotent | src/module.py:118 | Adding the same specialization again gives the same name and leaves the registry unchanged, because specializations form a set. |
| TypeNamer.AddGenericSpecializationFrame | src/module.py:75-120 | Whether the addition succeeds, and the name it returns, depend only on the registry's mappings, names and pointer flags. |
| TypeNamer.TypeName | src/module.py:141-152 | Void gives `TYPE` inside a macro and nothing outside one. A generic gives `G_##TYPE` inside a macro; outside one it gives `G_spec`. The registry gains exactly the specialization this use scans, and no other. Inside a macro the registry never changes. |
| TypeNamer.TypeNameFrame | src/module.py:141-152 | The type name and whether it can be computed do not depend on the specializations discovered so far. |
| TypeNamer.ProtoArgs | src/module.py:173-176 | A function prototype's argument list names `bool` for a boolean parameter and the parameter's clang spelling (`Ast.Spelling`) otherwise, one entry per parameter. |
| Ast.PointerSpelling | src/module.py:183 | A pointer to a pointer chain is spelled as the pointee, then `*` and the pointer's own `const`. A space goes before the `*` unless the pointee already ends in an unqualified `*`. |
| Ast.FunctionPointerSpelling | src/module.py:175 | A pointer to a prototype is spelled `R (*)(params)`. The star is grouped in parentheses, and the parameters are the parameter spellings joined by `, `, or `void` when there are none. |
| Ast.ArrayPointerSpelling | src/module.py:183 | A pointer to a fixed array is spelled `T (*)[n]`, with the star grouped in parentheses before the bound. |
| Ast.ArraySpelling | src/module.py:183 | A fixed array of a pointer chain is spelled as the element, the separating space unless the element ends in an unqualified `*`, then `[n]`. |
| Ast.PrototypeSpelling | src/module.py:183 | A bare prototype is spelled as its result, the separating space, then the parameter list in parentheses. |
| Ast.SpellingDoublePointer | src/module.py:241 | A pointer to a pointer to `const char` is spelled `const char **`. |
| Ast.SpellingConstPointer | src/module.py:241 | A pointer to a `const`-qualified pointer to `char` is spelled `char *const *`. |
| Ast.SpellingFunctionPointer | src/module.py:175 | A pointer to a function taking `void *` and returning `void` is spelled `void (*)(void *)`. |
| Ast.SpellingArrayPointer | src/module.py:183 | A pointer to an array of four `int` is spelled `int (*)[4]`. |
| Ast.SpellingPointerArray | src/module.py:183 | An array of four `char *` is spelled `char *[4]`. |
| Ast.SpellingEmptyPrototype | src/module.py:175 | A prototype with no parameters returning `int` is spelled `int (void)`. |
| TypeNamer.DeclaratorFunctionPointer | src/module.py:158-183 | A pointer to a prototype is declared as `R (*name)(args)`. |
| TypeNamer.DeclaratorCallbackField | src/module.py:158-183 | A field `f` that points to a function taking a `void (*)(void *)` callback is declared `void (*f)(void (*)(void *))`: the nested parameter keeps clang's grouped spelling. |
| TypeNamer.DocNameDoublePointer | src/module.py:241 | A `const char **` documents as `"const char **"`, with the stars together. |
| TypeNamer.UnwrapUnmarked | src/module.py:155-163 | Without a type name, unravelling the pointers prefixes exactly one `*` per pointer level and no `const`. |
| TypeNamer.UnwrapConstFree | src/module.py:155-163 | With a type name but no const-qualified level, unravelling gives the same as without a type name. |
| TypeNamer.DeclaratorPointers | src/module.py:155-183 | The declarator of a pointer type is the declarator of its base type with the stars moved onto the name. |
| TypeNamer.DeclaratorShapes | src/module.py:165-183 | For a non-pointer type, each shape gives its declaration: `T name[n]` for a fixed array, `T name[]` for an open array, `R (name)(args)` for a prototype, `bool name` for a boolean, and `spelling name` otherwise. |
| TypeNamer.DeclaratorArray | src/module.py:166-168 | A fixed array is declared as `element name[count]`. |
| TypeNamer.DeclaratorOpenArray | src/module.py:169-171 | An array of unknown size is declared as `element name[]`. |
| TypeNamer.DeclaratorProto | src/module.py:172-178 | A prototype is declared as `result (name)(args)`. |
| TypeNamer.StringifyDecl | src/module.py:122-183 | It succeeds exactly when the type name can be computed. A non-generic type gives the plain C declarator, built from clang's spelling of the type (`Ast.Spelling`), with the name defaulting to the declaration's spelling. The registry gains exactly the specialization the type's annotation names when it is a generic outside a macro, and nothing otherwise. Inside a macro the registry is unchanged. |
| TypeNamer.StringifyDeclGeneric | src/module.py:141-183 | The full text of a generic declaration. It is the type name, a space, the pointer marks and then the name. The type name is `TYPE` for void inside a macro, `G_##TYPE` for a generic inside a macro, and `G_spec` outside one. |
| TypeNamer.UnwrapMarked | src/module.py:155-163 | With a type name, unravelling the pointers gives the type's pointer marks: one `*` per level, with `const ` before the star of each const-qualified pointee and at the end for a const-qualified outer type. |
| TypeNamer.MarksConstFree | src/module.py:155-163 | Without a const-qualified level the pointer marks are just one `*` per level. |
| TypeNamer.MarksConst | src/module.py:155-162 | A const-qualified base type puts `const ` first in the marks, and a const-qualified outer type puts it last. |
| TypeNamer.GenericBase | src/module.py:63-71 | When no struct maps to the empty name, a type that names a generic has a void or record base. |
| TypeNamer.StringifyDeclFrame | src/module.py:122-183 | The declaration string does not depend on the specializations discovered so far. |
| TypeNamer.StringifyTypePy | src/module.py:185-241 | Generics give `T` or `G[T]` inside a macro; outside one they give `G[spec]`, and the registry gains exactly that specialization. The other cases are fixed. A character pointer gives `str` and a pointer to a typedef gives the typedef's spelling. Then a typedef gives its spelling, a boolean `bool`, the listed integer kinds `int`, and void nothing. Every remaining type gives its clang spelling (`Ast.Spelling`) in double quotes, such as `"const char **"`. |
| TypeNamer.DocAndDeclAgree | src/module.py:141-202 | The documentation type and the declaration string fail on the same inputs, and on success they record the same specialization. Both read the same generic name and scan the same annotation. |
| FuncEmitter.InnerNames | src/module_func.py:77-93 | There is one inner name per argument; an argument spelled `self` passes through as `_self`. |
| FuncEmitter.OuterArg | src/module_func.py:77-93 | An argument's visible declaration is its declaration string, under the name `_self` when it is spelled `self`. It is marked generic when listed among the generic arguments. Any other argument with a default gets ` = default` appended. The registry gains exactly the specialization this argument's type names. |
| FuncEmitter.OuterArgFrame | src/module_func.py:77-93 | An argument's visible declaration does not depend on the specializations discovered so far. |
| FuncEmitter.ArgTextFrame | src/module_func.py:77-93 | The same, for every argument at once. |
| FuncEmitter.OuterArgsFrame | src/module_func.py:61-97 | Whether the outer argument list succeeds, and its entries, do not depend on the specializations discovered so far. |
| FuncEmitter.OuterArgs | src/module_func.py:61-97 | The outer list succeeds exactly when every argument's declaration does. It has one entry per argument, and entry `k` is argument `k`'s declaration, even though earlier arguments may record specializations. The registry gains exactly the union of the specializations the arguments name. |
| FuncEmitter.ArgsUsesExact | src/module_func.py:77-97 | The loop records a specialization exactly when one of the arguments records it. |
| FuncEmitter.Wrapper | src/module_func.py:140-168 | The wrapper opens with the line for its kind and ends with the call-through line and `}`. It has three lines, or four with the deprecation notice. The notice is present exactly when the C function is marked `RZ_DEPRECATE`, and then it is the second line, one level in, naming the interface name and the C name. |
| FuncEmitter.CastType | src/module_func.py:161-165 | The cast of a generic result is its full erased type. For void it is `TYPE` followed by the pointer marks, and for a generic it is `G_##TYPE` followed by the pointer marks. A non-generic result gives the plain type with one `*` per level. |
| FuncEmitter.OpeningEnds | src/module_func.py:140-155 | The opening line of every kind ends with `{`. |
| FuncEmitter.BodyDeprecation | src/module_func.py:157-168 | The body holds the notice line exactly when a notice is given. |
| FuncEmitter.ReturnLineShape | src/module_func.py:161-167 | The call-through is `return (cast)name(args);` for a generic result and `return name(args);` otherwise. |
| FuncEmitter.NonNullNamesExact | src/module_func.py:174-178 | The non-null names are exactly the spellings of the `RZ_NONNULL` arguments, in argument order and without omissions. |
| FuncEmitter.ContractLines | src/module_func.py:180-185 | There is no contract when no argument is non-null. Otherwise the block is `%contract name(args) {`, then `require:`, then one `x != NULL;` per non-null argument, then `}`. |
| FuncEmitter.Build | src/module_func.py:38-185 | Binding succeeds exactly under four conditions: every argument's declaration succeeds, every generic argument and every default names an inner argument, and the result declaration succeeds. Each failing sanity check returns its own error carrying the unknown names. On success the four parts are fixed: the argument lists, the wrapper's opening, notice and call-through, the `%contract` block, and the role and names of the bound function. The registry gains exactly the specializations the arguments and the result name. |
| FuncEmitter.BuildFrame | src/module_func.py:38-185 | Whether binding succeeds does not depend on the specializations discovered so far. |
| FuncEmitter.BuildFuncFrame | src/module_func.py:38-185 | The bound function itself does not depend on the specializations discovered so far: its argument lists, wrapper and contract come out the same. |
| FuncEmitter.HeaderDeclFrame | src/module_func.py:145-155 | The result declaration does not depend on the specializations discovered so far. |
| FuncEmitter.CastTypeFrame | src/module_func.py:161-165 | The erased result type does not depend on them either. |
| FuncEmitter.WriteFunc | src/module_func.py:187-199 | The output is laid out in order: the contract, the typemap activations, the wrapper and the typemap deactivations. Contract and wrapper are shifted to the writer's depth. |
| FuncEmitter.WriteFuncsAppend | src/module_func.py:187-199 | Writing one more function appends exactly its text. |
| ClassBuilder.ResolveStruct | src/module_class.py:77-94 | It gives an error when both `typedef` and `struct` are given and another when neither is. A missing typedef or struct gives not-found, and a typedef that is not of a struct gives its own error. A missing name gives the no-rename error. Otherwise the result is the struct, named by the rename or by the typedef's own spelling. |
| ClassBuilder.EmittedMembers | src/module_class.py:271-279 | A field is written exactly when it is among the struct's fields and is not ignored. |
| ClassBuilder.FieldBlock | src/module_class.py:271-295 | Walking the children succeeds exactly when the walk predicate holds. Each child must be a field or a nested struct or union; any other kind fails. No field may repeat, and every written field must have a declaration. On success, the seen names grow by exactly the field names, and each written line is its field's declaration. The registry gains exactly the specializations the written fields name. |
| ClassBuilder.DeclsUsesExact | src/module_class.py:271-279 | The field walk records a specialization exactly when one written field records it. |
| ClassBuilder.WalkStep | src/module_class.py:271-295 | This is one step of the walk. An unexpected child and a repeated field both fail. A fresh field is added to the seen names, and its line is required unless the field is ignored. |
| ClassBuilder.GenStruct | src/module_class.py:249-306 | It succeeds exactly when the walk succeeds and every ignored and renamed field exists; an unknown ignored field names the unknown set. The block is laid out in order: one `%rename S::old new;` per renamed field, `struct S {`, the written fields one level in, `};`, and one `%rename S::old "";` per renamed field. The registry gains exactly the specializations the written fields name. |
| ClassBuilder.StructLines | src/module_class.py:262-306 | The struct block has the layout stated for GenStruct, for any field texts. |
| ClassBuilder.New | src/module_class.py:65-108 | A class exists exactly when the struct resolves and its block generates. Its name is the resolved name and is never empty. Its block starts with `typedef struct S N;` and `%rename S N;`, followed by the struct block, and it has no functions yet. The registry gains exactly the specializations the struct's written fields name. |
| ClassBuilder.Bind | src/module_class.py:110-180 | Binding by name fails with not-found when the header lacks the function. Otherwise it succeeds exactly when the function binds. It appends exactly one bound function, marks the name used, and leaves the class otherwise unchanged. The registry gains exactly the specializations the function's binding names. |
| ClassBuilder.AddConstructor | src/module_class.py:110-119 | It appends a constructor named after the struct, marks the C name used, and leaves the rest unchanged. |
| ClassBuilder.AddDestructor | src/module_class.py:121-130 | It appends a destructor named after the struct, marks the C name used, and leaves the rest unchanged. |
| ClassBuilder.AddMethod | src/module_class.py:132-158 | It appends a method under the given name with the given typemaps, and marks the C name used. |
| ClassBuilder.AddFunc | src/module_class.py:160-184 | It appends a static function under the given name with the given typemaps, and marks the C name used. |
| ClassBuilder.MatchesInComplete | src/module_class.py:192-222 | Every eligible function of the header, in header order, is among the matches. |
| ClassBuilder.MatchesNone | src/module_class.py:192-222 | With no eligible function left there are no matches. |
| ClassBuilder.BindAll | src/module_class.py:186-247 | The prefixed loop succeeds exactly when every match binds. The bound functions correspond one to one, in order, to the matches. The `k`-th is exactly what the binder gives for the `k`-th match against the starting registry, even though earlier bindings may have grown it. The used names grow by exactly the matches, and the registry only grows. |
| ClassBuilder.BindOne | src/module_class.py:186-247 | A prefixed binding gives a function of the loop's kind named with the prefix removed. The registry gains exactly the specializations that function's binding names. |
| ClassBuilder.BindOneBindable | src/module_class.py:186-247 | For every match, binding it in the loop succeeds exactly when it is bindable on its own. |
| ClassBuilder.BindableFrame | src/module_class.py:186-247 | Whether a function is bindable does not depend on the specializations discovered so far. |
| ClassBuilder.BindOneFuncFrame | src/module_class.py:212-214 | The function a prefixed binding produces does not depend on the specializations discovered before it. |
| ClassBuilder.BindPrefixed | src/module_class.py:186-247 | Binding by prefix succeeds exactly when every matching function binds. It marks exactly the matches used. It appends their bindings in header order: the `k`-th appended function is exactly the binding of the `k`-th match. Afterwards no function matches. |
| ClassBuilder.AddPrefixedMethods | src/module_class.py:186-222 | Each match is unused, starts with the prefix, is `RZ_API`, and takes a pointer to the class's struct first. The `k`-th appended function is exactly `FuncEmitter.Build` of the `k`-th match as a method named with the prefix removed: its argument lists, wrapper and contract included. Nothing matches afterwards, and with no matches nothing changes. |
| ClassBuilder.AddPrefixedFuncs | src/module_class.py:224-247 | Each match is unused, starts with the prefix, and is `RZ_API`. The `k`-th appended function is exactly `FuncEmitter.Build` of the `k`-th match as a static function named with the prefix removed: its argument lists, wrapper and contract included. Nothing matches afterwards, and with no matches nothing changes. |
| ClassBuilder.WriteClass | src/module_class.py:308-318 | A class is written in order: its struct block, `%extend S {`, its functions one level in, then `}`. |
| ClassBuilder.WriteClassBind | src/module_class.py:308-318 | Binding one more function inserts exactly its text before the closing `}`. |
| GenericBuilder.New | src/module_generic.py:35-59 | A generic must be a typedef of a struct. A missing typedef gives not-found, and a non-struct gives its own error. On success the generic starts empty, the struct's spelling maps to it, and it is appended to the registration order unless it is already there. |
| GenericBuilder.NewValid | src/module_generic.py:35-59 | Registering keeps the registry consistent, and the new generic has no specializations. |
| GenericBuilder.AddMethod | src/module_generic.py:61-86 | A missing C function gives not-found. Otherwise the call succeeds exactly when the method binds. It appends that binding to the generic's functions and marks the name used. The registry gains exactly the specializations the binding names, and nothing else changes. |
| GenericBuilder.GrowsWithFuncValid | src/module_generic.py:61-86 | Binding a method keeps the registry consistent and keeps the extension bookkeeping consistent. |
| GenericBuilder.AddExtension | src/module_generic.py:88-93 | The lines are appended to the generic's own extensions in call order, and nothing else changes. |
| GenericBuilder.AddSpecializationExtension | src/module_generic.py:95-100 | The lines are appended to that specialization's extensions. A specialization seen for the first time is appended to the extension order. No lines change nothing, and other specializations keep their lines. |
| GenericBuilder.Macro | src/module_generic.py:106-123 | The macro has seven opening lines: `%define %G(TYPE)`, `%nodefaultctor G_##TYPE;`, `%{`, `typedef G G_##TYPE;`, `%}`, `typedef struct {} G_##TYPE;` and `%extend G_##TYPE {`. Inside the `%extend` come the functions and then the extensions, two levels in. It closes with `}` and `%enddef`. |
| GenericBuilder.MacroBind | src/module_generic.py:61-123 | Binding a method inserts its text after the other functions and before the extensions. |
| GenericBuilder.MacroExtend | src/module_generic.py:88-123 | An extension is inserted just before the macro's closing lines. |
| GenericBuilder.InvocationBlock | src/module_generic.py:126-128 | For one specialization, every dependency's macro is invoked on it in order, followed by the generic's own. |
| GenericBuilder.InvocationsAt | src/module_generic.py:125-128 | The `i`-th specialization's block sits at offset `i` times the block size. |
| GenericBuilder.DependenciesFirst | src/module_generic.py:125-128 | For every specialization, each dependency's invocation comes before the generic's own. |
| GenericBuilder.SpecBlock | src/module_generic.py:132-135 | A specialization's block is `%extend G_spec {`, then each of its lines one level deeper with its text unchanged, then `}`. |
| GenericBuilder.SpecBlockExtend | src/module_generic.py:95-135 | More lines for a specialization are inserted before its closing `}`, one level in. |
| GenericBuilder.SpecBlocksAppend | src/module_generic.py:95-135 | A newly extended specialization appends its block after the others. |
| GenericBuilder.FirstUnknown | src/module_generic.py:130-131 | It finds the first extended specialization that was never discovered, if any. |
| GenericBuilder.Write | src/module_generic.py:102-135 | Writing succeeds exactly when every extended specialization has been discovered. Otherwise the error names the first undiscovered one in extension order. |
| GenericBuilder.WriteLayout | src/module_generic.py:102-135 | The written generic is the macro, then the invocations in the order the specializations are visited, then the specialization blocks in extension order. |
| ModuleWriter.Prelude | src/module.py:254-263 | The prelude is the module line, `%{`, one `#include <h>` per header in visiting order, `%}`, and `%include <rizin_pre.i>`. |
| ModuleWriter.ChainOk | src/module.py:268-269 | Writing the generics in order succeeds exactly when each of them can be written. |
| ModuleWriter.ChainAppend | src/module.py:268-269 | One more generic appends its text, or its error if it fails. |
| ModuleWriter.ChainFails | src/module.py:268-269 | The first generic that cannot be written, after a successful prefix, gives the error of the whole module. |
| ModuleWriter.WriteInOrder | src/module.py:268-269 | The loop returns the concatenated texts in order, or stops at the first failing generic with its error. |
| ModuleWriter.Write | src/module.py:250-299 | The module can be written exactly when every registered generic can. Its text is the generics' text, in registration order, placed among the other sections. |
| ModuleWriter.Render | src/module.py:254-299 | The module text is the part before the deprecation helpers, followed by the rest. |
| ModuleWriter.Head | src/module.py:254-269 | The part before the helpers is laid out in order: the prelude, the enums' text, then the generics' text. |
| ModuleWriter.Tail | src/module.py:272-299 | The rest is laid out in order: the deprecation helpers, the classes' text, the directors' text, and finally `%include <rizin_post.i>`. |
| ModuleWriter.WriteEnds | src/module.py:254-299 | The written module opens with `%module(directors=1) rizin` and has an include line for every header. It closes with the typemap epilogue. |

## Left out

- Documentation output is not modelled: everything under `rizin.enable_sphinx`, `write_sphinx` and the doxygen links. The model is the generator with documentation switched off.
  - That pass is not only text. It calls `stringify_type_py` on every argument (src/module_func.py:99-103) and on every function's result (src/module_func.py:112-117), constructors and destructors included.
  - For an argument this records the same specialization, or fails the same way, as the argument's own declaration does; `TypeNamer.DocAndDeclAgree` states this.
  - A constructor's or destructor's result is never passed through `stringify_decl`, so `FuncEmitter.Build` does not scan its annotation.
  - So with documentation on, the source can record a specialization that the model does not. It can also stop on a missing or malformed annotation on such a result where the model succeeds.
- Typemap checks and text are left out. `ModuleTypemap.check` and the activation and deactivation text come from code that is not part of this model. A typemap is an opaque value, and its activation and deactivation lines are data.
- Enums and directors are not modelled. `ModuleEnum` and `ModuleDirector` are not part of this model; the module writer takes their written text as data.
- Parsing is not modelled: libclang, token extraction and canonical-type resolution. A declaration carries its annotation token, and a type carries its canonical record spelling. Comparing two clang cursors is modelled as comparing their spellings.
- Set iteration order is a parameter. The source iterates Python sets for the headers and a generic's specializations, so `ModuleWriter.Module` holds the order chosen for each and the writer requires it to visit each member exactly once.
- Error message text is not modelled. Each error is a constructor that carries the offending names; the message wording is left out.
- I/O is left out: `write_io`, the `DirectWriter` file handle and the command-line entry point.
- Variadic prototypes are not modelled: `Type.FuncProto` has no variadic flag, so the `, ...` clang adds to such a parameter list is not produced.
- Indentation is not modelled. A line's depth is kept as a number; the indentation string that renders it is left out.
- TypeNamer.StringifyDeclGeneric: its full text of a generic declaration assumes no struct maps to the empty generic name. The source treats an empty name as "not a generic" through Python truthiness. `TypeNamer.StringifyDecl` models that case, and `TypeNamer.TypeName` states its type name, but the full text is only stated for the non-generic branch.
- FuncEmitter.CastType: it states the generic cast text under the same assumption, for the same reason.
- A non-pointer generic accepts a specialization that ends in `*`. `add_generic_specialization` (src/module.py:104-116) checks the `*` only for pointer generics and has no matching rejection for the others. The model follows the code: `TypeNamer.PointerSpecialization` keeps such a name unchanged.
- A too-short annotation indexes out of range in Python (`name[-1]`, `name[-2]`). The model returns that as the IndexOutOfRange error.
- Registering a class with the module (`rizin.classes.append`) is left out. The module writer takes the classes as a sequence.
- ClassBuilder.BindAll: it states each bound function exactly, but for the registry it states only that it grows, not which specializations it gains. Each step's exact gain is stated by `ClassBuilder.BindOne`, and carrying it through the loop would need the loop to be given a per-name use function. The same holds for `ClassBuilder.BindPrefixed`, `ClassBuilder.AddPrefixedMethods` and `ClassBuilder.AddPrefixedFuncs`.
- Partial output before an error is not modelled. The source writes straight to the output file, so a failing check in `ModuleGeneric.write` comes after the macro and invocations are already written. The model returns only the error, and `ModuleWriter.Write` does the same for the whole module.
