/** The entities of the binding model and the generic registry they share.

    `Registry` is the part of the process-wide module that the type namer
    reads and updates: the registered generics in registration order and the
    map from a generic's struct spelling to the generic's name. Every other
    part of the module (classes, enums, directors, headers) only matters at
    final emission and is handed to the module writer explicitly. */
module Entities {
  import opened Ast
  import opened Writer

  /** The role a bound function plays in its class. */
  datatype FuncKind = Constructor | Destructor | This | Static

  /** A typemap attached to a bound function; its activation and
      deactivation text is produced elsewhere and is opaque here. */
  datatype Typemap = Typemap(activate: seq<Line>, deactivate: seq<Line>)

  /** A bound function: its role, interface name and C name, the outer
      (visible) and inner (call-through) argument lists it built, its
      wrapper text, its non-null contract text and its typemaps. */
  datatype BoundFunc = BoundFunc(
    kind: FuncKind,
    name: string,
    cName: string,
    outer: seq<string>,
    inner: seq<string>,
    body: seq<Line>,
    contract: seq<Line>,
    typemaps: seq<Typemap>)

  /** A generic container: whether its specializations are pointers, the
      specializations discovered so far, the generics whose macros each
      specialization also needs, its methods, the lines added to its
      `%extend`, and the lines added per specialization (`extKeys` keeps the
      order in which those specializations were first extended). */
  datatype Generic = Generic(
    name: string,
    pointer: bool,
    specializations: set<string>,
    dependencies: seq<string>,
    funcs: seq<BoundFunc>,
    extensions: seq<Line>,
    extKeys: seq<string>,
    specExtensions: map<string, seq<Line>>)

  datatype Registry = Registry(
    generics: map<string, Generic>,
    order: seq<string>,
    mappings: map<string, string>)
  {
    /** Every mapping points at a registered generic, each generic is stored
        under its own name, and `order` lists each registered name once. */
    ghost predicate Valid() {
      && (forall s :: s in mappings ==> mappings[s] in generics)
      && (forall g :: g in generics ==> generics[g].name == g)
      && (forall i, j :: 0 <= i < j < |order| ==> order[i] != order[j])
      && (forall g :: g in order <==> g in generics)
    }
  }

  /** Two registries agree on everything the type namer reads: the struct
      mappings, the registered names and each generic's pointer flag. */
  ghost predicate SameShape(r0: Registry, r1: Registry) {
    && r0.mappings == r1.mappings
    && r0.generics.Keys == r1.generics.Keys
    && forall g :: g in r0.generics ==> r0.generics[g].pointer == r1.generics[g].pointer
  }

  /** `r1` is `r0` with possibly more specializations discovered and nothing
      else changed: the only state emission is allowed to mutate. */
  ghost predicate Grows(r0: Registry, r1: Registry) {
    && r1.mappings == r0.mappings
    && r1.order == r0.order
    && r1.generics.Keys == r0.generics.Keys
    && forall g :: g in r0.generics ==>
         && r0.generics[g].specializations <= r1.generics[g].specializations
         && r1.generics[g] == r0.generics[g].(specializations := r1.generics[g].specializations)
  }

  /** The specializations of `r1` are those of `r0` plus exactly the uses
      in `found`: each pair `(g, s)` names a registered generic `g` and a
      specialization `s` now in its set, and nothing else was added. */
  ghost predicate SpecsRecorded(r0: Registry, r1: Registry, found: set<(string, string)>)
    requires r0.generics.Keys <= r1.generics.Keys
  {
    && (forall p :: p in found ==> p.0 in r0.generics && p.1 in r1.generics[p.0].specializations)
    && (forall g, s :: g in r0.generics && s in r1.generics[g].specializations ==>
          s in r0.generics[g].specializations || (g, s) in found)
  }

  /** `r1` is `r0` with exactly the specialization uses `found` recorded. */
  ghost predicate Records(r0: Registry, r1: Registry, found: set<(string, string)>) {
    Grows(r0, r1) && SpecsRecorded(r0, r1, found)
  }

  /** Recording in two steps records both steps' uses. */
  lemma RecordsTrans(r0: Registry, r1: Registry, r2: Registry, a: set<(string, string)>, b: set<(string, string)>)
    requires Records(r0, r1, a) && Records(r1, r2, b)
    ensures Records(r0, r2, a + b)
  {
    forall g, s | g in r0.generics && s in r2.generics[g].specializations
      ensures s in r0.generics[g].specializations || (g, s) in a + b
    {
      assert s in r1.generics[g].specializations || (g, s) in b;
    }
  }

  lemma GrowsSameShape(r0: Registry, r1: Registry)
    requires Grows(r0, r1)
    ensures SameShape(r0, r1)
  {
  }

  lemma GrowsTrans(r0: Registry, r1: Registry, r2: Registry)
    requires Grows(r0, r1) && Grows(r1, r2)
    ensures Grows(r0, r2)
  {
  }

  /** Growing keeps the registry's invariant. */
  lemma GrowsValid(r0: Registry, r1: Registry)
    requires r0.Valid() && Grows(r0, r1)
    ensures r1.Valid()
  {
  }

  /** A class: its interface name, the C struct it wraps, the struct block
      built when it was registered, and its bound functions in binding
      order. */
  datatype Class = Class(name: string, structName: string, structLines: seq<Line>, funcs: seq<BoundFunc>)
}
