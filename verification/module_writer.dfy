/** The emission of the whole SWIG module (src/module.py, `Module.write`):
    the module line and header includes, the typemap prelude, then enums,
    generics, the deprecation helpers, classes and directors, and the
    typemap epilogue. */
module ModuleWriter {
  import opened Wrappers
  import opened Writer
  import opened Entities
  import opened ClassBuilder
  import GenericBuilder

  /** Everything the module holds at emission. Enums and directors are
      written by code that is not part of this model, so each is its
      already written text. The source keeps the headers and each
      generic's specializations in sets; `headers` and `specOrders` are
      the orders in which those sets are visited. */
  datatype Module = Module(
    headers: seq<string>,
    enums: seq<seq<Line>>,
    registry: Registry,
    specOrders: map<string, seq<string>>,
    classes: seq<Class>,
    directors: seq<seq<Line>>)

  /** `specs` visits each of `members` exactly once. */
  ghost predicate Visits(specs: seq<string>, members: set<string>) {
    && (forall s :: s in specs <==> s in members)
    && (forall i, j :: 0 <= i < j < |specs| ==> specs[i] != specs[j])
  }

  /** The registry is consistent and every registered generic has a
      visiting order for its specializations and consistent extension
      bookkeeping. */
  ghost predicate Ready(m: Module) {
    && m.registry.Valid()
    && forall g :: g in m.registry.generics ==>
         && g in m.specOrders
         && Visits(m.specOrders[g], m.registry.generics[g].specializations)
         && GenericBuilder.ExtensionsWf(m.registry.generics[g])
  }

  /** Lines 254-263: the module line, the includes of every header, and
      the typemap prelude. */
  function Prelude(headers: seq<string>): (p: seq<Line>)
    ensures |p| == |headers| + 4
    ensures p[0] == Line(0, "%module(directors=1) rizin") && p[1] == Line(0, "%{")
    ensures forall k :: 0 <= k < |headers| ==> p[2 + k] == Line(0, "#include <" + headers[k] + ">")
    ensures p[|headers| + 2] == Line(0, "%}") && p[|headers| + 3] == Line(0, "%include <rizin_pre.i>")
  {
    [Line(0, "%module(directors=1) rizin"), Line(0, "%{")]
      + At(0, seq(|headers|, k requires 0 <= k < |headers| => "#include <" + headers[k] + ">"))
      + [Line(0, "%}"), Line(0, "%include <rizin_pre.i>")]
  }

  /** Lines 272-291: the `k`-th line of the deprecation switches and of
      the helper every deprecated wrapper calls. */
  function HelperText(k: nat): string
    requires k < 16
  {
    match k
    case 0 => "%inline %{"
    case 1 => "bool rizin_warn_deprecate = true;"
    case 2 => "bool rizin_warn_deprecate_instructions = true;"
    case 3 => "%}"
    case 4 => "%{"
    case 5 => "void rizin_try_warn_deprecate(const char *name, const char *c_name) {"
    case 6 => "    if (rizin_warn_deprecate) {"
    case 7 => "        printf(\"Warning: `%s` calls deprecated function `%s`\\n\", name, c_name);"
    case 8 => "        if (rizin_warn_deprecate_instructions) {"
    case 9 => "            puts(\"To disable this warning, set rizin_warn_deprecate to false\");"
    case 10 => "            puts(\"The way to do this depends on the SWIG language being used\");"
    case 11 => "            puts(\"For python, do `rizin.cvar.rizin_warn_deprecate = False`\");"
    case 12 => "        }"
    case 13 => "    }"
    case 14 => "}"
    case _ => "%}"
  }

  /** The deprecation helper, each line at the outermost level. */
  function DeprecationHelpers(): seq<Line> {
    seq(16, k requires 0 <= k < 16 => Line(0, HelperText(k)))
  }

  /** The texts `write` gives for `names`, laid end to end, or the first
      error it raises in that order. */
  function Chain(names: seq<string>, write: string --> Result<seq<Line>>): (res: Result<seq<Line>>)
    requires forall n :: n in names ==> write.requires(n)
    decreases |names|
  {
    if |names| == 0 then Ok([])
    else
      match write(names[0])
      case Err(e) => Err(e)
      case Ok(text) =>
        match Chain(names[1..], write)
        case Err(e) => Err(e)
        case Ok(rest) => Ok(text + rest)
  }

  /** The chain succeeds exactly when every link does. */
  lemma {:induction false} ChainOk(names: seq<string>, write: string --> Result<seq<Line>>)
    requires forall n :: n in names ==> write.requires(n)
    ensures Chain(names, write).Ok? <==> forall n :: n in names ==> write(n).Ok?
    decreases |names|
  {
    if |names| > 0 {
      ChainOk(names[1..], write);
      assert forall n :: n in names <==> n == names[0] || n in names[1..];
    }
  }

  /** One more name appends its text, or its error when the chain so far
      succeeded. */
  lemma {:induction false} ChainAppend(names: seq<string>, n: string, write: string --> Result<seq<Line>>)
    requires forall k :: k in names ==> write.requires(k)
    requires write.requires(n)
    ensures Chain(names, write).Ok? ==>
      (Chain(names + [n], write) ==
        match write(n)
        case Err(e) => Err(e)
        case Ok(text) => Ok(Chain(names, write).value + text))
    decreases |names|
  {
    if |names| == 0 {
      assert [n][1..] == [];
      if write(n).Ok? {
        assert [] + write(n).value == write(n).value + [];
      }
    } else {
      assert (names + [n])[1..] == names[1..] + [n];
      ChainAppend(names[1..], n, write);
      if Chain(names, write).Ok? && write(n).Ok? {
        var (first, rest) := (write(names[0]).value, Chain(names[1..], write).value);
        assert first + rest + write(n).value == first + (rest + write(n).value);
      }
    }
  }

  /** Each registered generic written by `GenericBuilder.Write`, visiting
      its specializations in the module's order for them. */
  function GenericWriter(m: Module): (w: string --> Result<seq<Line>>)
    requires Ready(m)
    ensures forall g :: g in m.registry.generics ==> w.requires(g)
  {
    g requires g in m.registry.generics => GenericBuilder.Write(m.registry.generics[g], m.specOrders[g])
  }

  /** Lines 268-269: write each item in order, stopping at the first that
      cannot be written. */
  method WriteInOrder(names: seq<string>, write: string --> Result<seq<Line>>) returns (res: Result<seq<Line>>)
    requires forall n :: n in names ==> write.requires(n)
    ensures res.Ok? <==> forall n :: n in names ==> write(n).Ok?
    ensures res == Chain(names, write)
  {
    ChainOk(names, write);
    var out: seq<Line> := [];
    var i := 0;
    assert names[..0] == [];
    while i < |names|
      invariant 0 <= i <= |names|
      invariant Chain(names[..i], write) == Ok(out)
    {
      var n := names[i];
      assert names[..i + 1] == names[..i] + [n];
      ChainAppend(names[..i], n, write);
      var text := write(n);
      if text.Err? {
        ChainFails(names, i, write);
        return Err(text.error);
      }
      out := out + text.value;
      i := i + 1;
    }
    assert names[..i] == names;
    res := Ok(out);
  }

  /** A link that fails after a successful prefix is the chain's error. */
  lemma {:induction false} ChainFails(names: seq<string>, i: nat, write: string --> Result<seq<Line>>)
    requires forall n :: n in names ==> write.requires(n)
    requires i < |names| && Chain(names[..i], write).Ok?
    requires write(names[i]).Err?
    ensures Chain(names, write) == Err(write(names[i]).error)
    decreases |names|
  {
    if i > 0 {
      assert names[1..][..i - 1] == names[..i][1..];
      ChainFails(names[1..], i - 1, write);
    }
  }

  function ClassesText(cs: seq<Class>): seq<Line>
    decreases |cs|
  {
    if |cs| == 0 then [] else WriteClass(cs[0]) + ClassesText(cs[1..])
  }

  /** Lines 250-299: the module text. Writing fails exactly when one of
      the generics cannot be written, with the error of the first such
      generic in registration order; otherwise the generics' text is laid
      out among the other sections as `Render` states. */
  function Write(m: Module): (res: Result<seq<Line>>)
    requires Ready(m)
    ensures res.Ok? <==> forall g :: g in m.registry.generics ==>
      GenericBuilder.Write(m.registry.generics[g], m.specOrders[g]).Ok?
    ensures res.Ok? ==>
      && Chain(m.registry.order, GenericWriter(m)).Ok?
      && res.value == Render(m, Chain(m.registry.order, GenericWriter(m)).value)
  {
    ChainOk(m.registry.order, GenericWriter(m));
    assert forall g :: g in m.registry.order <==> g in m.registry.generics;
    match Chain(m.registry.order, GenericWriter(m))
    case Err(e) => Err(e)
    case Ok(g) => Ok(Render(m, g))
  }

  /** Lines 254-299 around the generics' text `g`: the part of the
      module before the deprecation helpers, then the rest. */
  function Render(m: Module, g: seq<Line>): (out: seq<Line>)
    ensures |out| == |Head(m, g)| + |Tail(m)|
    ensures out[..|Head(m, g)|] == Head(m, g) && out[|Head(m, g)|..] == Tail(m)
  {
    Head(m, g) + Tail(m)
  }

  /** Lines 254-269: the prelude, the enums, then the generics. */
  function Head(m: Module, g: seq<Line>): (out: seq<Line>)
    ensures var (p, e) := (Prelude(m.headers), Concat(m.enums));
      && |out| == |p| + |e| + |g|
      && out[..|p|] == p
      && out[|p|..|p| + |e|] == e
      && out[|p| + |e|..] == g
  {
    Slices3(Prelude(m.headers), Concat(m.enums), g);
    Prelude(m.headers) + Concat(m.enums) + g
  }

  /** Lines 272-299: the deprecation helpers, the classes, the directors,
      and last the typemap epilogue. */
  function Tail(m: Module): (out: seq<Line>)
    ensures var (h, c, d) := (DeprecationHelpers(), ClassesText(m.classes), Concat(m.directors));
      && |out| == |h| + |c| + |d| + 1
      && out[..|h|] == h
      && out[|h|..|h| + |c|] == c
      && out[|h| + |c|..|h| + |c| + |d|] == d
      && out[|out| - 1] == Line(0, "%include <rizin_post.i>")
  {
    var post := [Line(0, "%include <rizin_post.i>")];
    Slices4(DeprecationHelpers(), ClassesText(m.classes), Concat(m.directors), post);
    DeprecationHelpers() + ClassesText(m.classes) + Concat(m.directors) + post
  }


  /** The written module opens with the module directive and an include
      of every header, in the order the headers are visited, and closes
      with the typemap epilogue. */
  lemma WriteEnds(m: Module)
    requires Ready(m) && Write(m).Ok?
    ensures var out := Write(m).value;
      && |out| >= |m.headers| + 5
      && out[0] == Line(0, "%module(directors=1) rizin")
      && (forall k :: 0 <= k < |m.headers| ==> out[2 + k] == Line(0, "#include <" + m.headers[k] + ">"))
      && out[|out| - 1] == Line(0, "%include <rizin_post.i>")
  {
    var out := Write(m).value;
    var g := Chain(m.registry.order, GenericWriter(m)).value;
    var (head, p) := (Head(m, g), Prelude(m.headers));
    assert out[..|head|] == head;
    assert head[..|p|] == p;
    assert forall k :: 0 <= k < |p| ==> out[k] == head[k] == p[k];
    assert out[|head|..] == Tail(m);
  }
}
