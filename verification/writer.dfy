/** The text builder. A written line is its indentation depth and its text;
    a buffered writer is the sequence of lines it has accumulated, and
    writing a buffer into a direct writer that is `d` levels deep shifts
    every line `d` levels further in. */
module Writer {

  datatype Line = Line(depth: nat, text: string)

  /** `writer.line(*texts)` at indentation `depth`. */
  function At(depth: nat, texts: seq<string>): (r: seq<Line>)
    ensures |r| == |texts|
    ensures forall i :: 0 <= i < |r| ==> r[i] == Line(depth, texts[i])
  {
    seq(|texts|, i requires 0 <= i < |texts| => Line(depth, texts[i]))
  }

  /** `buffer.write(writer)` where the writer is `d` levels deep. */
  function Shift(lines: seq<Line>, d: nat): (r: seq<Line>)
    ensures |r| == |lines|
    ensures forall i :: 0 <= i < |r| ==> r[i] == Line(lines[i].depth + d, lines[i].text)
  {
    seq(|lines|, i requires 0 <= i < |lines| => Line(lines[i].depth + d, lines[i].text))
  }

  /** The texts of a run of lines, with indentation dropped. */
  function Texts(lines: seq<Line>): (r: seq<string>)
    ensures |r| == |lines|
    ensures forall i :: 0 <= i < |r| ==> r[i] == lines[i].text
  {
    seq(|lines|, i requires 0 <= i < |lines| => lines[i].text)
  }

  /** Flattening of per-entity outputs written one after the other. */
  function Concat(blocks: seq<seq<Line>>): seq<Line>
    decreases |blocks|
  {
    if |blocks| == 0 then [] else blocks[0] + Concat(blocks[1..])
  }

  /** Shifting distributes over concatenation, so writing two buffers one
      after the other is writing their concatenation. */
  lemma ShiftAppend(a: seq<Line>, b: seq<Line>, d: nat)
    ensures Shift(a + b, d) == Shift(a, d) + Shift(b, d)
  {
  }

  /** Nested indentation adds up. */
  lemma ShiftShift(a: seq<Line>, d1: nat, d2: nat)
    ensures Shift(Shift(a, d1), d2) == Shift(a, d1 + d2)
  {
  }

  /** Shifting never changes the text of a line. */
  lemma ShiftKeepsTexts(a: seq<Line>, d: nat)
    ensures Texts(Shift(a, d)) == Texts(a)
  {
  }

  /** Where each part lands in `a + [o] + b + [c] + e`. */
  lemma Layout<T>(a: seq<T>, o: T, b: seq<T>, c: T, e: seq<T>)
    ensures var ls := a + [o] + b + [c] + e;
      && |ls| == |a| + |b| + |e| + 2
      && (forall i :: 0 <= i < |a| ==> ls[i] == a[i])
      && ls[|a|] == o
      && (forall k :: 0 <= k < |b| ==> ls[|a| + 1 + k] == b[k])
      && ls[|a| + 1 + |b|] == c
      && (forall i :: 0 <= i < |e| ==> ls[|a| + 2 + |b| + i] == e[i])
  {
  }

  /** Appending `x` inside a run that ends with `tail` inserts it just
      before `tail`. */
  lemma InsertBefore<T>(pre: seq<T>, w: seq<T>, x: seq<T>, tail: seq<T>)
    ensures var out := pre + w + tail;
      pre + (w + x) + tail == out[..|out| - |tail|] + x + tail
  {
    var out := pre + w + tail;
    assert out[..|out| - |tail|] == pre + w;
  }

  /** A slice past the first part of a concatenation is a slice of the
      second part. */
  lemma SliceRight<T>(a: seq<T>, b: seq<T>, lo: int, hi: int)
    requires |a| <= lo <= hi <= |a| + |b|
    ensures (a + b)[lo..hi] == b[lo - |a|..hi - |a|]
  {
  }

  /** Where the three parts of `a + b + c` land. */
  lemma Slices3<T>(a: seq<T>, b: seq<T>, c: seq<T>)
    ensures var s := a + b + c;
      && s[..|a|] == a
      && s[|a|..|a| + |b|] == b
      && s[|a| + |b|..] == c
  {
    var s := a + b + c;
    assert s[..|a|] == a;
  }

  /** Where the four parts of `a + b + c + d` land. */
  lemma Slices4<T>(a: seq<T>, b: seq<T>, c: seq<T>, d: seq<T>)
    ensures var s := a + b + c + d;
      && s[..|a|] == a
      && s[|a|..|a| + |b|] == b
      && s[|a| + |b|..|a| + |b| + |c|] == c
      && s[|a| + |b| + |c|..] == d
  {
    var s := a + b + c + d;
    assert s == ((a + b) + c) + d;
    assert s[..|a|] == a;
  }
}
