/**
 The generic `Compare` renderers of the harness, as a generator of abstract
 diff events rather than coloured text. `cmp_fallback` gives one event for a
 whole value; `Position`, `Range`, `Option` and `Vec` descend into their parts;
 `HashMap` falls back to the whole value.
 */
module Compare {
  import opened Base
  import opened Lsp
  import Text

  /** The values the generic renderers meet: scalars (unsigned and signed
      integers, strings), positions, ranges, options, vectors and hash maps. */
  datatype Val =
    | Num(n: int)
    | Str(s: string)
    | Pos(p: Position)
    | Rng(r: Range)
    | Opt(o: Option<Val>)
    | Vec(items: seq<Val>)
    | Dict(entries: map<string, string>)

  datatype Color = Green | Red

  datatype Shape = PositionShape | RangeShape | ListShape

  datatype Side = ExpectedSide | ActualSide

  datatype Event =
    /** One line showing a value that matched (or a surplus element). */
    | Same(depth: nat, name: Option<string>, value: Val, color: Color)
    /** The `Expected:` / `Actual:` pair of a value that did not match. */
    | Differ(depth: nat, name: Option<string>, expected: Val, actual: Val, color: Color)
    /** The header of a structure whose parts follow one level deeper. */
    | Open(depth: nat, name: Option<string>, shape: Shape)
    | Close(depth: nat)
    /** `Additional actual items:` or `Additional expected items:`. */
    | Surplus(depth: nat, side: Side)

  function ColorOr(c: Option<Color>, default: Color): Color {
    if c.Some? then c.value else default
  }

  /** No event reports a difference or a surplus. */
  predicate Quiet(ev: seq<Event>) {
    forall i :: 0 <= i < |ev| ==> !ev[i].Differ? && !ev[i].Surplus?
  }

  predicate DeepAtLeast(ev: seq<Event>, depth: nat) {
    forall i :: 0 <= i < |ev| ==> ev[i].depth >= depth
  }

  function Opens(ev: seq<Event>): nat
    decreases |ev|
  {
    if ev == [] then 0 else (if ev[0].Open? then 1 else 0) + Opens(ev[1..])
  }

  function Closes(ev: seq<Event>): nat
    decreases |ev|
  {
    if ev == [] then 0 else (if ev[0].Close? then 1 else 0) + Closes(ev[1..])
  }

  lemma {:induction false} CountsAppend(a: seq<Event>, b: seq<Event>)
    ensures Opens(a + b) == Opens(a) + Opens(b)
    ensures Closes(a + b) == Closes(a) + Closes(b)
    decreases |a|
  {
    if a != [] {
      assert (a + b)[0] == a[0];
      assert (a + b)[1..] == a[1..] + b;
      CountsAppend(a[1..], b);
    } else {
      assert a + b == b;
    }
  }

  /** Every header has its closing line. */
  predicate Balanced(ev: seq<Event>) {
    Opens(ev) == Closes(ev)
  }

  /** A header and its closing line around a balanced body. */
  lemma Wrap(depth: nat, name: Option<string>, shape: Shape, body: seq<Event>)
    requires Balanced(body) && DeepAtLeast(body, depth)
    ensures var ev := [Open(depth, name, shape)] + body + [Close(depth)];
      Balanced(ev) && DeepAtLeast(ev, depth) && (Quiet(ev) <==> Quiet(body))
  {
    var ev := [Open(depth, name, shape)] + body + [Close(depth)];
    CountsAppend([Open(depth, name, shape)], body);
    CountsAppend([Open(depth, name, shape)] + body, [Close(depth)]);
    assert Opens([Open(depth, name, shape)]) == 1 == Closes([Close(depth)]);
    assert Opens([Close(depth)]) == 0 == Closes([Open(depth, name, shape)]);
    assert forall i :: 0 <= i < |body| ==> ev[i + 1] == body[i];
  }

  /** A single event that neither opens nor closes. */
  lemma Single(ev: seq<Event>)
    requires |ev| == 1 && !ev[0].Open? && !ev[0].Close?
    ensures Balanced(ev)
  {
    assert ev[1..] == [];
  }

  lemma Join(a: seq<Event>, b: seq<Event>, depth: nat)
    requires Balanced(a) && Balanced(b) && DeepAtLeast(a, depth) && DeepAtLeast(b, depth)
    ensures Balanced(a + b) && DeepAtLeast(a + b, depth)
    ensures Quiet(a + b) <==> Quiet(a) && Quiet(b)
  {
    CountsAppend(a, b);
    if Quiet(a + b) {
      assert forall i :: 0 <= i < |a| ==> (a + b)[i] == a[i];
      assert forall i :: 0 <= i < |b| ==> (a + b)[|a| + i] == b[i];
    }
  }

  /** `cmp_fallback`: the whole value, on one line when equal. */
  function Fallback(name: Option<string>, e: Val, a: Val, depth: nat, color: Option<Color>): (ev: seq<Event>)
    ensures |ev| == 1 && (ev[0].Same? || ev[0].Differ?) && ev[0].depth == depth && ev[0].name == name
    ensures ev[0].Same? <==> e == a
    ensures ev[0].Same? ==> ev[0].value == e && ev[0].color == ColorOr(color, Green)
    ensures ev[0].Differ? ==> ev[0].expected == e && ev[0].actual == a && ev[0].color == ColorOr(color, Red)
  {
    if e == a then [Same(depth, name, e, ColorOr(color, Green))]
    else [Differ(depth, name, e, a, ColorOr(color, Red))]
  }

  /** `Position`: a header, then line and character, both labelled with the
      position's own name and at the same depth as the header. */
  function ComparePosition(name: Option<string>, e: Position, a: Position, depth: nat, color: Option<Color>): (ev: seq<Event>)
    ensures Balanced(ev) && DeepAtLeast(ev, depth)
    ensures Quiet(ev) <==> e == a
    ensures |ev| == 4 && ev[0] == Open(depth, name, PositionShape) && ev[3] == Close(depth)
  {
    var l := Fallback(name, Num(e.line), Num(a.line), depth, color);
    var c := Fallback(name, Num(e.character), Num(a.character), depth, color);
    Single(l);
    Single(c);
    Join(l, c, depth);
    Wrap(depth, name, PositionShape, l + c);
    [Open(depth, name, PositionShape)] + (l + c) + [Close(depth)]
  }

  /** `Range`: `start` then `end`, one level deeper. */
  function CompareRange(name: Option<string>, e: Range, a: Range, depth: nat, color: Option<Color>): (ev: seq<Event>)
    ensures Balanced(ev) && DeepAtLeast(ev, depth)
    ensures Quiet(ev) <==> e == a
    ensures |ev| >= 2 && ev[0] == Open(depth, name, RangeShape) && ev[|ev| - 1] == Close(depth)
  {
    var s := ComparePosition(Some("start"), e.start, a.start, depth + 1, color);
    var t := ComparePosition(Some("end"), e.end, a.end, depth + 1, color);
    Join(s, t, depth + 1);
    Wrap(depth, name, RangeShape, s + t);
    [Open(depth, name, RangeShape)] + (s + t) + [Close(depth)]
  }

  // ---------------------------------------------------------------------------
  // Sizes, for termination
  // ---------------------------------------------------------------------------

  function Size(v: Val): nat {
    match v
    case Opt(Some(x)) => 1 + Size(x)
    case Vec(xs) => 1 + SizeSeq(xs)
    case _ => 1
  }

  function SizeSeq(xs: seq<Val>): nat
    decreases xs
  {
    if xs == [] then 0 else Size(xs[0]) + SizeSeq(xs[1..])
  }

  lemma {:induction false} SizeElement(xs: seq<Val>, i: nat)
    requires i < |xs|
    ensures Size(xs[i]) < Size(Vec(xs))
    decreases |xs|
  {
    if i > 0 {
      SizeElement(xs[1..], i - 1);
    }
  }

  function Max(a: nat, b: nat): nat {
    if a < b then b else a
  }

  function Label(i: nat): Option<string> {
    Some("[" + Text.Decimal(i) + "]")
  }

  // ---------------------------------------------------------------------------
  // The generic comparison
  // ---------------------------------------------------------------------------

  function Compare(name: Option<string>, e: Val, a: Val, depth: nat, color: Option<Color>): (ev: seq<Event>)
    ensures Balanced(ev) && DeepAtLeast(ev, depth)
    ensures |ev| >= 1
    decreases Max(Size(e), Size(a)), 3, 0
  {
    match (e, a)
    case (Pos(p), Pos(q)) => ComparePosition(name, p, q, depth, color)
    case (Rng(r), Rng(s)) => CompareRange(name, r, s, depth, color)
    case (Opt(Some(x)), Opt(Some(y))) => Compare(name, x, y, depth, color)
    case (Opt(None), Opt(None)) =>
      Single([Same(depth, name, e, ColorOr(color, Green))]);
      [Same(depth, name, e, ColorOr(color, Green))]
    case (Vec(xs), Vec(ys)) =>
      if xs == ys then
        Single([Same(depth, name, e, ColorOr(color, Green))]);
        [Same(depth, name, e, ColorOr(color, Green))]
      else
        var body := CompareVecBody(xs, ys, depth, color);
        Wrap(depth, name, ListShape, body);
        [Open(depth, name, ListShape)] + body + [Close(depth)]
    case _ =>
      var ev := Fallback(name, e, a, depth, color);
      Single(ev);
      ev
  }

  /** Inside the brackets of two unequal vectors: the common indices, then
      the surplus of the longer side. */
  function CompareVecBody(xs: seq<Val>, ys: seq<Val>, depth: nat, color: Option<Color>): (ev: seq<Event>)
    ensures Balanced(ev) && DeepAtLeast(ev, depth)
    decreases Max(Size(Vec(xs)), Size(Vec(ys))), 2, 0
  {
    var pairs := Pairs(xs, ys, 0, depth + 1, color);
    var rest := SurplusPart(xs, ys, depth, color);
    Join(pairs, rest, depth);
    pairs + rest
  }

  /** Elements `i..min(|xs|, |ys|)` compared pairwise under their index. */
  function Pairs(xs: seq<Val>, ys: seq<Val>, i: nat, depth: nat, color: Option<Color>): (ev: seq<Event>)
    ensures Balanced(ev) && DeepAtLeast(ev, depth)
    decreases Max(Size(Vec(xs)), Size(Vec(ys))), 0, |xs| - i
  {
    if i >= |xs| || i >= |ys| then []
    else
      SizeElement(xs, i);
      SizeElement(ys, i);
      var head := Compare(Label(i), xs[i], ys[i], depth, color);
      var tail := Pairs(xs, ys, i + 1, depth, color);
      Join(head, tail, depth);
      head + tail
  }

  /** The elements the longer side has beyond the shorter one, each compared
      with itself and drawn in the alarm colour. */
  function SurplusPart(xs: seq<Val>, ys: seq<Val>, depth: nat, color: Option<Color>): (ev: seq<Event>)
    ensures Balanced(ev) && DeepAtLeast(ev, depth)
    ensures |xs| == |ys| <==> ev == []
    ensures |xs| != |ys| ==> ev[0] == Surplus(depth, if |xs| < |ys| then ActualSide else ExpectedSide)
    decreases Max(Size(Vec(xs)), Size(Vec(ys))), 1, 0
  {
    if |xs| < |ys| then
      var items := SelfItems(ys, |xs|, depth + 1, Some(ColorOr(color, Red)));
      Single([Surplus(depth, ActualSide)]);
      Join([Surplus(depth, ActualSide)], items, depth);
      [Surplus(depth, ActualSide)] + items
    else if |xs| > |ys| then
      var items := SelfItems(xs, |ys|, depth + 1, Some(ColorOr(color, Red)));
      Single([Surplus(depth, ExpectedSide)]);
      Join([Surplus(depth, ExpectedSide)], items, depth);
      [Surplus(depth, ExpectedSide)] + items
    else []
  }

  function SelfItems(zs: seq<Val>, i: nat, depth: nat, color: Option<Color>): (ev: seq<Event>)
    ensures Balanced(ev) && DeepAtLeast(ev, depth)
    decreases Size(Vec(zs)), 0, |zs| - i
  {
    if i >= |zs| then []
    else
      SizeElement(zs, i);
      var head := Compare(Label(i), zs[i], zs[i], depth, color);
      var tail := SelfItems(zs, i + 1, depth, color);
      Join(head, tail, depth);
      head + tail
  }

  // ---------------------------------------------------------------------------
  // What the events say
  // ---------------------------------------------------------------------------

  /** The comparison reports no difference and no surplus exactly when the
      two values are equal. */
  lemma {:induction false} CompareQuietIffEqual(name: Option<string>, e: Val, a: Val, depth: nat, color: Option<Color>)
    ensures Quiet(Compare(name, e, a, depth, color)) <==> e == a
    decreases Max(Size(e), Size(a)), 3, 0
  {
    match (e, a)
    case (Opt(Some(x)), Opt(Some(y))) =>
      CompareQuietIffEqual(name, x, y, depth, color);
    case (Vec(xs), Vec(ys)) =>
      if xs != ys {
        VecBodyNotQuiet(xs, ys, depth, color);
        Wrap(depth, name, ListShape, CompareVecBody(xs, ys, depth, color));
      }
    case _ =>
  }

  lemma {:induction false} VecBodyNotQuiet(xs: seq<Val>, ys: seq<Val>, depth: nat, color: Option<Color>)
    requires xs != ys
    ensures !Quiet(CompareVecBody(xs, ys, depth, color))
    decreases Max(Size(Vec(xs)), Size(Vec(ys))), 2, 0
  {
    var pairs := Pairs(xs, ys, 0, depth + 1, color);
    var rest := SurplusPart(xs, ys, depth, color);
    Join(pairs, rest, depth);
    if |xs| == |ys| {
      var k :| 0 <= k < |xs| && xs[k] != ys[k];
      PairsQuiet(xs, ys, 0, depth + 1, color);
    }
  }

  /** The first common index compares quietly and so do the later ones
      exactly when the pairs from there on are quiet. */
  lemma PairsQuietStep(xs: seq<Val>, ys: seq<Val>, i: nat, depth: nat, color: Option<Color>)
    requires i < |xs| && i < |ys|
    ensures Quiet(Pairs(xs, ys, i, depth, color)) <==>
      Quiet(Compare(Label(i), xs[i], ys[i], depth, color)) && Quiet(Pairs(xs, ys, i + 1, depth, color))
  {
    SizeElement(xs, i);
    SizeElement(ys, i);
    Join(Compare(Label(i), xs[i], ys[i], depth, color), Pairs(xs, ys, i + 1, depth, color), depth);
  }

  lemma {:induction false} PairsQuiet(xs: seq<Val>, ys: seq<Val>, i: nat, depth: nat, color: Option<Color>)
    ensures Quiet(Pairs(xs, ys, i, depth, color)) ==> forall j :: i <= j < |xs| && j < |ys| ==> xs[j] == ys[j]
    decreases Max(Size(Vec(xs)), Size(Vec(ys))), 0, |xs| - i
  {
    if i < |xs| && i < |ys| && Quiet(Pairs(xs, ys, i, depth, color)) {
      PairsQuietStep(xs, ys, i, depth, color);
      PairsQuiet(xs, ys, i + 1, depth, color);
      SizeElement(xs, i);
      SizeElement(ys, i);
      CompareQuietIffEqual(Label(i), xs[i], ys[i], depth, color);
      assert xs[i] == ys[i];
      assert forall j :: i + 1 <= j < |xs| && j < |ys| ==> xs[j] == ys[j];
    }
  }

  /** Equal vectors give one line and no per-element events. */
  lemma EqualVectorsOneLine(name: Option<string>, xs: seq<Val>, depth: nat, color: Option<Color>)
    ensures Compare(name, Vec(xs), Vec(xs), depth, color) == [Same(depth, name, Vec(xs), ColorOr(color, Green))]
  {
  }

  /** An event shallower than every event of a stream is not one of them. */
  lemma ShallowNotIn(ev: seq<Event>, depth: nat, x: Event)
    requires DeepAtLeast(ev, depth) && x.depth < depth
    ensures x !in ev
  {
  }

  /** The surplus part holds a surplus marker at its own depth exactly when
      that side is the longer one. */
  lemma SurplusMarker(xs: seq<Val>, ys: seq<Val>, depth: nat, color: Option<Color>, side: Side)
    ensures Surplus(depth, side) in SurplusPart(xs, ys, depth, color)
      <==> (side == ActualSide && |xs| < |ys|) || (side == ExpectedSide && |xs| > |ys|)
  {
    var rest := SurplusPart(xs, ys, depth, color);
    if |xs| != |ys| {
      var longer := if |xs| < |ys| then ys else xs;
      var items := SelfItems(longer, if |xs| < |ys| then |xs| else |ys|, depth + 1, Some(ColorOr(color, Red)));
      assert rest == [rest[0]] + items;
      ShallowNotIn(items, depth + 1, Surplus(depth, side));
    }
  }

  /** Unequal vectors are bracketed, and a surplus section at the vector's
      own depth appears exactly when the lengths differ, naming the longer side. */
  lemma UnequalVectorsShape(name: Option<string>, xs: seq<Val>, ys: seq<Val>, depth: nat, color: Option<Color>, side: Side)
    requires xs != ys
    ensures var ev := Compare(name, Vec(xs), Vec(ys), depth, color);
      && ev[0] == Open(depth, name, ListShape)
      && ev[|ev| - 1] == Close(depth)
      && (Surplus(depth, side) in ev <==> (side == ActualSide && |xs| < |ys|) || (side == ExpectedSide && |xs| > |ys|))
  {
    var pairs := Pairs(xs, ys, 0, depth + 1, color);
    var rest := SurplusPart(xs, ys, depth, color);
    var ev := Compare(name, Vec(xs), Vec(ys), depth, color);
    var body := CompareVecBody(xs, ys, depth, color);
    assert body == pairs + rest;
    assert ev == [Open(depth, name, ListShape)] + body + [Close(depth)];
    ShallowNotIn(pairs, depth + 1, Surplus(depth, side));
    SurplusMarker(xs, ys, depth, color, side);
  }

  /** `Option`: two `Some`s compare their contents under the same name and
      depth, two `None`s give one matching line, anything else (including a
      mixed pair) falls back to the whole value; a `HashMap` always falls back. */
  lemma ShallowCases(name: Option<string>, x: Val, y: Val, depth: nat, color: Option<Color>,
                     m1: map<string, string>, m2: map<string, string>)
    ensures Compare(name, Opt(Some(x)), Opt(Some(y)), depth, color) == Compare(name, x, y, depth, color)
    ensures Compare(name, Opt(None), Opt(None), depth, color) == [Same(depth, name, Opt(None), ColorOr(color, Green))]
    ensures Compare(name, Opt(Some(x)), Opt(None), depth, color) == Fallback(name, Opt(Some(x)), Opt(None), depth, color)
    ensures Compare(name, Opt(None), Opt(Some(y)), depth, color) == Fallback(name, Opt(None), Opt(Some(y)), depth, color)
    ensures Compare(name, Dict(m1), Dict(m2), depth, color) == Fallback(name, Dict(m1), Dict(m2), depth, color)
  {
  }

  /** Flattening of a sequence of event lists. */
  function Concat(parts: seq<seq<Event>>): seq<Event>
    decreases |parts|
  {
    if parts == [] then [] else parts[0] + Concat(parts[1..])
  }

  /** The element comparisons `cmp` of indices `i..min(|xs|, |ys|)`, in
      order, each labelled with its index. */
  function Tabulate(cmp: (Option<string>, Val, Val) -> seq<Event>, xs: seq<Val>, ys: seq<Val>, i: nat): (parts: seq<seq<Event>>)
    ensures |parts| == (if i < |xs| && i < |ys| then Max(0, (if |xs| < |ys| then |xs| else |ys|) - i) else 0)
  {
    var n := if i < |xs| && i < |ys| then (if |xs| < |ys| then |xs| else |ys|) - i else 0;
    seq(n, k requires 0 <= k < n => cmp(Label(i + k), xs[i + k], ys[i + k]))
  }

  /** The comparisons from index `i` are the one at `i` followed by those from `i + 1`. */
  lemma TabulateStep(cmp: (Option<string>, Val, Val) -> seq<Event>, xs: seq<Val>, ys: seq<Val>, i: nat)
    requires i < |xs| && i < |ys|
    ensures Tabulate(cmp, xs, ys, i) == [cmp(Label(i), xs[i], ys[i])] + Tabulate(cmp, xs, ys, i + 1)
  {
    var parts, next := Tabulate(cmp, xs, ys, i), Tabulate(cmp, xs, ys, i + 1);
    forall k | 0 <= k < |next| ensures parts[k + 1] == next[k] {
    }
  }

  /** The common part of two vectors, as an independent description: the
      comparison of each common index from `i` on, in order. */
  function IndexComparisons(xs: seq<Val>, ys: seq<Val>, i: nat, depth: nat, color: Option<Color>): seq<seq<Event>> {
    Tabulate((name, x, y) => Compare(name, x, y, depth, color), xs, ys, i)
  }

  /** The pairwise walk compares exactly the common indices, in order. */
  lemma {:induction false} PairsAreIndexComparisons(xs: seq<Val>, ys: seq<Val>, i: nat, depth: nat, color: Option<Color>)
    ensures Pairs(xs, ys, i, depth, color) == Concat(IndexComparisons(xs, ys, i, depth, color))
    decreases |xs| - i
  {
    if i < |xs| && i < |ys| {
      var head := Compare(Label(i), xs[i], ys[i], depth, color);
      var next := IndexComparisons(xs, ys, i + 1, depth, color);
      PairsAreIndexComparisons(xs, ys, i + 1, depth, color);
      TabulateStep((name, x, y) => Compare(name, x, y, depth, color), xs, ys, i);
      assert ([head] + next)[1..] == next;
      assert Pairs(xs, ys, i, depth, color) == head + Pairs(xs, ys, i + 1, depth, color);
    } else {
      assert IndexComparisons(xs, ys, i, depth, color) == [];
    }
  }

  /** The surplus walk compares each remaining element of one side with
      itself, in order, each labelled with its index. */
  lemma {:induction false} SelfItemsAreSelfComparisons(zs: seq<Val>, i: nat, depth: nat, color: Option<Color>)
    ensures SelfItems(zs, i, depth, color) == Concat(IndexComparisons(zs, zs, i, depth, color))
    decreases |zs| - i
  {
    if i < |zs| {
      var head := Compare(Label(i), zs[i], zs[i], depth, color);
      var next := IndexComparisons(zs, zs, i + 1, depth, color);
      SelfItemsAreSelfComparisons(zs, i + 1, depth, color);
      TabulateStep((name, x, y) => Compare(name, x, y, depth, color), zs, zs, i);
      assert ([head] + next)[1..] == next;
      assert SelfItems(zs, i, depth, color) == head + SelfItems(zs, i + 1, depth, color);
    } else {
      assert IndexComparisons(zs, zs, i, depth, color) == [];
    }
  }

  /** After its marker, the surplus section holds the elements of the longer
      side from the shorter length on, each compared with itself one level
      deeper and in the alarm colour unless a colour is imposed. */
  lemma SurplusPartItems(xs: seq<Val>, ys: seq<Val>, depth: nat, color: Option<Color>)
    requires |xs| != |ys|
    ensures var longer, shorter := if |xs| < |ys| then ys else xs, if |xs| < |ys| then |xs| else |ys|;
      SurplusPart(xs, ys, depth, color)[1..]
        == Concat(IndexComparisons(longer, longer, shorter, depth + 1, Some(ColorOr(color, Red))))
  {
    var longer, shorter := if |xs| < |ys| then ys else xs, if |xs| < |ys| then |xs| else |ys|;
    var red := Some(ColorOr(color, Red));
    var rest := SurplusPart(xs, ys, depth, color);
    assert rest[1..] == SelfItems(longer, shorter, depth + 1, red);
    SelfItemsAreSelfComparisons(longer, shorter, depth + 1, red);
  }

  lemma UnequalVectorsUnfold(name: Option<string>, xs: seq<Val>, ys: seq<Val>, depth: nat, color: Option<Color>)
    requires xs != ys
    ensures Compare(name, Vec(xs), Vec(ys), depth, color)
      == [Open(depth, name, ListShape)] + (Pairs(xs, ys, 0, depth + 1, color) + SurplusPart(xs, ys, depth, color)) + [Close(depth)]
  {
    assert CompareVecBody(xs, ys, depth, color) == Pairs(xs, ys, 0, depth + 1, color) + SurplusPart(xs, ys, depth, color);
  }

  /** Two unequal vectors: an opening bracket, the comparisons of the common
      indices one level deeper, the surplus section, and a closing bracket. */
  lemma CompareUnequalVectors(name: Option<string>, xs: seq<Val>, ys: seq<Val>, depth: nat, color: Option<Color>)
    requires xs != ys
    ensures Compare(name, Vec(xs), Vec(ys), depth, color)
      == [Open(depth, name, ListShape)] + Concat(IndexComparisons(xs, ys, 0, depth + 1, color))
         + SurplusPart(xs, ys, depth, color) + [Close(depth)]
  {
    UnequalVectorsUnfold(name, xs, ys, depth, color);
    PairsAreIndexComparisons(xs, ys, 0, depth + 1, color);
  }
}
