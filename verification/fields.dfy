/**
 `write_fields_comparison` and `compare_fields`: the JSON-level diff used by
 the generic mismatch messages, as a sequence of abstract events. Objects are
 walked by sorted key, a missing counterpart is read as `null`, and arrays are
 walked by index with the actual side's extra elements reported after.
 */
module Fields {
  datatype Json =
    | Null
    | Bool(b: bool)
    | Number(n: int)
    | Str(s: string)
    | Array(items: seq<Json>)
    | Object(fields: seq<Field>)

  datatype Field = Field(key: string, value: Json)

  predicate IsContainer(j: Json) {
    j.Array? || j.Object?
  }

  // ---------------------------------------------------------------------------
  // Keys and lookup
  // ---------------------------------------------------------------------------

  predicate DistinctKeys(fs: seq<Field>) {
    forall i, j :: 0 <= i < j < |fs| ==> fs[i].key != fs[j].key
  }

  /** A JSON value as serde produces it: no object repeats a key. */
  predicate WellFormed(j: Json) {
    match j
    case Array(xs) => forall i :: 0 <= i < |xs| ==> WellFormed(xs[i])
    case Object(fs) => DistinctKeys(fs) && forall i :: 0 <= i < |fs| ==> WellFormed(fs[i].value)
    case _ => true
  }

  function KeySet(fs: seq<Field>): set<string> {
    set i | 0 <= i < |fs| :: fs[i].key
  }

  function Find(fs: seq<Field>, k: string): (r: Json)
    ensures k !in KeySet(fs) ==> r == Null
    decreases |fs|
  {
    if fs == [] then Null
    else if fs[0].key == k then fs[0].value
    else
      assert KeySet(fs) == {fs[0].key} + KeySet(fs[1..]) by {
        assert forall i :: 1 <= i < |fs| ==> fs[i] == fs[1..][i - 1];
        assert forall i :: 0 <= i < |fs| - 1 ==> fs[1..][i] == fs[i + 1];
      }
      Find(fs[1..], k)
  }

  lemma {:induction false} FindDistinct(fs: seq<Field>, i: nat)
    requires DistinctKeys(fs) && i < |fs|
    ensures Find(fs, fs[i].key) == fs[i].value
    decreases |fs|
  {
    if i > 0 {
      assert fs[1..][i - 1] == fs[i];
      FindDistinct(fs[1..], i - 1);
    }
  }

  /** `actual.get(key)`, with `null` for a missing key or a non-object. */
  function Get(a: Json, k: string): Json {
    if a.Object? then Find(a.fields, k) else Null
  }

  /** `actual.get(i)`, with `null` for a missing index or a non-array. */
  function GetIndex(a: Json, i: nat): Json {
    if a.Array? && i < |a.items| then a.items[i] else Null
  }

  // ---------------------------------------------------------------------------
  // sort_keys
  // ---------------------------------------------------------------------------

  /** Lexicographic order on keys, character by character. */
  predicate KeyLe(a: string, b: string)
    decreases |a|
  {
    a == [] || (b != [] && (a[0] < b[0] || (a[0] == b[0] && KeyLe(a[1..], b[1..]))))
  }

  lemma {:induction false} KeyLeTotal(a: string, b: string)
    ensures KeyLe(a, b) || KeyLe(b, a)
    decreases |a|
  {
    if a != [] && b != [] && a[0] == b[0] {
      KeyLeTotal(a[1..], b[1..]);
    }
  }

  predicate SortedByKey(fs: seq<Field>) {
    forall i :: 0 < i < |fs| ==> KeyLe(fs[i - 1].key, fs[i].key)
  }

  function InsertByKey(f: Field, fs: seq<Field>): (r: seq<Field>)
    requires SortedByKey(fs)
    ensures SortedByKey(r)
    ensures multiset(r) == multiset(fs) + multiset{f}
    ensures r[0] == f || (fs != [] && r[0] == fs[0])
    decreases |fs|
  {
    if fs == [] || KeyLe(f.key, fs[0].key) then [f] + fs
    else
      KeyLeTotal(f.key, fs[0].key);
      var rest := InsertByKey(f, fs[1..]);
      assert fs == [fs[0]] + fs[1..];
      [fs[0]] + rest
  }

  /** `sort_keys`: the same fields, in key order. */
  function SortByKey(fs: seq<Field>): (r: seq<Field>)
    ensures SortedByKey(r)
    ensures multiset(r) == multiset(fs)
    ensures |r| == |fs|
    decreases |fs|
  {
    if fs == [] then []
    else
      assert fs == [fs[0]] + fs[1..];
      InsertByKey(fs[0], SortByKey(fs[1..]))
  }

  lemma SortedMember(fs: seq<Field>, i: nat)
    requires i < |SortByKey(fs)|
    ensures SortByKey(fs)[i] in fs
  {
    assert SortByKey(fs)[i] in multiset(SortByKey(fs));
  }

  // ---------------------------------------------------------------------------
  // Events
  // ---------------------------------------------------------------------------

  datatype FieldEvent =
    /** `key: value` for a value equal on both sides. */
    | Match(indent: nat, key: string, value: Json)
    /** `key:` with the `Expected:` and `Actual:` values. */
    | Mismatch(indent: nat, key: string, expected: Json, actual: Json)
    /** `{` or `[`, labelled with the key except at the outermost level. */
    | OpenObject(indent: nat, heading: string)
    | CloseObject(indent: nat)
    | OpenArray(indent: nat, heading: string)
    | CloseArray(indent: nat)

  predicate NoMismatch(ev: seq<FieldEvent>) {
    forall i :: 0 <= i < |ev| ==> !ev[i].Mismatch?
  }

  /** `compare_fields`. */
  function CompareFields(indent: nat, key: string, e: Json, a: Json): (ev: seq<FieldEvent>)
    ensures |ev| == 1 && ev[0].indent == indent
    ensures ev[0].Match? <==> e == a
    ensures ev[0].Match? ==> ev[0] == Match(indent, key, e)
    ensures ev[0].Mismatch? ==> ev[0] == Mismatch(indent, key, e, a)
  {
    if e == a then [Match(indent, key, e)] else [Mismatch(indent, key, e, a)]
  }

  function Label(name: string, indent: nat): string {
    if indent == 0 then "" else name
  }

  /** `write_fields_comparison`. */
  function WriteFields(name: string, e: Json, a: Json, indent: nat): (ev: seq<FieldEvent>)
    ensures |ev| >= 1
    decreases e, 2, 0
  {
    match e
    case Object(fs) =>
      [OpenObject(indent, Label(name, indent))]
      + ExpectedFields(e, 0, a, indent)
      + ActualOnly(a, KeySet(fs), indent)
      + [CloseObject(indent)]
    case Array(xs) =>
      [OpenArray(indent, Label(name, indent))]
      + Elements(name, e, 0, a, indent)
      + ExtraElements(name, |xs|, a, indent)
      + [CloseArray(indent)]
    case _ => CompareFields(indent + 1, name, e, a)
  }

  /** The events of one expected field against the actual object's value. */
  function FieldEvents(f: Field, a: Json, indent: nat): seq<FieldEvent>
    decreases f, 0, 0
  {
    var actual := Get(a, f.key);
    if IsContainer(f.value) then WriteFields(f.key, f.value, actual, indent + 1)
    else CompareFields(indent + 1, f.key, f.value, actual)
  }

  /** The expected object's fields from position `i` of the sorted order. */
  function ExpectedFields(e: Json, i: nat, a: Json, indent: nat): seq<FieldEvent>
    requires e.Object?
    decreases e, 1, |e.fields| - i
  {
    var sorted := SortByKey(e.fields);
    if i >= |sorted| then []
    else
      SortedMember(e.fields, i);
      FieldEvents(sorted[i], a, indent) + ExpectedFields(e, i + 1, a, indent)
  }

  /** Fields only the actual object has, in sorted order, against `null`. */
  function ActualOnly(a: Json, expectedKeys: set<string>, indent: nat): seq<FieldEvent> {
    if a.Object? then Unexpected(SortByKey(a.fields), expectedKeys, indent) else []
  }

  function Unexpected(fs: seq<Field>, expectedKeys: set<string>, indent: nat): seq<FieldEvent>
    decreases |fs|
  {
    if fs == [] then []
    else
      (if fs[0].key in expectedKeys then [] else CompareFields(indent + 1, fs[0].key, Null, fs[0].value))
      + Unexpected(fs[1..], expectedKeys, indent)
  }

  /** The expected array's elements from index `i`, each against the actual
      element at that index, under the array's own name. */
  function Elements(name: string, e: Json, i: nat, a: Json, indent: nat): seq<FieldEvent>
    requires e.Array?
    decreases e, 1, |e.items| - i
  {
    if i >= |e.items| then []
    else WriteFields(name, e.items[i], GetIndex(a, i), indent + 1) + Elements(name, e, i + 1, a, indent)
  }

  /** The actual array's elements from index `i` on, each against `null`: what
      `write_fields_comparison` renders for a `null` expected value. */
  function ExtraElements(name: string, i: nat, a: Json, indent: nat): seq<FieldEvent>
    decreases if a.Array? then |a.items| - i else 0
  {
    if a.Array? && i < |a.items| then
      CompareFields(indent + 2, name, Null, a.items[i]) + ExtraElements(name, i + 1, a, indent)
    else []
  }

  /** A scalar at the top is one comparison line, a match exactly when the
      two values are equal. */
  lemma ScalarTopIsOneLine(name: string, e: Json, a: Json, indent: nat)
    requires !IsContainer(e)
    ensures |WriteFields(name, e, a, indent)| == 1
    ensures WriteFields(name, e, a, indent)[0].Match? <==> e == a
  {
  }

  lemma {:induction false} ElementsContain(name: string, e: Json, j: nat, i: nat, a: Json, indent: nat, x: FieldEvent)
    requires e.Array? && j <= i < |e.items|
    requires x in WriteFields(name, e.items[i], GetIndex(a, i), indent + 1)
    ensures x in Elements(name, e, j, a, indent)
    decreases i - j
  {
    if j < i {
      ElementsContain(name, e, j + 1, i, a, indent, x);
    }
  }

  /** A scalar element of the expected array is compared with the actual
      element at the same index, or with `null` when the actual side has none. */
  lemma ArrayElementCompared(name: string, xs: seq<Json>, a: Json, indent: nat, i: nat)
    requires i < |xs| && !IsContainer(xs[i])
    ensures CompareFields(indent + 2, name, xs[i], GetIndex(a, i))[0] in WriteFields(name, Array(xs), a, indent)
    ensures !(a.Array? && i < |a.items|) ==>
      CompareFields(indent + 2, name, xs[i], Null)[0] in WriteFields(name, Array(xs), a, indent)
  {
    var e := Array(xs);
    var x := CompareFields(indent + 2, name, xs[i], GetIndex(a, i))[0];
    ElementsContain(name, e, 0, i, a, indent, x);
    var ev := WriteFields(name, e, a, indent);
    var body := Elements(name, e, 0, a, indent);
    assert ev == [OpenArray(indent, Label(name, indent))] + body + ExtraElements(name, |xs|, a, indent) + [CloseArray(indent)];
  }

  lemma ExtraElementIsNullComparison(name: string, x: Json, indent: nat)
    ensures WriteFields(name, Null, x, indent + 1) == CompareFields(indent + 2, name, Null, x)
  {
  }

  lemma {:induction false} ExtraContain(name: string, j: nat, i: nat, a: Json, indent: nat)
    requires a.Array? && j <= i < |a.items|
    ensures CompareFields(indent + 2, name, Null, a.items[i])[0] in ExtraElements(name, j, a, indent)
    decreases i - j
  {
    if j < i {
      ExtraContain(name, j + 1, i, a, indent);
    }
  }

  /** Every element the actual array has beyond the expected one is written
      as a comparison against `null`, a mismatch unless it is `null` itself. */
  lemma ExtraElementCompared(name: string, xs: seq<Json>, ys: seq<Json>, indent: nat, i: nat)
    requires |xs| <= i < |ys|
    ensures CompareFields(indent + 2, name, Null, ys[i])[0] in WriteFields(name, Array(xs), Array(ys), indent)
    ensures ys[i] != Null ==> Mismatch(indent + 2, name, Null, ys[i]) in WriteFields(name, Array(xs), Array(ys), indent)
  {
    var e, a := Array(xs), Array(ys);
    ExtraContain(name, |xs|, i, a, indent);
    var extra := ExtraElements(name, |xs|, a, indent);
    assert WriteFields(name, e, a, indent)
      == [OpenArray(indent, Label(name, indent))] + Elements(name, e, 0, a, indent) + extra + [CloseArray(indent)];
  }

  // ---------------------------------------------------------------------------
  // What the walk reports
  // ---------------------------------------------------------------------------

  lemma NoMismatchAppend(a: seq<FieldEvent>, b: seq<FieldEvent>)
    ensures NoMismatch(a + b) <==> NoMismatch(a) && NoMismatch(b)
  {
    if NoMismatch(a + b) {
      assert forall i :: 0 <= i < |a| ==> (a + b)[i] == a[i];
      assert forall i :: 0 <= i < |b| ==> (a + b)[|a| + i] == b[i];
    }
  }

  lemma {:induction false} UnexpectedAllKnown(fs: seq<Field>, known: set<string>, indent: nat)
    requires forall i :: 0 <= i < |fs| ==> fs[i].key in known
    ensures Unexpected(fs, known, indent) == []
    decreases |fs|
  {
    if fs != [] {
      UnexpectedAllKnown(fs[1..], known, indent);
    }
  }

  /** Comparing a value with itself reports no mismatch. */
  lemma {:induction false} SelfComparisonQuiet(name: string, e: Json, indent: nat)
    requires WellFormed(e)
    ensures NoMismatch(WriteFields(name, e, e, indent))
    decreases e, 2, 0
  {
    match e
    case Object(fs) =>
      var open, close := [OpenObject(indent, Label(name, indent))], [CloseObject(indent)];
      var body := ExpectedFields(e, 0, e, indent);
      SelfFieldsQuiet(e, 0, indent);
      var sorted := SortByKey(fs);
      forall i | 0 <= i < |sorted| ensures sorted[i].key in KeySet(fs) {
        SortedMember(fs, i);
      }
      UnexpectedAllKnown(sorted, KeySet(fs), indent);
      NoMismatchAppend(open, body);
      NoMismatchAppend(open + body, []);
      NoMismatchAppend(open + body + [], close);
    case Array(xs) =>
      var open, close := [OpenArray(indent, Label(name, indent))], [CloseArray(indent)];
      var body := Elements(name, e, 0, e, indent);
      SelfElementsQuiet(name, e, 0, indent);
      NoMismatchAppend(open, body);
      NoMismatchAppend(open + body, []);
      NoMismatchAppend(open + body + [], close);
    case _ =>
  }

  lemma {:induction false} SelfFieldsQuiet(e: Json, i: nat, indent: nat)
    requires e.Object? && WellFormed(e)
    ensures NoMismatch(ExpectedFields(e, i, e, indent))
    decreases e, 1, |e.fields| - i
  {
    var sorted := SortByKey(e.fields);
    if i < |sorted| {
      SortedMember(e.fields, i);
      var f := sorted[i];
      var k :| 0 <= k < |e.fields| && e.fields[k] == f;
      FindDistinct(e.fields, k);
      assert Get(e, f.key) == f.value;
      if IsContainer(f.value) {
        SelfComparisonQuiet(f.key, f.value, indent + 1);
      }
      SelfFieldsQuiet(e, i + 1, indent);
      NoMismatchAppend(FieldEvents(f, e, indent), ExpectedFields(e, i + 1, e, indent));
    }
  }

  lemma {:induction false} SelfElementsQuiet(name: string, e: Json, i: nat, indent: nat)
    requires e.Array? && WellFormed(e)
    ensures NoMismatch(Elements(name, e, i, e, indent))
    decreases e, 1, |e.items| - i
  {
    if i < |e.items| {
      SelfComparisonQuiet(name, e.items[i], indent + 1);
      SelfElementsQuiet(name, e, i + 1, indent);
      NoMismatchAppend(WriteFields(name, e.items[i], e.items[i], indent + 1), Elements(name, e, i + 1, e, indent));
    }
  }

  /** The converse fails: a container against a value of another kind shows
      no mismatch when the container is empty. */
  lemma EmptyArrayAgainstNumberQuiet()
    ensures Array([]) != Number(5)
    ensures WriteFields("items", Array([]), Number(5), 1) == [OpenArray(1, "items"), CloseArray(1)]
    ensures NoMismatch(WriteFields("items", Array([]), Number(5), 1))
  {
  }

  lemma {:induction false} ExpectedFieldsContain(e: Json, i: nat, j: nat, a: Json, indent: nat, x: FieldEvent)
    requires e.Object? && i <= j < |SortByKey(e.fields)|
    requires x in FieldEvents(SortByKey(e.fields)[j], a, indent)
    ensures x in ExpectedFields(e, i, a, indent)
    decreases j - i
  {
    if i < j {
      ExpectedFieldsContain(e, i + 1, j, a, indent, x);
    }
  }

  /** Every scalar field of the expected object is compared, under its key,
      with the actual object's value for that key, or with `null` when the
      actual side has no such key. */
  lemma ScalarFieldCompared(name: string, fs: seq<Field>, a: Json, indent: nat, f: Field)
    requires f in fs && !IsContainer(f.value)
    ensures CompareFields(indent + 1, f.key, f.value, Get(a, f.key))[0] in WriteFields(name, Object(fs), a, indent)
    ensures a.Object? && f.key !in KeySet(a.fields) ==>
      CompareFields(indent + 1, f.key, f.value, Null)[0] in WriteFields(name, Object(fs), a, indent)
  {
    var e := Object(fs);
    var sorted := SortByKey(fs);
    assert f in multiset(sorted);
    var j :| 0 <= j < |sorted| && sorted[j] == f;
    ExpectedFieldsContain(e, 0, j, a, indent, CompareFields(indent + 1, f.key, f.value, Get(a, f.key))[0]);
  }

  lemma {:induction false} UnexpectedContains(fs: seq<Field>, known: set<string>, indent: nat, j: nat)
    requires j < |fs| && fs[j].key !in known
    ensures CompareFields(indent + 1, fs[j].key, Null, fs[j].value)[0] in Unexpected(fs, known, indent)
    decreases |fs|
  {
    if j > 0 {
      assert fs[1..][j - 1] == fs[j];
      UnexpectedContains(fs[1..], known, indent, j - 1);
    }
  }

  /** A field only the actual object has is reported against `null`. */
  lemma ActualOnlyFieldReported(name: string, fs: seq<Field>, afs: seq<Field>, indent: nat, g: Field)
    requires g in afs && g.key !in KeySet(fs)
    ensures CompareFields(indent + 1, g.key, Null, g.value)[0] in WriteFields(name, Object(fs), Object(afs), indent)
  {
    var sorted := SortByKey(afs);
    assert g in multiset(sorted);
    var j :| 0 <= j < |sorted| && sorted[j] == g;
    UnexpectedContains(sorted, KeySet(fs), indent, j);
  }
}
