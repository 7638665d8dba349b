/** The slice of MongoDB semantics the routes rely on: operator field names
    and the `$set` update operator applied to one stored document. A `$set`
    field name is a dotted path; each component names a field of an object
    or, written as a decimal index, an element of an array. Paths that hold
    an empty component, or of which one is a prefix of another, are refused
    before any document is looked at; the rest are written into the matched
    document, where a write that cannot be carried out refuses the whole
    update. */
module Mongo {
  import opened Util
  import opened Js

  /** A field name the server reads as an operator. */
  predicate IsOperator(k: string) {
    |k| > 0 && k[0] == '$'
  }

  type Path = seq<string>

  // ------------------------------------------------------------- dotted paths

  /** A field name split at every dot: "monday.0" is ["monday", "0"]. */
  function Components(k: string): (p: Path)
    ensures |p| >= 1 && forall i :: 0 <= i < |p| ==> '.' !in p[i]
    decreases |k|
  {
    match SplitAtFirst(k, '.')
    case None => [k]
    case Some((head, rest)) => [head] + Components(rest)
  }

  /** The components joined back with dots. */
  function JoinDots(p: Path): string
    requires |p| >= 1
    decreases |p|
  {
    if |p| == 1 then p[0] else p[0] + "." + JoinDots(p[1..])
  }

  lemma {:induction false} ComponentsRoundTrip(k: string)
    ensures JoinDots(Components(k)) == k
    decreases |k|
  {
    match SplitAtFirst(k, '.')
    case None =>
    case Some((head, rest)) =>
      ComponentsRoundTrip(rest);
      assert Components(k)[1..] == Components(rest);
  }

  lemma {:induction false} JoinRoundTrip(p: Path)
    requires |p| >= 1 && forall i :: 0 <= i < |p| ==> '.' !in p[i]
    ensures Components(JoinDots(p)) == p
    decreases |p|
  {
    if |p| > 1 {
      JoinRoundTrip(p[1..]);
      SplitAtFirstOf(p[0], '.', JoinDots(p[1..]));
      assert p[0] + "." + JoinDots(p[1..]) == p[0] + ['.'] + JoinDots(p[1..]);
      assert p == [p[0]] + p[1..];
    }
  }

  /** Different field names are different paths. */
  lemma ComponentsInjective(a: string, b: string)
    requires Components(a) == Components(b)
    ensures a == b
  {
    ComponentsRoundTrip(a);
    ComponentsRoundTrip(b);
  }

  predicate IsPrefix(p: Path, q: Path) {
    |p| <= |q| && q[..|p|] == p
  }

  /** A decimal array index as the server writes it, without leading zeros. */
  predicate IsIndex(c: string) {
    |c| > 0 && AllDigits(c) && NatToString(DecimalValue(c)) == c
  }

  // ------------------------------------------------------------- the update

  /** The checks made when the update is parsed, before any document is
      matched: no empty component (so no empty field name either), and no
      two fields of which one names a part of the other. */
  predicate ValidPaths(upd: map<string, JsValue>) {
    && (forall k :: k in upd ==> "" !in Components(k))
    && (forall a, b :: a in upd && b in upd && a != b ==> !IsPrefix(Components(a), Components(b)))
  }

  /** The checks made when a document is written: the immutable `_id` is
      not touched and no component is `$`-prefixed. */
  predicate Storable(upd: map<string, JsValue>) {
    forall k :: k in upd ==> Components(k)[0] != "_id" && forall c :: c in Components(k) ==> !IsOperator(c)
  }

  /** The child a path continues into: the field, or a new empty object. */
  function Child(f: map<string, JsValue>, h: string): JsValue {
    if h in f then f[h] else JObj(map[])
  }

  /** The element a path continues into: the element, or a new empty object
      past the end. */
  function Element(items: seq<JsValue>, i: nat): JsValue {
    if i < |items| then items[i] else JObj(map[])
  }

  /** The array grown with nulls until index i exists. */
  function Pad(items: seq<JsValue>, i: nat): (r: seq<JsValue>)
    ensures |r| == if i < |items| then |items| else i + 1
    ensures r[..|items|] == items
    ensures forall j :: |items| <= j < |r| ==> r[j] == JNull
  {
    if i < |items| then items else items + seq(i + 1 - |items|, _ => JNull)
  }

  /** One field of a `$set` written at its path, or None when the path
      continues through a value that is neither an object nor an array, or
      into an array with a component that is not an index. Missing fields
      and elements along the way are created as empty objects. */
  function WritePath(doc: JsValue, p: Path, v: JsValue): (r: Option<JsValue>)
    requires |p| >= 1
    ensures r.Some? ==> (doc.JObj? <==> r.value.JObj?) && (doc.JArr? <==> r.value.JArr?)
    ensures !doc.JObj? && !doc.JArr? ==> r == None
    decreases |p|
  {
    var h := p[0];
    match doc
    case JObj(f) =>
      if |p| == 1 then Some(JObj(f[h := v]))
      else (
        match WritePath(Child(f, h), p[1..], v)
        case None => None
        case Some(c) => Some(JObj(f[h := c])))
    case JArr(items) =>
      if !IsIndex(h) then None
      else
        var i := DecimalValue(h);
        if |p| == 1 then Some(JArr(Pad(items, i)[i := v]))
        else (
          match WritePath(Element(items, i), p[1..], v)
          case None => None
          case Some(c) => Some(JArr(Pad(items, i)[i := c])))
    case _ => None
  }

  /** Some field of a non-empty update. */
  ghost function Pick(upd: map<string, JsValue>): (k: string)
    requires |upd| > 0
    ensures k in upd
  {
    var k :| k in upd; k
  }

  /** The fields written one after another. The server writes them in the
      order of the request body; the model takes them in an arbitrary one. */
  ghost function WriteAll(doc: JsValue, upd: map<string, JsValue>): (r: Option<JsValue>)
    ensures r.Some? ==> (doc.JObj? <==> r.value.JObj?) && (doc.JArr? <==> r.value.JArr?)
    decreases |upd|
  {
    if |upd| == 0 then Some(doc)
    else
      var k := Pick(upd);
      match WriteAll(doc, upd - {k})
      case None => None
      case Some(d) => WritePath(d, Components(k), upd[k])
  }

  /** `$set` of the fields `upd` on a matched document, once the paths have
      passed `ValidPaths`: None when the server refuses to write them. */
  ghost function SetFields(doc: JsValue, upd: map<string, JsValue>): (r: Option<JsValue>)
    ensures r.Some? ==> (doc.JObj? <==> r.value.JObj?)
  {
    if !Storable(upd) then None else WriteAll(doc, upd)
  }

  /** The value at a path of a document, as a query reads it: object fields
      by name, array elements by index. */
  function Get(doc: JsValue, p: Path): Option<JsValue>
    decreases |p|
  {
    if |p| == 0 then Some(doc)
    else
      match doc
      case JObj(f) => if p[0] in f then Get(f[p[0]], p[1..]) else None
      case JArr(items) =>
        if IsIndex(p[0]) && DecimalValue(p[0]) < |items| then Get(items[DecimalValue(p[0])], p[1..]) else None
      case _ => None
  }

  // ------------------------------------------------------- one path lemmas

  lemma PrefixCons(h: string, a: Path, b: Path)
    ensures IsPrefix([h] + a, [h] + b) <==> IsPrefix(a, b)
  {
    if |a| <= |b| {
      assert ([h] + b)[..|a| + 1] == [h] + b[..|a|];
      assert ([h] + b[..|a|])[1..] == b[..|a|];
      assert ([h] + a)[1..] == a;
    }
  }

  /** A field written reads back at its path. */
  lemma {:induction false} WritePathReads(doc: JsValue, p: Path, v: JsValue)
    requires |p| >= 1 && WritePath(doc, p, v).Some?
    ensures Get(WritePath(doc, p, v).value, p) == Some(v)
    decreases |p|
  {
    var h := p[0];
    match doc
    case JObj(f) =>
      if |p| > 1 {
        WritePathReads(Child(f, h), p[1..], v);
      }
    case JArr(items) =>
      var i := DecimalValue(h);
      if |p| > 1 {
        WritePathReads(Element(items, i), p[1..], v);
      }
  }

  /** Writing a field leaves alone every value whose path neither lies
      inside the field's path nor holds it. */
  lemma {:induction false} WritePathKeeps(doc: JsValue, p: Path, v: JsValue, q: Path)
    requires |p| >= 1 && WritePath(doc, p, v).Some? && Get(doc, q).Some?
    requires !IsPrefix(p, q) && !IsPrefix(q, p)
    ensures Get(WritePath(doc, p, v).value, q) == Get(doc, q)
    decreases |p|
  {
    var h := p[0];
    assert |q| > 0;
    if q[0] == h {
      assert |p| > 1 && |q| > 1;
      assert p == [h] + p[1..] && q == [h] + q[1..];
      PrefixCons(h, p[1..], q[1..]);
      PrefixCons(h, q[1..], p[1..]);
      match doc
      case JObj(f) =>
        WritePathKeeps(f[h], p[1..], v, q[1..]);
      case JArr(items) =>
        WritePathKeeps(items[DecimalValue(h)], p[1..], v, q[1..]);
    } else {
      match doc
      case JObj(f) =>
      case JArr(items) =>
        var i := DecimalValue(h);
        var j := DecimalValue(q[0]);
        assert i != j;
        assert Pad(items, i)[j] == items[j];
    }
  }

  // ------------------------------------------------------- all fields lemmas

  /** Different fields of a valid update are neither equal paths nor one a
      prefix of the other. */
  lemma DistinctPaths(upd: map<string, JsValue>, a: string, b: string)
    requires ValidPaths(upd) && a in upd && b in upd && a != b
    ensures !IsPrefix(Components(a), Components(b)) && !IsPrefix(Components(b), Components(a))
  {
  }

  lemma ValidSub(upd: map<string, JsValue>, k: string)
    requires ValidPaths(upd)
    ensures ValidPaths(upd - {k})
  {
  }

  /** Every field of a valid update reads back at its path. */
  lemma {:induction false} WriteAllReads(doc: JsValue, upd: map<string, JsValue>, k: string)
    requires ValidPaths(upd) && k in upd && WriteAll(doc, upd).Some?
    ensures Get(WriteAll(doc, upd).value, Components(k)) == Some(upd[k])
    decreases |upd|
  {
    var j := Pick(upd);
    var rest := upd - {j};
    var d := WriteAll(doc, rest).value;
    if k == j {
      WritePathReads(d, Components(j), upd[j]);
    } else {
      ValidSub(upd, j);
      WriteAllReads(doc, rest, k);
      DistinctPaths(upd, j, k);
      WritePathKeeps(d, Components(j), upd[j], Components(k));
    }
  }

  /** A value whose path neither lies inside a path of the update nor holds
      one is unchanged. */
  lemma {:induction false} WriteAllKeeps(doc: JsValue, upd: map<string, JsValue>, q: Path)
    requires WriteAll(doc, upd).Some? && Get(doc, q).Some?
    requires forall k :: k in upd ==> !IsPrefix(Components(k), q) && !IsPrefix(q, Components(k))
    ensures Get(WriteAll(doc, upd).value, q) == Get(doc, q)
    decreases |upd|
  {
    if |upd| > 0 {
      var j := Pick(upd);
      var rest := upd - {j};
      WriteAllKeeps(doc, rest, q);
      WritePathKeeps(WriteAll(doc, rest).value, Components(j), upd[j], q);
    }
  }

  // -------------------------------------------------------------- $set lemmas

  /** Every field of the update reads back at its path. */
  lemma SetWrites(doc: JsValue, upd: map<string, JsValue>, k: string)
    requires ValidPaths(upd) && k in upd && SetFields(doc, upd).Some?
    ensures Get(SetFields(doc, upd).value, Components(k)) == Some(upd[k])
  {
    WriteAllReads(doc, upd, k);
  }

  /** A value whose path neither lies inside a path of the update nor holds
      one is unchanged. */
  lemma SetKeeps(doc: JsValue, upd: map<string, JsValue>, q: Path)
    requires SetFields(doc, upd).Some? && Get(doc, q).Some?
    requires forall k :: k in upd ==> !IsPrefix(Components(k), q) && !IsPrefix(q, Components(k))
    ensures Get(SetFields(doc, upd).value, q) == Get(doc, q)
  {
    WriteAllKeeps(doc, upd, q);
  }

  /** An update with no fields changes nothing. */
  lemma SetNothing(doc: JsValue)
    ensures ValidPaths(map[]) && SetFields(doc, map[]) == Some(doc)
  {
  }

  /** A field named with an empty string is refused when parsed. */
  lemma EmptyKeyInvalid(upd: map<string, JsValue>)
    requires "" in upd
    ensures !ValidPaths(upd)
  {
    assert Components("") == [""];
    assert "" in Components("");
  }

  /** Two fields of which one names a part of the other are refused when
      parsed: `a` together with `a.b`. */
  lemma ConflictInvalid(upd: map<string, JsValue>, a: string, b: string)
    requires a in upd && a + "." + b in upd && '.' !in a && '.' !in b
    ensures !ValidPaths(upd)
  {
    TwoComponents(a, b);
    assert Components(a) == [a];
    assert a != a + "." + b;
    assert IsPrefix(Components(a), Components(a + "." + b));
  }

  /** A field whose path holds a `$`-prefixed component, or starts at
      `_id`, is refused when written. */
  lemma ReservedComponentRefused(doc: JsValue, upd: map<string, JsValue>, k: string, i: nat)
    requires k in upd && i < |Components(k)|
    requires IsOperator(Components(k)[i]) || Components(k)[0] == "_id"
    ensures SetFields(doc, upd) == None
  {
    assert Components(k)[i] in Components(k);
  }

  /** A field name without dots that is not reserved. */
  predicate Plain(k: string) {
    k != "" && '.' !in k && !IsOperator(k) && k != "_id"
  }

  lemma MergeLast(f: map<string, JsValue>, upd: map<string, JsValue>, j: string)
    requires j in upd
    ensures (f + (upd - {j}))[j := upd[j]] == f + upd
  {
  }

  lemma {:induction false} WritePlain(f: map<string, JsValue>, upd: map<string, JsValue>)
    requires forall k :: k in upd ==> Plain(k)
    ensures WriteAll(JObj(f), upd) == Some(JObj(f + upd))
    decreases |upd|
  {
    if |upd| > 0 {
      var j := Pick(upd);
      var rest := upd - {j};
      WritePlain(f, rest);
      assert Components(j) == [j];
      assert WritePath(JObj(f + rest), [j], upd[j]) == Some(JObj((f + rest)[j := upd[j]]));
      MergeLast(f, upd, j);
    } else {
      assert f + upd == f;
    }
  }

  /** Plain field names: `$set` is the merge of the update into the
      document's fields. */
  lemma SetPlainIsMerge(f: map<string, JsValue>, upd: map<string, JsValue>)
    requires forall k :: k in upd ==> Plain(k)
    ensures ValidPaths(upd) && SetFields(JObj(f), upd) == Some(JObj(f + upd))
  {
    forall k | k in upd ensures Components(k) == [k] && "" !in Components(k) {
      NoDotComponents(k);
    }
    forall a, b | a in upd && b in upd && a != b ensures !IsPrefix(Components(a), Components(b)) {
      NoDotComponents(a);
      NoDotComponents(b);
      assert [b][..1] == [b];
    }
    forall k | k in upd ensures Components(k)[0] != "_id" && forall c :: c in Components(k) ==> !IsOperator(c) {
      NoDotComponents(k);
    }
    WritePlain(f, upd);
  }

  /** A name without a dot is a path of one component. */
  lemma NoDotComponents(k: string)
    requires '.' !in k
    ensures Components(k) == [k]
  {
  }

  /** A path of two plain components: `a.b`. */
  lemma TwoComponents(a: string, b: string)
    requires '.' !in a && '.' !in b
    ensures Components(a + "." + b) == [a, b]
  {
    JoinRoundTrip([a, b]);
  }

  lemma DigitsHaveNoDot(i: nat)
    ensures '.' !in NatToString(i)
  {
    var s := NatToString(i);
    assert forall j :: 0 <= j < |s| ==> IsDigit(s[j]);
  }

  /** The update of one field. */
  lemma SetOne(doc: JsValue, k: string, v: JsValue)
    ensures SetFields(doc, map[k := v]) ==
      if Storable(map[k := v]) then WritePath(doc, Components(k), v) else None
  {
    var upd := map[k := v];
    assert Pick(upd) == k;
    assert upd - {k} == map[];
    assert WriteAll(doc, upd - {k}) == Some(doc);
    assert WriteAll(doc, upd) == WritePath(doc, Components(k), v);
  }

  /** `a.i` with `a` an array field and `i` below its length replaces
      element i and nothing else. */
  lemma SetArrayElement(f: map<string, JsValue>, a: string, i: nat, v: JsValue)
    requires Plain(a) && a in f && f[a].JArr? && i < |f[a].items|
    ensures var upd := map[a + "." + NatToString(i) := v];
      && ValidPaths(upd)
      && SetFields(JObj(f), upd) == Some(JObj(f[a := JArr(f[a].items[i := v])]))
  {
    var s := NatToString(i);
    var k := a + "." + s;
    DigitsHaveNoDot(i);
    TwoComponents(a, s);
    NatToStringRoundTrip(i);
    assert IsIndex(s);
    SetOne(JObj(f), k, v);
    var items := f[a].items;
    assert Pad(items, i) == items;
    assert WritePath(JArr(items), [s], v) == Some(JArr(items[i := v]));
    assert [a, s][1..] == [s];
    assert WritePath(JObj(f), [a, s], v) == Some(JObj(f[a := JArr(items[i := v])]));
    assert !IsOperator(s) by {
      assert IsDigit(s[0]);
    }
    forall c | c in Components(k) ensures !IsOperator(c) {
      assert c == a || c == s;
    }
  }

  /** A field holding neither an object nor an array cannot be continued
      into: `a.b` on it refuses the write. */
  lemma ScalarTraversalRefused(f: map<string, JsValue>, a: string, b: string, v: JsValue)
    requires Plain(a) && Plain(b) && a in f && !f[a].JObj? && !f[a].JArr?
    ensures SetFields(JObj(f), map[a + "." + b := v]) == None
  {
    TwoComponents(a, b);
    SetOne(JObj(f), a + "." + b, v);
  }

  /** A field holding a scalar that no field of the update names keeps its
      value, whenever the write succeeds. */
  lemma {:induction false} WriteAllKeepsScalar(f: map<string, JsValue>, upd: map<string, JsValue>, key: string)
    requires key in f && !f[key].JObj? && !f[key].JArr? && key !in upd
    requires WriteAll(JObj(f), upd).Some?
    ensures key in WriteAll(JObj(f), upd).value.fields
    ensures WriteAll(JObj(f), upd).value.fields[key] == f[key]
    decreases |upd|
  {
    if |upd| > 0 {
      var j := Pick(upd);
      var rest := upd - {j};
      WriteAllKeepsScalar(f, rest, key);
    }
  }

  lemma SetKeepsScalarField(f: map<string, JsValue>, upd: map<string, JsValue>, key: string)
    requires key in f && !f[key].JObj? && !f[key].JArr? && key !in upd
    requires SetFields(JObj(f), upd).Some?
    ensures key in SetFields(JObj(f), upd).value.fields
    ensures SetFields(JObj(f), upd).value.fields[key] == f[key]
  {
    WriteAllKeepsScalar(f, upd, key);
  }
}
