/**
  Converting parsed JSON to Surtr values and back (crates/eldr/src/builtin.rs). The parser and the
  printer of serde_json are not modelled: a validated document is a tree of tokens whose leaves may
  still fail to decode, and the result of printing is the serde tree.
 */
module JsonConversion {
  import opened Wrappers

  // ---------- Documents, Surtr values and serde trees ----------

  /**
    A validated document. A float token may overflow and a string token may hold an escape that does
    not decode; object keys are strings too. An object has one value for each key, in document order.
   */
  datatype Raw =
    | RawNull
    | RawBool(b: bool)
    | RawInt(n: int)
    | RawFloat(float: Option<real>)
    | RawString(text: Option<string>)
    | RawArray(items: seq<Raw>)
    | RawObject(keys: seq<Option<string>>, values: seq<Raw>)

  datatype Float = Finite(r: real) | NonFinite

  /** Runtime values; a hash map is its keys in order with the value of each. */
  datatype Value =
    | Bool(b: bool)
    | Int(n: int)
    | Real(f: Float)
    | Str(s: string)
    | List(items: seq<Value>)
    | HashMap(keys: seq<string>, values: seq<Value>)
    | Tagged(tag: nat, fields: seq<Value>)

  /** A serde tree; an object is its keys in order with the value of each. */
  datatype Json =
    | JNull
    | JBool(b: bool)
    | JInt(n: int)
    | JFloat(r: real)
    | JString(s: string)
    | JArray(items: seq<Json>)
    | JObject(keys: seq<string>, values: seq<Json>)

  /** The runtime tags of the `JsonValue` variants. */
  datatype Tags = Tags(
    nullTag: nat, boolTag: nat, intTag: nat, floatTag: nat, stringTag: nat, arrayTag: nat, objectTag: nat)
  {
    function All(): (r: seq<nat>)
      ensures |r| == 7
    {
      [nullTag, boolTag, intTag, floatTag, stringTag, arrayTag, objectTag]
    }

    ghost predicate Distinct() {
      forall i, j | 0 <= i < j < 7 :: All()[i] != All()[j]
    }
  }

  // ---------- Ordered maps ----------

  predicate Less(a: string, b: string) {
    if a == [] then b != []
    else b != [] && (a[0] < b[0] || (a[0] == b[0] && Less(a[1..], b[1..])))
  }

  /** The order is lexicographic: a proper prefix, or a smaller character after a common prefix. */
  lemma {:induction false} LessExactly(a: string, b: string)
    ensures Less(a, b) <==>
            (|a| < |b| && a == b[..|a|]) ||
            (exists p: nat :: p < |a| && p < |b| && a[..p] == b[..p] && a[p] < b[p])
  {
    if a != [] && b != [] && a[0] == b[0] {
      LessExactly(a[1..], b[1..]);
      LessCons(a, b);
    } else if a != [] && b != [] && a[0] < b[0] {
      assert a[..0] == b[..0];
    }
  }

  lemma LessCons(a: string, b: string)
    requires a != [] && b != [] && a[0] == b[0]
    ensures |a| < |b| && a == b[..|a|] <==> |a[1..]| < |b[1..]| && a[1..] == b[1..][..|a[1..]|]
    ensures (exists p: nat :: p < |a| && p < |b| && a[..p] == b[..p] && a[p] < b[p]) <==>
            exists p: nat :: p < |a[1..]| && p < |b[1..]| && a[1..][..p] == b[1..][..p] && a[1..][p] < b[1..][p]
  {
    if |a| < |b| && a == b[..|a|] { assert a[1..] == b[..|a|][1..] == b[1..][..|a| - 1]; }
    if |a| < |b| && a[1..] == b[1..][..|a| - 1] {
      assert a == [a[0]] + a[1..] && b[..|a|] == [b[0]] + b[1..][..|a| - 1];
    }
    forall p: nat | p < |a| && p < |b| && a[..p] == b[..p] && a[p] < b[p]
      ensures p > 0 && a[1..][..p - 1] == b[1..][..p - 1] && a[1..][p - 1] < b[1..][p - 1]
    {
      assert a[1..][..p - 1] == a[..p][1..] && b[1..][..p - 1] == b[..p][1..];
    }
    forall p: nat | p < |a[1..]| && p < |b[1..]| && a[1..][..p] == b[1..][..p] && a[1..][p] < b[1..][p]
      ensures a[..p + 1] == b[..p + 1] && a[p + 1] < b[p + 1]
    {
      assert a[..p + 1] == [a[0]] + a[1..][..p] && b[..p + 1] == [b[0]] + b[1..][..p];
    }
  }

  lemma {:induction false} LessTotal(a: string, b: string)
    ensures !(Less(a, b) && Less(b, a)) && (Less(a, b) || Less(b, a) || a == b) && (a == b ==> !Less(a, b))
  {
    if a != [] && b != [] && a[0] == b[0] {
      LessTotal(a[1..], b[1..]);
      assert a == [a[0]] + a[1..] && b == [b[0]] + b[1..];
    }
  }

  lemma {:induction false} LessTransitive(a: string, b: string, c: string)
    requires Less(a, b) && Less(b, c)
    ensures Less(a, c)
  {
    if a != [] && a[0] == b[0] == c[0] { LessTransitive(a[1..], b[1..], c[1..]); }
  }

  ghost predicate Sorted(keys: seq<string>) {
    forall i, j | 0 <= i < j < |keys| :: Less(keys[i], keys[j])
  }

  /** How many leading keys are below `k`. */
  function Rank(keys: seq<string>, k: string): (p: nat)
    ensures p <= |keys|
    ensures forall i | 0 <= i < p :: Less(keys[i], k)
    ensures p < |keys| ==> !Less(keys[p], k)
  {
    if keys == [] || !Less(keys[0], k) then 0 else 1 + Rank(keys[1..], k)
  }

  function InsertKey(keys: seq<string>, k: string): seq<string> {
    var p := Rank(keys, k);
    if p < |keys| && keys[p] == k then keys else keys[..p] + [k] + keys[p..]
  }

  function InsertValue<X>(keys: seq<string>, values: seq<X>, k: string, v: X): (r: seq<X>)
    requires |keys| == |values|
    ensures |r| == |InsertKey(keys, k)|
  {
    var p := Rank(keys, k);
    if p < |keys| && keys[p] == k then values[p := v] else values[..p] + [v] + values[p..]
  }

  /** The keys of a map built by inserting the entries one after the other. */
  function CollectKeys(keys: seq<string>): seq<string> {
    if keys == [] then [] else InsertKey(CollectKeys(keys[..|keys| - 1]), keys[|keys| - 1])
  }

  function CollectValues<X>(keys: seq<string>, values: seq<X>): (r: seq<X>)
    requires |keys| == |values|
    ensures |r| == |CollectKeys(keys)|
  {
    if keys == [] then [] else
    var n := |keys| - 1;
    InsertValue(CollectKeys(keys[..n]), CollectValues(keys[..n], values[..n]), keys[n], values[n])
  }

  function Find<X>(keys: seq<string>, values: seq<X>, k: string): Option<X>
    requires |keys| == |values|
  {
    if keys == [] then None else if keys[0] == k then Some(values[0]) else Find(keys[1..], values[1..], k)
  }

  /** The value of the last entry for `k`. */
  function LastFor<X>(keys: seq<string>, values: seq<X>, k: string): Option<X>
    requires |keys| == |values|
  {
    if keys == [] then None else
    var n := |keys| - 1;
    if keys[n] == k then Some(values[n]) else LastFor(keys[..n], values[..n], k)
  }

  lemma InsertKeepsSorted(keys: seq<string>, k: string)
    requires Sorted(keys)
    ensures Sorted(InsertKey(keys, k))
  {
    var p := Rank(keys, k);
    forall j | p <= j < |keys| ensures keys[j] == k || Less(k, keys[j]) {
      LessTotal(keys[p], k);
      if j > p && keys[p] != k { LessTransitive(k, keys[p], keys[j]); }
    }
    forall i, j | 0 <= i < p <= j < |keys| ensures Less(keys[i], keys[j]) {}
  }

  lemma {:induction false} CollectSorted(keys: seq<string>)
    ensures Sorted(CollectKeys(keys))
  {
    if keys != [] {
      CollectSorted(keys[..|keys| - 1]);
      InsertKeepsSorted(CollectKeys(keys[..|keys| - 1]), keys[|keys| - 1]);
    }
  }

  lemma InsertBelowHead<X>(keys: seq<string>, values: seq<X>, k: string, v: X)
    requires |keys| == |values| && keys != [] && Less(keys[0], k)
    ensures InsertKey(keys, k) == [keys[0]] + InsertKey(keys[1..], k)
    ensures InsertValue(keys, values, k, v) == [values[0]] + InsertValue(keys[1..], values[1..], k, v)
  {
    var p := Rank(keys, k);
    assert p == 1 + Rank(keys[1..], k) && (p < |keys| ==> keys[p] == keys[1..][p - 1]);
    hide Rank, Less;
    SpliceTail(keys, p, k);
    SpliceTail(values, p, v);
  }

  lemma SpliceTail<X>(xs: seq<X>, p: nat, x: X)
    requires 0 < p <= |xs|
    ensures xs[..p] + [x] + xs[p..] == [xs[0]] + (xs[1..][..p - 1] + [x] + xs[1..][p - 1..])
    ensures p < |xs| ==> xs[p := x] == [xs[0]] + xs[1..][p - 1 := x]
    ensures xs == [xs[0]] + xs[1..]
  {}

  lemma InsertAtHead<X>(keys: seq<string>, values: seq<X>, k: string, v: X)
    requires |keys| == |values| && (keys == [] || (!Less(keys[0], k) && keys[0] != k))
    ensures InsertKey(keys, k) == [k] + keys && InsertValue(keys, values, k, v) == [v] + values
  {}

  lemma FindCons<X>(key: string, keys: seq<string>, value: X, values: seq<X>, q: string)
    requires |keys| == |values|
    ensures Find([key] + keys, [value] + values, q) == if key == q then Some(value) else Find(keys, values, q)
  {
    assert ([key] + keys)[1..] == keys && ([value] + values)[1..] == values;
  }

  lemma {:induction false} FindInserted<X>(keys: seq<string>, values: seq<X>, k: string, v: X, q: string)
    requires |keys| == |values|
    ensures Find(InsertKey(keys, k), InsertValue(keys, values, k, v), q)
         == if q == k then Some(v) else Find(keys, values, q)
  {
    LessTotal(k, k);
    if keys != [] && Less(keys[0], k) {
      hide InsertKey, InsertValue;
      InsertBelowHead(keys, values, k, v);
      FindInserted(keys[1..], values[1..], k, v, q);
      FindCons(keys[0], InsertKey(keys[1..], k), values[0], InsertValue(keys[1..], values[1..], k, v), q);
    } else if keys != [] && keys[0] == k {
      assert values[0 := v] == [v] + values[1..] && keys == [k] + keys[1..];
      FindCons(k, keys[1..], v, values[1..], q);
    } else {
      InsertAtHead(keys, values, k, v);
      FindCons(k, keys, v, values, q);
    }
  }

  /** In the collected map the last entry for a key wins. */
  lemma {:induction false} LastEntryWins<X>(keys: seq<string>, values: seq<X>, q: string)
    requires |keys| == |values|
    ensures Find(CollectKeys(keys), CollectValues(keys, values), q) == LastFor(keys, values, q)
  {
    if keys != [] {
      var n := |keys| - 1;
      LastEntryWins(keys[..n], values[..n], q);
      FindInserted(CollectKeys(keys[..n]), CollectValues(keys[..n], values[..n]), keys[n], values[n], q);
    }
  }

  // ---------- Parsing ----------

  const DEPTH_LIMIT := 127

  datatype ParseError = Invalid | DepthExceeded(depth: nat, limit: nat)

  function Variant(tag: nat, discriminant: nat, payload: seq<Value>): Value {
    Tagged(tag, [Int(discriminant)] + payload)
  }

  /** `json_value_to_surtr`: containers are refused from depth 127 on, keys are decoded before values. */
  function Convert(tags: Tags, raw: Raw, depth: nat): Result<Value, ParseError>
    decreases raw, 1
  {
    match raw
    case RawNull => Ok(Variant(tags.nullTag, 0, []))
    case RawBool(b) => Ok(Variant(tags.boolTag, 1, [Bool(b)]))
    case RawInt(n) => Ok(Variant(tags.intTag, 2, [Int(n)]))
    case RawFloat(float) =>
      if float.None? then Err(Invalid) else Ok(Variant(tags.floatTag, 3, [Real(Finite(float.value))]))
    case RawString(text) =>
      if text.None? then Err(Invalid) else Ok(Variant(tags.stringTag, 4, [Str(text.value)]))
    case RawArray(items) =>
      if depth >= DEPTH_LIMIT then Err(DepthExceeded(depth, DEPTH_LIMIT)) else
      (match ConvertAll(tags, items, depth + 1)
       case Err(e) => Err(e)
       case Ok(vs) => Ok(Variant(tags.arrayTag, 5, [List(vs)])))
    case RawObject(keys, values) =>
      if depth >= DEPTH_LIMIT then Err(DepthExceeded(depth, DEPTH_LIMIT))
      else if !KeysDecode(keys, values) then Err(Invalid) else
      (match ConvertAll(tags, values, depth + 1)
       case Err(e) => Err(e)
       case Ok(vs) =>
         var entries := HashMap(CollectKeys(Decoded(keys)), CollectValues(Decoded(keys), vs));
         Ok(Variant(tags.objectTag, 6, [entries])))
  }

  function ConvertAll(tags: Tags, raws: seq<Raw>, depth: nat): (r: Result<seq<Value>, ParseError>)
    ensures r.Ok? ==> |r.value| == |raws|
    decreases raws, 0
  {
    if raws == [] then Ok([]) else
    match Convert(tags, raws[0], depth)
    case Err(e) => Err(e)
    case Ok(v) =>
      match ConvertAll(tags, raws[1..], depth)
      case Err(e) => Err(e)
      case Ok(vs) => Ok([v] + vs)
  }

  /** Every key of an object decodes (and has its value). */
  predicate KeysDecode(keys: seq<Option<string>>, values: seq<Raw>) {
    |keys| == |values| && forall i | 0 <= i < |keys| :: keys[i].Some?
  }

  function Decoded(keys: seq<Option<string>>): (r: seq<string>)
    requires forall i | 0 <= i < |keys| :: keys[i].Some?
    ensures |r| == |keys|
  {
    seq(|keys|, i requires 0 <= i < |keys| => keys[i].value)
  }

  // ---------- What a document means ----------

  predicate Decodable(raw: Raw)
    decreases raw, 1
  {
    match raw
    case RawFloat(float) => float.Some?
    case RawString(text) => text.Some?
    case RawArray(items) => DecodableAll(items)
    case RawObject(keys, values) => KeysDecode(keys, values) && DecodableAll(values)
    case _ => true
  }

  predicate DecodableAll(raws: seq<Raw>)
    decreases raws, 0
  {
    raws == [] || (Decodable(raws[0]) && DecodableAll(raws[1..]))
  }

  /** How many containers are nested in each other. */
  function Nesting(raw: Raw): nat
    decreases raw, 1
  {
    match raw
    case RawArray(items) => 1 + NestingAll(items)
    case RawObject(_, values) => 1 + NestingAll(values)
    case _ => 0
  }

  function NestingAll(raws: seq<Raw>): nat
    decreases raws, 0
  {
    if raws == [] then 0 else
    var head, tail := Nesting(raws[0]), NestingAll(raws[1..]);
    if head > tail then head else tail
  }

  /** The serde tree of a document: section 4 of RFC 8259 leaves repeated keys open, here the last one wins. */
  function Meaning(raw: Raw): Json
    requires Decodable(raw)
    decreases raw, 1
  {
    match raw
    case RawNull => JNull
    case RawBool(b) => JBool(b)
    case RawInt(n) => JInt(n)
    case RawFloat(float) => JFloat(float.value)
    case RawString(text) => JString(text.value)
    case RawArray(items) => JArray(MeaningAll(items))
    case RawObject(keys, values) =>
      JObject(CollectKeys(Decoded(keys)), CollectValues(Decoded(keys), MeaningAll(values)))
  }

  function MeaningAll(raws: seq<Raw>): (r: seq<Json>)
    requires DecodableAll(raws)
    ensures |r| == |raws|
    decreases raws, 0
  {
    if raws == [] then [] else [Meaning(raws[0])] + MeaningAll(raws[1..])
  }

  // ---------- The runtime representation of a serde tree ----------

  function Encode(tags: Tags, j: Json): Value
    decreases j, 1
  {
    match j
    case JNull => Variant(tags.nullTag, 0, [])
    case JBool(b) => Variant(tags.boolTag, 1, [Bool(b)])
    case JInt(n) => Variant(tags.intTag, 2, [Int(n)])
    case JFloat(r) => Variant(tags.floatTag, 3, [Real(Finite(r))])
    case JString(s) => Variant(tags.stringTag, 4, [Str(s)])
    case JArray(items) => Variant(tags.arrayTag, 5, [List(EncodeAll(tags, items))])
    case JObject(keys, values) => Variant(tags.objectTag, 6, [HashMap(keys, EncodeAll(tags, values))])
  }

  function EncodeAll(tags: Tags, js: seq<Json>): (r: seq<Value>)
    ensures |r| == |js|
    decreases js, 0
  {
    if js == [] then [] else [Encode(tags, js[0])] + EncodeAll(tags, js[1..])
  }

  lemma {:induction false} EncodeAllAppend(tags: Tags, a: seq<Json>, b: seq<Json>)
    ensures EncodeAll(tags, a + b) == EncodeAll(tags, a) + EncodeAll(tags, b)
  {
    hide Encode;
    if a == [] {
      assert a + b == b;
    } else {
      assert (a + b)[1..] == a[1..] + b;
      EncodeAllAppend(tags, a[1..], b);
    }
  }

  lemma EncodeAllSplit(tags: Tags, js: seq<Json>, p: nat)
    requires p <= |js|
    ensures EncodeAll(tags, js)[..p] == EncodeAll(tags, js[..p]) && EncodeAll(tags, js)[p..] == EncodeAll(tags, js[p..])
  {
    EncodeAllAppend(tags, js[..p], js[p..]);
    assert js[..p] + js[p..] == js;
  }

  lemma EncodeSpliced(tags: Tags, before: seq<Json>, j: Json, after: seq<Json>)
    ensures EncodeAll(tags, before + [j] + after)
         == EncodeAll(tags, before) + [Encode(tags, j)] + EncodeAll(tags, after)
  {
    hide Encode;
    EncodeAllAppend(tags, before, [j]);
    EncodeAllAppend(tags, before + [j], after);
    assert EncodeAll(tags, [j]) == [Encode(tags, j)];
  }

  lemma EncodeInserted(tags: Tags, keys: seq<string>, js: seq<Json>, k: string, j: Json)
    requires |keys| == |js|
    ensures EncodeAll(tags, InsertValue(keys, js, k, j)) == InsertValue(keys, EncodeAll(tags, js), k, Encode(tags, j))
  {
    hide EncodeAll, Encode, Rank;
    var p := Rank(keys, k);
    EncodeAllSplit(tags, js, p);
    if p < |keys| && keys[p] == k {
      EncodeAllSplit(tags, js, p + 1);
      EncodeSpliced(tags, js[..p], j, js[p + 1..]);
      assert js[p := j] == js[..p] + [j] + js[p + 1..];
    } else {
      EncodeSpliced(tags, js[..p], j, js[p..]);
    }
  }

  lemma {:induction false} EncodeCollected(tags: Tags, keys: seq<string>, js: seq<Json>)
    requires |keys| == |js|
    ensures EncodeAll(tags, CollectValues(keys, js)) == CollectValues(keys, EncodeAll(tags, js))
  {
    if keys == [] {
      assert js == [];
    } else {
      hide Encode, EncodeAll, InsertValue, InsertKey;
      var n := |keys| - 1;
      EncodeCollected(tags, keys[..n], js[..n]);
      EncodeInserted(tags, CollectKeys(keys[..n]), CollectValues(keys[..n], js[..n]), keys[n], js[n]);
      EncodeAllSplit(tags, js, n);
      EncodeLast(tags, js);
    }
  }

  lemma EncodeLast(tags: Tags, js: seq<Json>)
    requires js != []
    ensures EncodeAll(tags, js)[|js| - 1] == Encode(tags, js[|js| - 1])
  {
    hide Encode;
    var n := |js| - 1;
    EncodeSpliced(tags, js[..n], js[n], []);
    assert js[..n] + [js[n]] + [] == js;
  }

  /** A document converts exactly when it decodes and is not nested too deeply, and then to its meaning. */
  lemma {:induction false} ConvertMeaning(tags: Tags, raw: Raw, depth: nat)
    ensures Convert(tags, raw, depth).Ok?
       <==> Decodable(raw) && (Nesting(raw) == 0 || depth + Nesting(raw) <= DEPTH_LIMIT)
    ensures Convert(tags, raw, depth).Ok? ==> Convert(tags, raw, depth).value == Encode(tags, Meaning(raw))
    decreases raw, 1
  {
    match raw
    case RawArray(items) => ConvertAllMeaning(tags, items, depth + 1);
    case RawObject(keys, values) =>
      ConvertAllMeaning(tags, values, depth + 1);
      ConvertObjectMeaning(tags, keys, values, depth);
    case _ =>
  }

  lemma {:induction false} ConvertObjectMeaning(tags: Tags, keys: seq<Option<string>>, values: seq<Raw>, depth: nat)
    requires var r := ConvertAll(tags, values, depth + 1);
             && (r.Ok? <==>
                 DecodableAll(values) && (NestingAll(values) == 0 || depth + 1 + NestingAll(values) <= DEPTH_LIMIT))
             && (r.Ok? ==> r.value == EncodeAll(tags, MeaningAll(values)))
    ensures var raw := RawObject(keys, values);
            && (Convert(tags, raw, depth).Ok? <==> Decodable(raw) && depth + Nesting(raw) <= DEPTH_LIMIT)
            && (Convert(tags, raw, depth).Ok? ==> Convert(tags, raw, depth).value == Encode(tags, Meaning(raw)))
  {
    hide CollectKeys, CollectValues, EncodeAll, MeaningAll, ConvertAll, NestingAll, DecodableAll;
    if KeysDecode(keys, values) && DecodableAll(values) {
      EncodeCollected(tags, Decoded(keys), MeaningAll(values));
    }
  }

  lemma {:induction false} ConvertAllMeaning(tags: Tags, raws: seq<Raw>, depth: nat)
    ensures ConvertAll(tags, raws, depth).Ok?
       <==> DecodableAll(raws) && (NestingAll(raws) == 0 || depth + NestingAll(raws) <= DEPTH_LIMIT)
    ensures ConvertAll(tags, raws, depth).Ok? ==>
            ConvertAll(tags, raws, depth).value == EncodeAll(tags, MeaningAll(raws))
    decreases raws, 0
  {
    if raws != [] {
      ConvertMeaning(tags, raws[0], depth);
      ConvertAllMeaning(tags, raws[1..], depth);
    }
  }

  /** Why a conversion failed: a leaf or key that does not decode, or the first container at the limit. */
  ghost predicate Explains(e: ParseError, decodable: bool, nesting: nat, depth: nat) {
    match e
    case Invalid => !decodable
    case DepthExceeded(at, limit) => at == limit == DEPTH_LIMIT && depth + nesting > DEPTH_LIMIT
  }

  lemma {:induction false} ConvertErrorExplained(tags: Tags, raw: Raw, depth: nat)
    requires depth <= DEPTH_LIMIT && Convert(tags, raw, depth).Err?
    ensures Explains(Convert(tags, raw, depth).error, Decodable(raw), Nesting(raw), depth)
    decreases raw, 1
  {
    match raw
    case RawArray(items) =>
      if depth < DEPTH_LIMIT { ConvertAllErrorExplained(tags, items, depth + 1); }
    case RawObject(keys, values) =>
      if depth < DEPTH_LIMIT && KeysDecode(keys, values) { ConvertAllErrorExplained(tags, values, depth + 1); }
    case _ =>
  }

  lemma {:induction false} ConvertAllErrorExplained(tags: Tags, raws: seq<Raw>, depth: nat)
    requires depth <= DEPTH_LIMIT && ConvertAll(tags, raws, depth).Err?
    ensures Explains(ConvertAll(tags, raws, depth).error, DecodableAll(raws), NestingAll(raws), depth)
    decreases raws, 0
  {
    if Convert(tags, raws[0], depth).Err? {
      ConvertErrorExplained(tags, raws[0], depth);
    } else {
      ConvertAllErrorExplained(tags, raws[1..], depth);
    }
  }

  /** The first of the tokens that fails decides. */
  lemma {:induction false} FirstFailure(tags: Tags, raws: seq<Raw>, depth: nat, i: nat)
    requires i < |raws| && Convert(tags, raws[i], depth).Err?
    requires forall j | 0 <= j < i :: Convert(tags, raws[j], depth).Ok?
    ensures ConvertAll(tags, raws, depth) == Err(Convert(tags, raws[i], depth).error)
  {
    if i > 0 { FirstFailure(tags, raws[1..], depth, i - 1); }
  }

  /**
    Which failure is reported: a container at the limit before anything in it, a key that does not
    decode before every value, and of the items or values the first that fails.
   */
  lemma FailureOrder(tags: Tags, raws: seq<Raw>, keys: seq<Option<string>>, depth: nat, i: nat)
    requires |keys| == |raws|
    ensures depth >= 127 ==>
              && Convert(tags, RawArray(raws), depth) == Err(DepthExceeded(depth, 127))
              && Convert(tags, RawObject(keys, raws), depth) == Err(DepthExceeded(depth, 127))
    ensures depth < 127 && None in keys ==> Convert(tags, RawObject(keys, raws), depth) == Err(Invalid)
    ensures depth < 127 && i < |raws| && Convert(tags, raws[i], depth + 1).Err?
            && (forall j | 0 <= j < i :: Convert(tags, raws[j], depth + 1).Ok?) ==>
              var failure := Err(Convert(tags, raws[i], depth + 1).error);
              && Convert(tags, RawArray(raws), depth) == failure
              && (None !in keys ==> Convert(tags, RawObject(keys, raws), depth) == failure)
  {
    if i < |raws| && Convert(tags, raws[i], depth + 1).Err?
       && forall j | 0 <= j < i :: Convert(tags, raws[j], depth + 1).Ok? {
      FirstFailure(tags, raws, depth + 1, i);
    }
  }

  // ---------- Printing ----------

  datatype Reason = WrongPayload | InvalidArity | NotJson | NotFinite

  datatype StringifyError = IntegerOutOfRange(n: int) | Internal(reason: Reason)

  /** Integers that fit one of serde_json's two 64-bit representations. */
  predicate FitsJsonNumber(n: int) {
    -0x8000_0000_0000_0000 <= n < 0x1_0000_0000_0000_0000
  }

  /** `bigint_to_json_number`: signed 64 bits, else unsigned 64 bits, else an error. */
  function ToJsonNumber(n: int): Result<Json, StringifyError> {
    if -0x8000_0000_0000_0000 <= n < 0x8000_0000_0000_0000 then Ok(JInt(n))
    else if 0 <= n < 0x1_0000_0000_0000_0000 then Ok(JInt(n))
    else Err(IntegerOutOfRange(n))
  }

  /** An integer is printed as itself exactly when it has 64 bits, signed or unsigned. */
  lemma ToJsonNumberExactly(n: int)
    ensures ToJsonNumber(n) ==
            if -0x8000_0000_0000_0000 <= n <= 0xffff_ffff_ffff_ffff then Ok(JInt(n)) else Err(IntegerOutOfRange(n))
    ensures FitsJsonNumber(n) <==> ToJsonNumber(n).Ok?
  {}

  /** `surtr_json_to_serde`, which also meets values that are no well-formed `JsonValue`. */
  function Stringify(tags: Tags, v: Value): Result<Json, StringifyError>
    decreases v, 1
  {
    if !v.Tagged? then Err(Internal(NotJson)) else
    var tag, n := v.tag, |v.fields|;
    if tag == tags.nullTag && n == 1 then Ok(JNull)
    else if tag == tags.boolTag && n == 2 then
      (if v.fields[1].Bool? then Ok(JBool(v.fields[1].b)) else Err(Internal(WrongPayload)))
    else if tag == tags.intTag && n == 2 then
      (if v.fields[1].Int? then ToJsonNumber(v.fields[1].n) else Err(Internal(WrongPayload)))
    else if tag == tags.floatTag && n == 2 then
      (match v.fields[1]
       case Real(Finite(r)) => Ok(JFloat(r))
       case Real(NonFinite) => Err(Internal(NotFinite))
       case _ => Err(Internal(WrongPayload)))
    else if tag == tags.stringTag && n == 2 then
      (if v.fields[1].Str? then Ok(JString(v.fields[1].s)) else Err(Internal(WrongPayload)))
    else if tag == tags.arrayTag && n == 2 then
      (if v.fields[1].List? then
         (match StringifyAll(tags, v.fields[1].items) case Ok(js) => Ok(JArray(js)) case Err(e) => Err(e))
       else Err(Internal(WrongPayload)))
    else if tag == tags.objectTag && n == 2 then
      (if v.fields[1].HashMap? then
         (match StringifyAll(tags, v.fields[1].values)
          case Ok(js) => Ok(JObject(v.fields[1].keys, js))
          case Err(e) => Err(e))
       else Err(Internal(WrongPayload)))
    else if tag in tags.All()[1..] then Err(Internal(InvalidArity))
    else Err(Internal(NotJson))
  }

  function StringifyAll(tags: Tags, vs: seq<Value>): (r: Result<seq<Json>, StringifyError>)
    ensures r.Ok? ==> |r.value| == |vs|
    decreases vs, 0
  {
    if vs == [] then Ok([]) else
    match Stringify(tags, vs[0])
    case Err(e) => Err(e)
    case Ok(j) =>
      match StringifyAll(tags, vs[1..])
      case Err(e) => Err(e)
      case Ok(js) => Ok([j] + js)
  }

  /** The first integer, arrays in order and objects by key, that no JSON number holds. */
  function FirstOutOfRange(j: Json): Option<int>
    decreases j, 1
  {
    match j
    case JInt(n) => if FitsJsonNumber(n) then None else Some(n)
    case JArray(items) => FirstOutOfRangeIn(items)
    case JObject(_, values) => FirstOutOfRangeIn(values)
    case _ => None
  }

  function FirstOutOfRangeIn(js: seq<Json>): Option<int>
    decreases js, 0
  {
    if js == [] then None else
    match FirstOutOfRange(js[0])
    case Some(n) => Some(n)
    case None => FirstOutOfRangeIn(js[1..])
  }

  /** Printing undoes encoding, or names the first integer that does not fit. */
  lemma {:induction false} StringifyEncoded(tags: Tags, j: Json)
    requires tags.Distinct()
    ensures Stringify(tags, Encode(tags, j))
         == match FirstOutOfRange(j) { case None => Ok(j) case Some(n) => Err(IntegerOutOfRange(n)) }
    decreases j, 1
  {
    DistinctTags(tags);
    match j
    case JArray(items) => StringifyAllEncoded(tags, items);
    case JObject(_, values) => StringifyAllEncoded(tags, values);
    case _ =>
  }

  lemma DistinctTags(tags: Tags)
    requires tags.Distinct()
    ensures forall i, j | 0 <= i < j < 7 :: tags.All()[i] != tags.All()[j]
    ensures tags.boolTag != tags.intTag && tags.boolTag != tags.floatTag && tags.boolTag != tags.stringTag
    ensures tags.intTag != tags.floatTag && tags.intTag != tags.stringTag && tags.floatTag != tags.stringTag
    ensures tags.arrayTag !in {tags.boolTag, tags.intTag, tags.floatTag, tags.stringTag}
    ensures tags.objectTag !in {tags.boolTag, tags.intTag, tags.floatTag, tags.stringTag, tags.arrayTag}
  {
    assert tags.All()[1] == tags.boolTag && tags.All()[2] == tags.intTag && tags.All()[3] == tags.floatTag;
    assert tags.All()[4] == tags.stringTag && tags.All()[5] == tags.arrayTag && tags.All()[6] == tags.objectTag;
  }

  lemma {:induction false} StringifyAllEncoded(tags: Tags, js: seq<Json>)
    requires tags.Distinct()
    ensures StringifyAll(tags, EncodeAll(tags, js))
         == match FirstOutOfRangeIn(js) { case None => Ok(js) case Some(n) => Err(IntegerOutOfRange(n)) }
    decreases js, 0
  {
    if js != [] {
      StringifyEncoded(tags, js[0]);
      StringifyAllEncoded(tags, js[1..]);
      assert EncodeAll(tags, js)[1..] == EncodeAll(tags, js[1..]);
      assert [js[0]] + js[1..] == js;
    }
  }

  /** Whatever value is printed, its integers fit: printing never lets one through. */
  lemma {:induction false} PrintedIntegersFit(tags: Tags, v: Value)
    requires Stringify(tags, v).Ok?
    ensures FirstOutOfRange(Stringify(tags, v).value) == None
    decreases v, 1
  {
    if v.fields != [] && |v.fields| == 2 {
      match v.fields[1]
      case List(items) =>
        if StringifyAll(tags, items).Ok? { AllPrintedIntegersFit(tags, items); }
      case HashMap(_, values) =>
        if StringifyAll(tags, values).Ok? { AllPrintedIntegersFit(tags, values); }
      case _ =>
    }
  }

  lemma {:induction false} AllPrintedIntegersFit(tags: Tags, vs: seq<Value>)
    requires StringifyAll(tags, vs).Ok?
    ensures FirstOutOfRangeIn(StringifyAll(tags, vs).value) == None
    decreases vs, 0
  {
    if vs != [] {
      PrintedIntegersFit(tags, vs[0]);
      AllPrintedIntegersFit(tags, vs[1..]);
    }
  }

  /** `v` is laid out as the tree `j`; the number of the variant in the first field is not looked at. */
  predicate LaidOut(tags: Tags, v: Value, j: Json)
    decreases j, 1
  {
    && v.Tagged?
    && |v.fields| == (if j.JNull? then 1 else 2)
    && match j
       case JNull => v.tag == tags.nullTag
       case JBool(b) => v.tag == tags.boolTag && v.fields[1] == Bool(b)
       case JInt(n) => v.tag == tags.intTag && v.fields[1] == Int(n)
       case JFloat(r) => v.tag == tags.floatTag && v.fields[1] == Real(Finite(r))
       case JString(s) => v.tag == tags.stringTag && v.fields[1] == Str(s)
       case JArray(items) =>
         v.tag == tags.arrayTag && v.fields[1].List? && LaidOutAll(tags, v.fields[1].items, items)
       case JObject(keys, values) =>
         && v.tag == tags.objectTag && v.fields[1].HashMap? && v.fields[1].keys == keys
         && LaidOutAll(tags, v.fields[1].values, values)
  }

  predicate LaidOutAll(tags: Tags, vs: seq<Value>, js: seq<Json>)
    decreases js, 0
  {
    |vs| == |js| && (js == [] || (LaidOut(tags, vs[0], js[0]) && LaidOutAll(tags, vs[1..], js[1..])))
  }

  /**
    Why a value is refused at the top. A null with a payload is taken for no JSON value at all, where any
    other variant with the wrong number of fields is reported as such.
   */
  lemma StringifyRefuses(tags: Tags, v: Value)
    requires tags.Distinct()
    ensures !v.Tagged? ==> Stringify(tags, v) == Err(Internal(NotJson))
    ensures v.Tagged? && v.tag !in tags.All() ==> Stringify(tags, v) == Err(Internal(NotJson))
    ensures v.Tagged? && v.tag == tags.nullTag && |v.fields| != 1 ==> Stringify(tags, v) == Err(Internal(NotJson))
    ensures v.Tagged? && v.tag in tags.All()[1..] && |v.fields| != 2 ==>
              Stringify(tags, v) == Err(Internal(InvalidArity))
    ensures v.Tagged? && |v.fields| == 2 ==>
              var payload := v.fields[1];
              && (v.tag == tags.floatTag && payload == Real(NonFinite) ==>
                    Stringify(tags, v) == Err(Internal(NotFinite)))
              && ((v.tag == tags.boolTag && !payload.Bool?) || (v.tag == tags.intTag && !payload.Int?) ||
                  (v.tag == tags.floatTag && !payload.Real?) || (v.tag == tags.stringTag && !payload.Str?) ||
                  (v.tag == tags.arrayTag && !payload.List?) || (v.tag == tags.objectTag && !payload.HashMap?)
                  ==> Stringify(tags, v) == Err(Internal(WrongPayload)))
  {
    DistinctTags(tags);
    NullTagDistinct(tags);
  }

  lemma NullTagDistinct(tags: Tags)
    requires tags.Distinct()
    ensures tags.nullTag !in tags.All()[1..]
    ensures forall tag :: tag in tags.All() <==> tag == tags.nullTag || tag in tags.All()[1..]
  {
    assert tags.All()[0] == tags.nullTag;
    assert forall i | 0 <= i < 6 :: tags.All()[1..][i] == tags.All()[i + 1];
  }

  /** Of the items or values that cannot be printed the first decides. */
  lemma {:induction false} FirstRefusal(tags: Tags, vs: seq<Value>, i: nat)
    requires i < |vs| && Stringify(tags, vs[i]).Err?
    requires forall j | 0 <= j < i :: Stringify(tags, vs[j]).Ok?
    ensures StringifyAll(tags, vs) == Err(Stringify(tags, vs[i]).error)
  {
    if i > 0 { FirstRefusal(tags, vs[1..], i - 1); }
  }

  lemma RefusalOrder(tags: Tags, number: Value, keys: seq<string>, vs: seq<Value>, i: nat)
    requires tags.Distinct() && i < |vs| && Stringify(tags, vs[i]).Err?
    requires forall j | 0 <= j < i :: Stringify(tags, vs[j]).Ok?
    ensures var refusal := Err(Stringify(tags, vs[i]).error);
            && Stringify(tags, Tagged(tags.arrayTag, [number, List(vs)])) == refusal
            && Stringify(tags, Tagged(tags.objectTag, [number, HashMap(keys, vs)])) == refusal
  {
    DistinctTags(tags);
    FirstRefusal(tags, vs, i);
  }

  /** Of all runtime values exactly those laid out as a tree whose integers fit are printed, as that tree. */
  lemma {:induction false} StringifyExactly(tags: Tags, v: Value, j: Json)
    requires tags.Distinct()
    ensures Stringify(tags, v) == Ok(j) <==> LaidOut(tags, v, j) && FirstOutOfRange(j) == None
    decreases j, 1
  {
    DistinctTags(tags);
    match j
    case JArray(items) =>
      if v.Tagged? && |v.fields| == 2 && v.fields[1].List? { StringifyAllExactly(tags, v.fields[1].items, items); }
    case JObject(_, values) =>
      if v.Tagged? && |v.fields| == 2 && v.fields[1].HashMap? { StringifyAllExactly(tags, v.fields[1].values, values); }
    case _ =>
  }

  lemma {:induction false} StringifyAllExactly(tags: Tags, vs: seq<Value>, js: seq<Json>)
    requires tags.Distinct()
    ensures StringifyAll(tags, vs) == Ok(js) <==> LaidOutAll(tags, vs, js) && FirstOutOfRangeIn(js) == None
    decreases js, 0
  {
    if vs != [] && js != [] {
      StringifyExactly(tags, vs[0], js[0]);
      StringifyAllExactly(tags, vs[1..], js[1..]);
      assert [js[0]] + js[1..] == js;
    }
  }

  /** Printing is stable: the canonical value of a printed tree prints as that tree. */
  lemma StringifyStable(tags: Tags, v: Value)
    requires tags.Distinct() && Stringify(tags, v).Ok?
    ensures Stringify(tags, Encode(tags, Stringify(tags, v).value)) == Stringify(tags, v)
  {
    PrintedIntegersFit(tags, v);
    StringifyEncoded(tags, Stringify(tags, v).value);
  }

  /** Parsing succeeds exactly on decodable documents nested at most 127 deep. */
  lemma ParsesIffDecodableAndShallow(tags: Tags, raw: Raw)
    ensures Convert(tags, raw, 0).Ok? <==> Decodable(raw) && Nesting(raw) <= 127
  {
    ConvertMeaning(tags, raw, 0);
  }

  /**
    Parsing and printing back gives the document's meaning, exactly when all of its integers fit a
    JSON number; otherwise the first one that does not is reported.
   */
  lemma ParseThenStringify(tags: Tags, raw: Raw)
    requires tags.Distinct() && Decodable(raw) && Nesting(raw) <= DEPTH_LIMIT
    ensures var parsed := Convert(tags, raw, 0);
            && parsed.Ok?
            && Stringify(tags, parsed.value) ==
               match FirstOutOfRange(Meaning(raw)) {
                 case None => Ok(Meaning(raw))
                 case Some(n) => Err(IntegerOutOfRange(n))
               }
  {
    ConvertMeaning(tags, raw, 0);
    StringifyEncoded(tags, Meaning(raw));
  }

  // ---------- Arrays and objects, entry by entry ----------

  /** The last place where an object names `q`. */
  ghost predicate LastEntry(keys: seq<Option<string>>, q: string, i: nat) {
    i < |keys| && keys[i] == Some(q) && forall j | i < j < |keys| :: keys[j] != Some(q)
  }

  /** A map, given as its keys with the value of each, holds `x` under `q`. */
  ghost predicate Holds<X>(keys: seq<string>, values: seq<X>, q: string, x: X) {
    exists p: nat :: p < |keys| && p < |values| && keys[p] == q && values[p] == x
  }

  lemma {:induction false} FindExactly<X>(keys: seq<string>, values: seq<X>, q: string)
    requires |keys| == |values|
    ensures Find(keys, values, q).None? <==> q !in keys
    ensures Find(keys, values, q).Some? ==> Holds(keys, values, q, Find(keys, values, q).value)
  {
    if keys != [] {
      FindExactly(keys[1..], values[1..], q);
      if keys[0] != q && Find(keys[1..], values[1..], q).Some? {
        var p: nat :| p < |keys| - 1 && keys[1..][p] == q && values[1..][p] == Find(keys, values, q).value;
        assert keys[p + 1] == q && values[p + 1] == Find(keys, values, q).value;
      }
    }
  }

  lemma {:induction false} LastForEntry<X>(keys: seq<Option<string>>, xs: seq<X>, q: string)
    requires |keys| == |xs| && forall i | 0 <= i < |keys| :: keys[i].Some?
    ensures forall i: nat | LastEntry(keys, q, i) :: LastFor(Decoded(keys), xs, q) == Some(xs[i])
    ensures Some(q) !in keys ==> LastFor(Decoded(keys), xs, q) == None
    decreases |keys|
  {
    if keys != [] {
      var n := |keys| - 1;
      assert Decoded(keys)[..n] == Decoded(keys[..n]);
      LastForEntry(keys[..n], xs[..n], q);
      forall i: nat | LastEntry(keys, q, i) ensures LastFor(Decoded(keys), xs, q) == Some(xs[i]) {
        if i < n { assert LastEntry(keys[..n], q, i) && keys[n] != Some(q); }
      }
    }
  }

  /** A map collected from an object holds under every key what stands at its last place, and nothing else. */
  lemma CollectedHolds<X>(keys: seq<Option<string>>, xs: seq<X>, q: string)
    requires |keys| == |xs| && forall i | 0 <= i < |keys| :: keys[i].Some?
    ensures var ks, vs := CollectKeys(Decoded(keys)), CollectValues(Decoded(keys), xs);
            && |ks| == |vs| && Sorted(ks)
            && (forall i: nat | LastEntry(keys, q, i) :: Holds(ks, vs, q, xs[i]))
            && (Some(q) !in keys ==> q !in ks)
  {
    CollectSorted(Decoded(keys));
    LastEntryWins(Decoded(keys), xs, q);
    LastForEntry(keys, xs, q);
    FindExactly(CollectKeys(Decoded(keys)), CollectValues(Decoded(keys), xs), q);
  }

  lemma {:induction false} MeaningAllAt(raws: seq<Raw>, i: nat)
    requires DecodableAll(raws) && i < |raws|
    ensures Decodable(raws[i]) && MeaningAll(raws)[i] == Meaning(raws[i])
  {
    if i > 0 { MeaningAllAt(raws[1..], i - 1); }
  }

  /** In the printed object every key appears once, in order, with the meaning of its last entry. */
  lemma MeaningOfObject(keys: seq<Option<string>>, values: seq<Raw>, q: string)
    requires Decodable(RawObject(keys, values))
    ensures var j := Meaning(RawObject(keys, values));
            && j.JObject? && |keys| == |values| && |j.keys| == |j.values| && Sorted(j.keys)
            && (forall i: nat | LastEntry(keys, q, i) ::
                  Decodable(values[i]) && Holds(j.keys, j.values, q, Meaning(values[i])))
            && (Some(q) !in keys ==> q !in j.keys)
  {
    CollectedHolds(keys, MeaningAll(values), q);
    forall i: nat | i < |values| ensures Decodable(values[i]) && MeaningAll(values)[i] == Meaning(values[i]) {
      MeaningAllAt(values, i);
    }
  }

  lemma MeaningOfArray(items: seq<Raw>, i: nat)
    requires Decodable(RawArray(items)) && i < |items|
    ensures var j := Meaning(RawArray(items));
            j.JArray? && |j.items| == |items| && Decodable(items[i]) && j.items[i] == Meaning(items[i])
  {
    MeaningAllAt(items, i);
  }

  lemma {:induction false} ConvertAllAt(tags: Tags, raws: seq<Raw>, depth: nat, i: nat)
    requires ConvertAll(tags, raws, depth).Ok? && i < |raws|
    ensures Convert(tags, raws[i], depth) == Ok(ConvertAll(tags, raws, depth).value[i])
  {
    if i > 0 { ConvertAllAt(tags, raws[1..], depth, i - 1); }
  }

  /** The converted object holds each key with the conversion of the value at its last place. */
  lemma ConvertedObject(tags: Tags, keys: seq<Option<string>>, values: seq<Raw>, depth: nat, q: string)
    requires Convert(tags, RawObject(keys, values), depth).Ok?
    ensures var v := Convert(tags, RawObject(keys, values), depth).value;
            && v.Tagged? && |v.fields| == 2 && v.fields[1].HashMap?
            && var m := v.fields[1];
            && |keys| == |values| && |m.keys| == |m.values| && Sorted(m.keys)
            && (forall i: nat | LastEntry(keys, q, i) ::
                  var converted := Convert(tags, values[i], depth + 1);
                  converted.Ok? && Holds(m.keys, m.values, q, converted.value))
            && (Some(q) !in keys ==> q !in m.keys)
  {
    var vs := ConvertAll(tags, values, depth + 1).value;
    CollectedHolds(keys, vs, q);
    forall i: nat | i < |values| ensures Convert(tags, values[i], depth + 1) == Ok(vs[i]) {
      ConvertAllAt(tags, values, depth + 1, i);
    }
  }

  /** The converted array holds the conversion of every item at its place. */
  lemma ConvertedArray(tags: Tags, items: seq<Raw>, depth: nat, i: nat)
    requires Convert(tags, RawArray(items), depth).Ok? && i < |items|
    ensures var v := Convert(tags, RawArray(items), depth).value;
            && v.Tagged? && |v.fields| == 2 && v.fields[1].List? && |v.fields[1].items| == |items|
            && Convert(tags, items[i], depth + 1) == Ok(v.fields[1].items[i])
  {
    ConvertAllAt(tags, items, depth + 1, i);
  }

  /** The variant a token becomes, as its place in the declaration of `JsonValue`. */
  function VariantIndex(raw: Raw): (k: nat)
    ensures k < 7
  {
    match raw
    case RawNull => 0
    case RawBool(_) => 1
    case RawInt(_) => 2
    case RawFloat(_) => 3
    case RawString(_) => 4
    case RawArray(_) => 5
    case RawObject(_, _) => 6
  }

  /** A converted value carries the tag and the number of its variant, and a scalar its own payload. */
  lemma ConvertedVariant(tags: Tags, raw: Raw, depth: nat)
    requires Convert(tags, raw, depth).Ok?
    ensures var v := Convert(tags, raw, depth).value;
            && v.Tagged? && v.tag == tags.All()[VariantIndex(raw)]
            && |v.fields| == (if raw.RawNull? then 1 else 2) && v.fields[0] == Int(VariantIndex(raw))
            && match raw
               case RawBool(b) => v.fields[1] == Bool(b)
               case RawInt(n) => v.fields[1] == Int(n)
               case RawFloat(float) => float.Some? && v.fields[1] == Real(Finite(float.value))
               case RawString(text) => text.Some? && v.fields[1] == Str(text.value)
               case _ => true
  {}

  // ---------- Parsing as the runtime performs it ----------

  /** `done` followed by what remains to be converted. */
  function Resume(done: seq<Value>, rest: Result<seq<Value>, ParseError>): Result<seq<Value>, ParseError> {
    match rest
    case Ok(vs) => Ok(done + vs)
    case Err(e) => Err(e)
  }

  lemma ResumeNothing(rest: Result<seq<Value>, ParseError>)
    ensures Resume([], rest) == rest
  {
    if rest.Ok? { assert [] + rest.value == rest.value; }
  }

  lemma ResumeStep(tags: Tags, raws: seq<Raw>, depth: nat, i: nat, done: seq<Value>)
    requires i < |raws|
    ensures match Convert(tags, raws[i], depth)
            case Err(e) => Resume(done, ConvertAll(tags, raws[i..], depth)) == Err(e)
            case Ok(v) =>
              Resume(done, ConvertAll(tags, raws[i..], depth))
              == Resume(done + [v], ConvertAll(tags, raws[i + 1..], depth))
  {
    hide Convert;
    assert raws[i..][0] == raws[i] && raws[i..][1..] == raws[i + 1..];
    match Convert(tags, raws[i], depth)
    case Err(_) =>
    case Ok(v) =>
      match ConvertAll(tags, raws[i + 1..], depth)
      case Err(_) =>
      case Ok(vs) => assert done + ([v] + vs) == done + [v] + vs;
  }

  /** The array is converted item by item, the object into a map rebuilt at every entry. */
  method ParseValue(tags: Tags, raw: Raw, depth: nat) returns (r: Result<Value, ParseError>)
    ensures r == Convert(tags, raw, depth)
    decreases raw, 1
  {
    match raw
    case RawArray(items) =>
      if depth >= DEPTH_LIMIT { return Err(DepthExceeded(depth, DEPTH_LIMIT)); }
      var out := [];
      assert items[0..] == items;
      ResumeNothing(ConvertAll(tags, items, depth + 1));
      for i := 0 to |items|
        invariant Resume(out, ConvertAll(tags, items[i..], depth + 1)) == ConvertAll(tags, items, depth + 1)
      {
        ResumeStep(tags, items, depth + 1, i, out);
        var item := ParseValue(tags, items[i], depth + 1);
        if item.Err? { return Err(item.error); }
        out := out + [item.value];
      }
      assert out + [] == out;
      r := Ok(Variant(tags.arrayTag, 5, [List(out)]));
    case RawObject(keys, values) =>
      if depth >= DEPTH_LIMIT { return Err(DepthExceeded(depth, DEPTH_LIMIT)); }
      if !KeysDecode(keys, values) { return Err(Invalid); }
      r := ParseEntries(tags, Decoded(keys), values, depth);
    case _ => r := Convert(tags, raw, depth);
  }

  method ParseEntries(tags: Tags, keys: seq<string>, values: seq<Raw>, depth: nat)
    returns (r: Result<Value, ParseError>)
    requires |keys| == |values|
    ensures match ConvertAll(tags, values, depth + 1)
            case Err(e) => r == Err(e)
            case Ok(vs) => r == Ok(Variant(tags.objectTag, 6, [HashMap(CollectKeys(keys), CollectValues(keys, vs))]))
    decreases values, 0
  {
    hide InsertKey, InsertValue, Variant;
    ghost var out := [];
    var mapKeys, mapValues := [], [];
    assert values[0..] == values;
    ResumeNothing(ConvertAll(tags, values, depth + 1));
    for i := 0 to |values|
      invariant |out| == i && mapKeys == CollectKeys(keys[..i]) && mapValues == CollectValues(keys[..i], out)
      invariant Resume(out, ConvertAll(tags, values[i..], depth + 1)) == ConvertAll(tags, values, depth + 1)
    {
      ResumeStep(tags, values, depth + 1, i, out);
      var value := ParseValue(tags, values[i], depth + 1);
      if value.Err? { return Err(value.error); }
      CollectSnoc(keys[..i], keys[i], out, value.value);
      assert keys[..i + 1] == keys[..i] + [keys[i]];
      mapValues := InsertValue(mapKeys, mapValues, keys[i], value.value);
      mapKeys := InsertKey(mapKeys, keys[i]);
      out := out + [value.value];
    }
    assert keys[..|values|] == keys && out + [] == out;
    r := Ok(Variant(tags.objectTag, 6, [HashMap(mapKeys, mapValues)]));
  }

  lemma CollectSnoc<X>(keys: seq<string>, k: string, values: seq<X>, v: X)
    requires |keys| == |values|
    ensures CollectKeys(keys + [k]) == InsertKey(CollectKeys(keys), k)
    ensures CollectValues(keys + [k], values + [v]) == InsertValue(CollectKeys(keys), CollectValues(keys, values), k, v)
  {
    assert (keys + [k])[..|keys|] == keys && (values + [v])[..|values|] == values;
  }
}
