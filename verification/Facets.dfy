/**
  The list and map accessors behind facets (crates/eldr/src/builtin.rs). An index counts from the front,
  or from the back when it is negative; a slice is inclusive at both ends.
 */
module Facets {
  import opened Wrappers
  import opened MachineWords

  datatype FacetError =
    | IndexOutOfBounds(index: int, len: nat)
    | RangeReversed(start: int, end: int, len: nat)
    | KeyNotFound(key: string)

  /** `facet_index_to_usize`. */
  function Resolve(index: int, len: nat): Result<nat, FacetError> {
    if index < 0 then
      (if -index < WORD && 0 < -index <= len then Ok(len + index) else Err(IndexOutOfBounds(index, len)))
    else
      (if index < WORD && index < len then Ok(index) else Err(IndexOutOfBounds(index, len)))
  }

  /** `facet_range_to_bounds`: both ends are resolved, the start first, before their order is checked. */
  function ResolveRange(start: int, end: int, len: nat): Result<(nat, nat), FacetError> {
    match Resolve(start, len)
    case Err(e) => Err(e)
    case Ok(s) =>
      match Resolve(end, len)
      case Err(e) => Err(e)
      case Ok(t) => if s > t then Err(RangeReversed(start, end, len)) else Ok((s, t))
  }

  function ListGet<T>(list: seq<T>, index: int): Result<T, FacetError> {
    match Resolve(index, |list|)
    case Err(e) => Err(e)
    case Ok(i) => Ok(list[i])
  }

  function ListSet<T>(list: seq<T>, index: int, value: T): Result<seq<T>, FacetError> {
    match Resolve(index, |list|)
    case Err(e) => Err(e)
    case Ok(i) => Ok(list[i := value])
  }

  function SliceGet<T>(list: seq<T>, start: int, end: int): Result<seq<T>, FacetError> {
    match ResolveRange(start, end, |list|)
    case Err(e) => Err(e)
    case Ok((s, t)) => Ok(list[s..t + 1])
  }

  function SliceSet<T>(list: seq<T>, start: int, end: int, replacement: seq<T>): Result<seq<T>, FacetError> {
    match ResolveRange(start, end, |list|)
    case Err(e) => Err(e)
    case Ok((s, t)) => Ok(list[..s] + replacement + list[t + 1..])
  }

  function MapGet<T>(entries: map<string, T>, key: string): Result<T, FacetError> {
    if key in entries then Ok(entries[key]) else Err(KeyNotFound(key))
  }

  /** Replaces the value of a key; a missing key is not added. */
  function MapSetExisting<T>(entries: map<string, T>, key: string, value: T): Result<map<string, T>, FacetError> {
    if key !in entries then Err(KeyNotFound(key)) else Ok(entries[key := value])
  }

  /** An index is accepted exactly between -len and len - 1, and names the element it counts to. */
  lemma ResolveExact(index: int, len: nat)
    requires len < WORD
    ensures Resolve(index, len).Ok? <==> 0 - len <= index < len
    ensures Resolve(index, len).Ok? ==> Resolve(index, len).value == if index < 0 then len + index else index
  {}

  /** The element an accepted index names is read and replaced; every other index is refused. */
  lemma ListAccess<T>(list: seq<T>, index: int, v: T)
    requires |list| < WORD
    ensures var p := if index < 0 then |list| + index else index;
            if 0 <= p < |list| then
              ListGet(list, index) == Ok(list[p]) && ListSet(list, index, v) == Ok(list[..p] + [v] + list[p + 1..])
            else
              && ListGet(list, index) == Err(IndexOutOfBounds(index, |list|))
              && ListSet(list, index, v) == Err(IndexOutOfBounds(index, |list|))
  {
    ResolveExact(index, |list|);
    var p := if index < 0 then |list| + index else index;
    if 0 <= p < |list| {
      hide Resolve;
      UpdateSplices(list, p, v);
    }
  }

  lemma UpdateSplices<T>(list: seq<T>, p: nat, v: T)
    requires p < |list|
    ensures list[p := v] == list[..p] + [v] + list[p + 1..]
  {}

  /** A key that is there is read and replaced; a missing one is refused. */
  lemma MapAccess<T>(entries: map<string, T>, key: string, v: T)
    ensures if key in entries then
              MapGet(entries, key) == Ok(entries[key]) && MapSetExisting(entries, key, v) == Ok(entries[key := v])
            else
              MapGet(entries, key) == Err(KeyNotFound(key)) && MapSetExisting(entries, key, v) == Err(KeyNotFound(key))
  {}

  /**
    A range is accepted exactly when both ends name elements and the first does not lie behind the last.
    The slice is then all elements between them. Of several faults the start's is reported, then the end's.
   */
  lemma SliceAccess<T>(list: seq<T>, start: int, end: int, replacement: seq<T>)
    requires |list| < WORD
    ensures var p, q := if start < 0 then |list| + start else start, if end < 0 then |list| + end else end;
            var get, put := SliceGet(list, start, end), SliceSet(list, start, end, replacement);
            if !(0 <= p < |list|) then get == Err(IndexOutOfBounds(start, |list|)) && put == Err(get.error)
            else if !(0 <= q < |list|) then get == Err(IndexOutOfBounds(end, |list|)) && put == Err(get.error)
            else if p > q then get == Err(RangeReversed(start, end, |list|)) && put == Err(get.error)
            else
              && get.Ok? && |get.value| == q - p + 1
              && (forall k | 0 <= k <= q - p :: get.value[k] == list[p + k])
              && put == Ok(list[..p] + replacement + list[q + 1..])
  {}

  /** Reading, writing and writing again at one index obey the lens laws; failures are the same ones. */
  lemma ListLens<T>(list: seq<T>, index: int, v: T, w: T)
    ensures ListGet(list, index).Ok? <==> ListSet(list, index, v).Ok?
    ensures ListGet(list, index).Err? ==> ListSet(list, index, v) == Err(ListGet(list, index).error)
    ensures ListGet(list, index).Ok? ==>
              var put := ListSet(list, index, v).value;
              && ListGet(put, index) == Ok(v)
              && ListSet(put, index, w) == ListSet(list, index, w)
              && ListSet(list, index, ListGet(list, index).value) == Ok(list)
              && (forall j | 0 <= j < |list| && Ok(j) != Resolve(index, |list|) :: put[j] == list[j])
  {
    if Resolve(index, |list|).Ok? {
      var i := Resolve(index, |list|).value;
      assert list[i := v][i := w] == list[i := w] && list[i := list[i]] == list;
    }
  }

  /** The same laws at one key: no key comes or goes, the others keep their values, failures are the same ones. */
  lemma MapLens<T>(entries: map<string, T>, key: string, v: T, w: T)
    ensures MapGet(entries, key).Ok? <==> MapSetExisting(entries, key, v).Ok?
    ensures MapGet(entries, key).Err? ==> MapSetExisting(entries, key, v) == Err(MapGet(entries, key).error)
    ensures MapGet(entries, key).Ok? ==>
              var put := MapSetExisting(entries, key, v).value;
              && put.Keys == entries.Keys
              && MapGet(put, key) == Ok(v)
              && MapSetExisting(put, key, w) == MapSetExisting(entries, key, w)
              && MapSetExisting(entries, key, MapGet(entries, key).value) == Ok(entries)
              && (forall other | other != key :: MapGet(put, other) == MapGet(entries, other))
  {
    if key in entries {
      assert entries[key := v][key := w] == entries[key := w] && entries[key := entries[key]] == entries;
    }
  }

  /** Writing back the slice that was read changes nothing. */
  lemma SliceSetOwnSlice<T>(list: seq<T>, start: int, end: int)
    requires SliceGet(list, start, end).Ok?
    ensures SliceSet(list, start, end, SliceGet(list, start, end).value) == Ok(list)
  {
    var (s, t) := ResolveRange(start, end, |list|).value;
    assert list[..s] + list[s..t + 1] + list[t + 1..] == list;
  }

  /** The replaced list: what lies outside the range keeps its order, and the length changes by the difference. */
  lemma SliceSetShape<T>(list: seq<T>, start: int, end: int, replacement: seq<T>)
    requires ResolveRange(start, end, |list|).Ok?
    ensures var (s, t) := ResolveRange(start, end, |list|).value;
            var put := SliceSet(list, start, end, replacement).value;
            && |put| == |list| - (t - s + 1) + |replacement|
            && put[..s] == list[..s]
            && put[s..s + |replacement|] == replacement
            && put[s + |replacement|..] == list[t + 1..]
  {}

  /**
    A replacement is read back under the same indices exactly when it has the length of the range, or
    the range counts its start from the front and its end from the back and the replacement is not empty.
   */
  lemma SliceReadsBack<T>(list: seq<T>, start: int, end: int, replacement: seq<T>)
    requires |list| + |replacement| < WORD && ResolveRange(start, end, |list|).Ok?
    ensures var (s, t) := ResolveRange(start, end, |list|).value;
            SliceGet(SliceSet(list, start, end, replacement).value, start, end) == Ok(replacement)
            <==> |replacement| == t - s + 1 || (start >= 0 && end < 0 && replacement != [])
  {
    var (s, t) := ResolveRange(start, end, |list|).value;
    var put := SliceSet(list, start, end, replacement).value;
    SliceSetShape(list, start, end, replacement);
    var bounds := ResolveRange(start, end, |put|);
    if |replacement| == t - s + 1 || (start >= 0 && end < 0 && replacement != []) {
      assert bounds == Ok((s, s + |replacement| - 1));
    } else if bounds.Ok? {
      var (s', t') := bounds.value;
      assert t' + 1 - s' != |replacement|;
    }
  }
}
