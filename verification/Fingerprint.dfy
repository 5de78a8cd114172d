/**
  The alpha-canonical form of a typed program (`semantic_fingerprint` in
  crates/rune/examples/scar-session-profile.rs).

  Compiler-generated binders draw their identifiers from a process-global supply. The walk renumbers
  them by first occurrence, so that two programs can be compared up to a one-to-one renaming.
 */
module Fingerprint {
  import opened Wrappers
  import opened MachineWords

  datatype Scalar = Null | Bool(b: bool) | Unsigned(n: Word) | Negative(i: int) | Float(bits: Word) | Str(s: string)

  /** A JSON value; an object is its sorted distinct keys with the value of each. */
  datatype Value =
    | Leaf(s: Scalar)
    | Array(items: seq<Value>)
    | Object(keys: seq<string>, values: seq<Value>)

  // ---------- Binder objects ----------

  /** The first position of `x`, or the length of `xs`. */
  function IndexOf<T(==)>(xs: seq<T>, x: T): (i: nat)
    ensures i <= |xs|
    ensures i < |xs| ==> xs[i] == x
    ensures i < |xs| <==> x in xs
    ensures forall j | 0 <= j < i :: xs[j] != x
  {
    if xs == [] then 0 else if xs[0] == x then 0 else 1 + IndexOf(xs[1..], x)
  }

  predicate Has(keys: seq<string>, values: seq<Value>, key: string) {
    IndexOf(keys, key) < |keys| && IndexOf(keys, key) < |values|
  }

  predicate Is(keys: seq<string>, values: seq<Value>, key: string, s: Scalar) {
    Has(keys, values, key) && values[IndexOf(keys, key)] == Leaf(s)
  }

  /** An unqualified compiler-generated resolved identifier. */
  predicate Generated(keys: seq<string>, values: seq<Value>) {
    && Is(keys, values, "compiler_generated", Bool(true))
    && Is(keys, values, "qualified_name", Null)
    && Has(keys, values, "name")
    && Has(keys, values, "span")
    && Has(keys, values, "unique_id")
  }

  /** A generated identifier whose `unique_id` is a number: the objects the walk rewrites. */
  predicate Binder(keys: seq<string>, values: seq<Value>) {
    && Generated(keys, values)
    && values[IndexOf(keys, "unique_id")].Leaf?
    && values[IndexOf(keys, "unique_id")].s.Unsigned?
  }

  function Slot(keys: seq<string>, values: seq<Value>): (i: nat)
    requires Generated(keys, values)
    ensures i < |keys| && i < |values|
  {
    IndexOf(keys, "unique_id")
  }

  function Uid(keys: seq<string>, values: seq<Value>): Word
    requires Binder(keys, values)
  {
    values[Slot(keys, values)].s.n
  }

  // ---------- The canonical name of a binder ----------

  function Decimal(n: nat): (d: string)
    ensures |d| > 0
  {
    if n < 10 then ['0' + n as char] else Decimal(n / 10) + ['0' + (n % 10) as char]
  }

  const PREFIX := "synthetic_binding:"

  function Name(ordinal: nat): Scalar {
    Str(PREFIX + Decimal(ordinal))
  }

  /** The number a string of digits stands for. */
  function ReadDecimal(d: string): nat {
    if d == "" then 0 else
    var last := d[|d| - 1];
    10 * ReadDecimal(d[..|d| - 1]) + if '0' <= last <= '9' then last as nat - '0' as nat else 0
  }

  /** The digits read back as the number, and the first is a zero only in `0` itself. */
  lemma {:induction false} DecimalReadsBack(n: nat)
    ensures ReadDecimal(Decimal(n)) == n
    ensures forall c | c in Decimal(n) :: '0' <= c <= '9'
    ensures Decimal(n)[0] == '0' <==> n == 0
  {
    var d := Decimal(n);
    if n < 10 {
      assert d[..0] == "";
    } else {
      DecimalReadsBack(n / 10);
      assert d[..|d| - 1] == Decimal(n / 10);
    }
  }

  lemma NameInjective(m: nat, n: nat)
    requires Name(m) == Name(n)
    ensures m == n
  {
    assert (PREFIX + Decimal(m))[|PREFIX|..] == Decimal(m);
    assert (PREFIX + Decimal(n))[|PREFIX|..] == Decimal(n);
    DecimalReadsBack(m);
    DecimalReadsBack(n);
  }

  // ---------- The walk ----------

  /** The identifiers met so far in order of first occurrence; the position is the ordinal. */
  function Intern(seen: seq<Word>, uid: Word): seq<Word> {
    if uid in seen then seen else seen + [uid]
  }

  function Norm(v: Value, seen: seq<Word>): (r: (Value, seq<Word>))
    decreases v, 1
  {
    match v
    case Leaf(_) => (v, seen)
    case Array(items) =>
      var (items', seen') := NormAll(items, seen);
      (Array(items'), seen')
    case Object(keys, values) =>
      if Binder(keys, values) then
        var uid := Uid(keys, values);
        var (values', seen') := NormAll(values, Intern(seen, uid));
        (Object(keys, values'[Slot(keys, values) := Leaf(Name(IndexOf(seen, uid)))]), seen')
      else
        var (values', seen') := NormAll(values, seen);
        (Object(keys, values'), seen')
  }

  function NormAll(vs: seq<Value>, seen: seq<Word>): (r: (seq<Value>, seq<Word>))
    ensures |r.0| == |vs|
    decreases vs, 0
  {
    if vs == [] then ([], seen) else
    var (head, seen') := Norm(vs[0], seen);
    var (tail, seen'') := NormAll(vs[1..], seen');
    ([head] + tail, seen'')
  }

  // ---------- Renaming ----------

  function Rename(v: Value, to: map<Word, Word>): (r: Value)
    decreases v, 1
  {
    match v
    case Leaf(_) => v
    case Array(items) => Array(RenameAll(items, to))
    case Object(keys, values) =>
      if Binder(keys, values) then
        var uid := Uid(keys, values);
        Object(keys, RenameAll(values, to)[Slot(keys, values) := Leaf(Unsigned(if uid in to then to[uid] else uid))])
      else
        Object(keys, RenameAll(values, to))
  }

  function RenameAll(vs: seq<Value>, to: map<Word, Word>): (r: seq<Value>)
    ensures |r| == |vs|
    decreases vs, 0
  {
    if vs == [] then [] else [Rename(vs[0], to)] + RenameAll(vs[1..], to)
  }

  /** The identifiers a renaming of `v` has to cover. */
  function Uids(v: Value): set<Word>
    decreases v, 1
  {
    match v
    case Leaf(_) => {}
    case Array(items) => UidsAll(items)
    case Object(keys, values) => UidsAll(values) + if Binder(keys, values) then {Uid(keys, values)} else {}
  }

  function UidsAll(vs: seq<Value>): set<Word>
    decreases vs, 0
  {
    if vs == [] then {} else Uids(vs[0]) + UidsAll(vs[1..])
  }

  /** No generated identifier carries a name that the walk itself hands out. */
  ghost predicate Clean(v: Value)
    decreases v, 1
  {
    match v
    case Leaf(_) => true
    case Array(items) => CleanAll(items)
    case Object(keys, values) =>
      && CleanAll(values)
      && (Generated(keys, values) ==> forall ordinal: nat :: values[Slot(keys, values)] != Leaf(Name(ordinal)))
  }

  ghost predicate CleanAll(vs: seq<Value>)
    decreases vs, 0
  {
    vs == [] || (Clean(vs[0]) && CleanAll(vs[1..]))
  }

  /** Trees of the same shape and keys that are rewritten at the same objects. */
  predicate SameBinders(v: Value, w: Value)
    decreases v, 1
  {
    match v
    case Leaf(_) => w.Leaf?
    case Array(items) => w.Array? && SameBindersAll(items, w.items)
    case Object(keys, values) =>
      && w.Object?
      && w.keys == keys
      && (Binder(keys, values) <==> Binder(keys, w.values))
      && SameBindersAll(values, w.values)
  }

  predicate SameBindersAll(vs: seq<Value>, ws: seq<Value>)
    decreases vs, 0
  {
    |vs| == |ws| && (vs == [] || (SameBinders(vs[0], ws[0]) && SameBindersAll(vs[1..], ws[1..])))
  }

  ghost predicate OneToOne(to: map<Word, Word>) {
    forall a, b | a in to && b in to && to[a] == to[b] :: a == b
  }

  ghost predicate Distinct(seen: seq<Word>) {
    forall i, j | 0 <= i < j < |seen| :: seen[i] != seen[j]
  }

  // ---------- What the rewriting of a slot keeps ----------

  /** `after` keeps every scalar outside the slot and turns no container into a scalar. */
  ghost predicate KeepsLeaves(before: seq<Value>, after: seq<Value>) {
    && |after| == |before|
    && (forall j | 0 <= j < |before| :: before[j].Leaf? <==> after[j].Leaf?)
    && (forall j | 0 <= j < |before| && before[j].Leaf? :: after[j] == before[j])
  }

  lemma NormKeepsLeaves(vs: seq<Value>, seen: seq<Word>)
    ensures KeepsLeaves(vs, NormAll(vs, seen).0)
  {}

  lemma RenameKeepsLeaves(vs: seq<Value>, to: map<Word, Word>)
    ensures KeepsLeaves(vs, RenameAll(vs, to))
  {}

  /** A binder stays a generated identifier with the same slot, whatever scalar the slot receives. */
  lemma SlotStays(keys: seq<string>, before: seq<Value>, after: seq<Value>, s: Scalar)
    requires Generated(keys, before) && KeepsLeaves(before, after)
    ensures Generated(keys, after[Slot(keys, before) := Leaf(s)])
    ensures Slot(keys, after[Slot(keys, before) := Leaf(s)]) == Slot(keys, before)
  {}

  lemma GeneratedStays(keys: seq<string>, before: seq<Value>, after: seq<Value>)
    requires KeepsLeaves(before, after)
    ensures Generated(keys, after) <==> Generated(keys, before)
    ensures Binder(keys, after) <==> Binder(keys, before)
  {}

  // ---------- The walk only adds to what it has seen ----------

  /** `later` extends `seen`, stays free of repetitions and holds `uids`. */
  ghost predicate Grows(seen: seq<Word>, later: seq<Word>, uids: set<Word>) {
    seen <= later && (Distinct(seen) ==> Distinct(later)) && forall u | u in uids :: u in later
  }

  lemma {:induction false} NormGrows(v: Value, seen: seq<Word>)
    ensures Grows(seen, Norm(v, seen).1, Uids(v))
    decreases v, 1
  {
    match v
    case Leaf(_) =>
    case Array(items) => NormAllGrows(items, seen);
    case Object(keys, values) =>
      if Binder(keys, values) {
        var uid := Uid(keys, values);
        NormAllGrows(values, Intern(seen, uid));
        assert uid in Intern(seen, uid);
      } else {
        NormAllGrows(values, seen);
      }
  }

  lemma {:induction false} NormAllGrows(vs: seq<Value>, seen: seq<Word>)
    ensures Grows(seen, NormAll(vs, seen).1, UidsAll(vs))
    decreases vs, 0
  {
    if vs != [] {
      NormGrows(vs[0], seen);
      NormAllGrows(vs[1..], Norm(vs[0], seen).1);
    }
  }

  // ---------- Normalising twice ----------

  lemma {:induction false} NormTwice(v: Value, seen: seq<Word>, later: seq<Word>)
    ensures Norm(Norm(v, seen).0, later) == (Norm(v, seen).0, later)
    decreases v, 1
  {
    match v
    case Leaf(_) =>
    case Array(items) => NormAllTwice(items, seen, later);
    case Object(keys, values) =>
      if Binder(keys, values) {
        var uid := Uid(keys, values);
        var values' := NormAll(values, Intern(seen, uid)).0;
        NormKeepsLeaves(values, Intern(seen, uid));
        var name := Name(IndexOf(seen, uid));
        SlotStays(keys, values, values', name);
        NormAllTwice(values, Intern(seen, uid), later);
        NormAllSet(values', Slot(keys, values), name, later);
      } else {
        NormKeepsLeaves(values, seen);
        GeneratedStays(keys, values, NormAll(values, seen).0);
        NormAllTwice(values, seen, later);
      }
  }

  lemma {:induction false} NormAllTwice(vs: seq<Value>, seen: seq<Word>, later: seq<Word>)
    ensures NormAll(NormAll(vs, seen).0, later) == (NormAll(vs, seen).0, later)
    decreases vs, 0
  {
    if vs != [] {
      NormTwice(vs[0], seen, later);
      NormAllTwice(vs[1..], Norm(vs[0], seen).1, later);
      assert NormAll(vs, seen).0[1..] == NormAll(vs[1..], Norm(vs[0], seen).1).0;
    }
  }

  /** Replacing a scalar by a scalar goes through the walk of a list. */
  lemma {:induction false} NormAllSet(vs: seq<Value>, i: nat, s: Scalar, seen: seq<Word>)
    requires i < |vs| && vs[i].Leaf?
    ensures NormAll(vs[i := Leaf(s)], seen) == (NormAll(vs, seen).0[i := Leaf(s)], NormAll(vs, seen).1)
    decreases vs
  {
    var ws := vs[i := Leaf(s)];
    var tail := NormAll(vs[1..], Norm(vs[0], seen).1).0;
    assert NormAll(vs, seen).0 == [Norm(vs[0], seen).0] + tail;
    if i == 0 {
      assert ws[1..] == vs[1..];
      assert ([vs[0]] + tail)[0 := Leaf(s)] == [Leaf(s)] + tail;
    } else {
      assert ws[1..] == vs[1..][i - 1 := Leaf(s)];
      NormAllSet(vs[1..], i - 1, s, Norm(vs[0], seen).1);
      var head := Norm(vs[0], seen).0;
      assert ([head] + tail)[i := Leaf(s)] == [head] + tail[i - 1 := Leaf(s)];
    }
  }

  // ---------- A renamed program has the same canonical form ----------

  function Mapped(seen: seq<Word>, to: map<Word, Word>): (r: seq<Word>)
    requires forall u | u in seen :: u in to
  {
    seq(|seen|, i requires 0 <= i < |seen| => to[seen[i]])
  }

  lemma MappedIndex(seen: seq<Word>, to: map<Word, Word>, uid: Word)
    requires OneToOne(to) && uid in to && forall u | u in seen :: u in to
    ensures IndexOf(Mapped(seen, to), to[uid]) == IndexOf(seen, uid)
    ensures Intern(Mapped(seen, to), to[uid]) == Mapped(Intern(seen, uid), to)
  {
    assert forall i | 0 <= i < |seen| :: Mapped(seen, to)[i] == to[seen[i]];
  }

  lemma {:induction false} RenamedNorm(v: Value, to: map<Word, Word>, seen: seq<Word>)
    requires OneToOne(to) && Uids(v) <= to.Keys && forall u | u in seen :: u in to
    ensures forall u | u in Norm(v, seen).1 :: u in to
    ensures Norm(Rename(v, to), Mapped(seen, to)) == (Norm(v, seen).0, Mapped(Norm(v, seen).1, to))
    decreases v, 1
  {
    match v
    case Leaf(_) =>
    case Array(items) => RenamedNormAll(items, to, seen);
    case Object(keys, values) =>
      RenameKeepsLeaves(values, to);
      if Binder(keys, values) {
        RenamedNormAll(values, to, Intern(seen, Uid(keys, values)));
        RenamedBinder(keys, values, to, seen);
      } else {
        GeneratedStays(keys, values, RenameAll(values, to));
        RenamedNormAll(values, to, seen);
      }
  }

  lemma {:induction false} RenamedBinder(keys: seq<string>, values: seq<Value>, to: map<Word, Word>, seen: seq<Word>)
    requires Binder(keys, values) && OneToOne(to) && Uid(keys, values) in to && forall u | u in seen :: u in to
    requires var (values', seen') := NormAll(values, Intern(seen, Uid(keys, values)));
             (forall u | u in seen' :: u in to) &&
             NormAll(RenameAll(values, to), Mapped(Intern(seen, Uid(keys, values)), to)) == (values', Mapped(seen', to))
    ensures var (v', seen') := Norm(Object(keys, values), seen);
            Norm(Rename(Object(keys, values), to), Mapped(seen, to)) == (v', Mapped(seen', to))
  {
    hide Generated, Decimal;
    var uid, i := Uid(keys, values), Slot(keys, values);
    var renamed := RenameAll(values, to);
    RenameKeepsLeaves(values, to);
    SlotStays(keys, values, renamed, Unsigned(to[uid]));
    NormAllSet(renamed, i, Unsigned(to[uid]), Mapped(Intern(seen, uid), to));
    MappedIndex(seen, to, uid);
    var values' := NormAll(values, Intern(seen, uid)).0;
    var name := Leaf(Name(IndexOf(seen, uid)));
    assert values'[i := Leaf(Unsigned(to[uid]))][i := name] == values'[i := name];
  }

  lemma {:induction false} RenamedNormAll(vs: seq<Value>, to: map<Word, Word>, seen: seq<Word>)
    requires OneToOne(to) && UidsAll(vs) <= to.Keys && forall u | u in seen :: u in to
    ensures forall u | u in NormAll(vs, seen).1 :: u in to
    ensures NormAll(RenameAll(vs, to), Mapped(seen, to)) == (NormAll(vs, seen).0, Mapped(NormAll(vs, seen).1, to))
    decreases vs, 0
  {
    if vs != [] {
      RenamedNorm(vs[0], to, seen);
      RenamedNormAll(vs[1..], to, Norm(vs[0], seen).1);
      assert RenameAll(vs, to)[1..] == RenameAll(vs[1..], to);
    }
  }

  // ---------- A renaming keeps the binders ----------

  lemma {:induction false} RenameKeepsBinders(v: Value, to: map<Word, Word>)
    ensures SameBinders(v, Rename(v, to))
    decreases v, 1
  {
    match v
    case Leaf(_) =>
    case Array(items) => RenameAllKeepsBinders(items, to);
    case Object(keys, values) =>
      var values' := RenameAll(values, to);
      RenameAllKeepsBinders(values, to);
      RenameKeepsLeaves(values, to);
      GeneratedStays(keys, values, values');
      if Binder(keys, values) {
        var uid := Uid(keys, values);
        var s := Unsigned(if uid in to then to[uid] else uid);
        SlotStays(keys, values, values', s);
        SameBindersSet(values, values', Slot(keys, values), s);
      }
  }

  lemma {:induction false} RenameAllKeepsBinders(vs: seq<Value>, to: map<Word, Word>)
    ensures SameBindersAll(vs, RenameAll(vs, to))
    decreases vs, 0
  {
    if vs != [] {
      RenameKeepsBinders(vs[0], to);
      RenameAllKeepsBinders(vs[1..], to);
      assert RenameAll(vs, to)[1..] == RenameAll(vs[1..], to);
    }
  }

  lemma {:induction false} SameBindersSet(vs: seq<Value>, ws: seq<Value>, i: nat, s: Scalar)
    requires SameBindersAll(vs, ws) && i < |vs| && vs[i].Leaf?
    ensures SameBindersAll(vs, ws[i := Leaf(s)])
  {
    if i > 0 {
      assert ws[i := Leaf(s)][1..] == ws[1..][i - 1 := Leaf(s)];
      SameBindersSet(vs[1..], ws[1..], i - 1, s);
    } else {
      assert ws[i := Leaf(s)][1..] == ws[1..];
    }
  }

  // ---------- Programs with the same canonical form are renamings of each other ----------

  /** The renaming that two aligned walks have built up. */
  function Pairing(from: seq<Word>, to: seq<Word>): map<Word, Word>
    requires |from| == |to|
  {
    map u | u in from :: to[IndexOf(from, u)]
  }

  ghost predicate Aligned(from: seq<Word>, to: seq<Word>) {
    |from| == |to| && Distinct(from) && Distinct(to)
  }

  lemma PairingOneToOne(from: seq<Word>, to: seq<Word>)
    requires Aligned(from, to)
    ensures OneToOne(Pairing(from, to))
  {}

  lemma PairingGrows(from: seq<Word>, to: seq<Word>, from': seq<Word>, to': seq<Word>)
    requires Aligned(from', to') && |from| == |to| && from <= from' && to <= to'
    ensures forall u | u in from :: u in from' && Pairing(from', to')[u] == Pairing(from, to)[u]
  {
    forall u | u in from ensures u in from' && IndexOf(from', u) == IndexOf(from, u) {
      assert from'[IndexOf(from, u)] == u;
    }
  }

  lemma {:induction false} RenameDependsOnUids(v: Value, a: map<Word, Word>, b: map<Word, Word>)
    requires forall u | u in Uids(v) :: u in a && u in b && a[u] == b[u]
    ensures Rename(v, a) == Rename(v, b)
    decreases v, 1
  {
    match v
    case Leaf(_) =>
    case Array(items) => RenameAllDependsOnUids(items, a, b);
    case Object(keys, values) =>
      assert Binder(keys, values) ==> Uid(keys, values) in Uids(v);
      RenameAllDependsOnUids(values, a, b);
  }

  lemma {:induction false} RenameAllDependsOnUids(vs: seq<Value>, a: map<Word, Word>, b: map<Word, Word>)
    requires forall u | u in UidsAll(vs) :: u in a && u in b && a[u] == b[u]
    ensures RenameAll(vs, a) == RenameAll(vs, b)
    decreases vs, 0
  {
    if vs != [] {
      RenameDependsOnUids(vs[0], a, b);
      RenameAllDependsOnUids(vs[1..], a, b);
    }
  }

  /** Equal names at a binder keep the walks aligned and pair the two identifiers. */
  lemma SameOrdinal(from: seq<Word>, to: seq<Word>, u: Word, w: Word)
    requires Aligned(from, to) && IndexOf(from, u) == IndexOf(to, w)
    ensures Aligned(Intern(from, u), Intern(to, w))
    ensures Pairing(Intern(from, u), Intern(to, w))[u] == w
  {}

  /** In clean programs the outputs agree only where both objects are binders or neither is. */
  lemma {:induction false} BinderMatches(
    keys: seq<string>, vs: seq<Value>, ws: seq<Value>, from: seq<Word>, to: seq<Word>)
    requires Binder(keys, vs) && Clean(Object(keys, ws))
    requires Norm(Object(keys, vs), from).0 == Norm(Object(keys, ws), to).0
    ensures Binder(keys, ws)
  {
    if !Binder(keys, ws) {
      var uid := Uid(keys, vs);
      NormKeepsLeaves(vs, Intern(from, uid));
      SlotStays(keys, vs, NormAll(vs, Intern(from, uid)).0, Name(IndexOf(from, uid)));
      NormKeepsLeaves(ws, to);
      GeneratedStays(keys, ws, NormAll(ws, to).0);
      assert false;
    }
  }

  lemma {:induction false} CleanSameBinders(v: Value, w: Value, from: seq<Word>, to: seq<Word>)
    requires Clean(v) && Clean(w) && Norm(v, from).0 == Norm(w, to).0
    ensures SameBinders(v, w)
    decreases v, 1
  {
    hide Generated, Intern;
    match v
    case Leaf(_) =>
    case Array(items) => CleanAllSameBinders(items, w.items, from, to, |items|);
    case Object(keys, values) =>
      if Binder(keys, values) {
        BinderMatches(keys, values, w.values, from, to);
        SameName(keys, values, w.values, from, to);
        CleanAllSameBinders(values, w.values, Intern(from, Uid(keys, values)), Intern(to, Uid(keys, w.values)),
                            Slot(keys, values));
      } else {
        if Binder(keys, w.values) { BinderMatches(keys, w.values, values, to, from); }
        CleanAllSameBinders(values, w.values, from, to, |values|);
      }
  }

  lemma {:induction false} CleanAllSameBinders(
    vs: seq<Value>, ws: seq<Value>, from: seq<Word>, to: seq<Word>, skip: nat)
    requires CleanAll(vs) && CleanAll(ws)
    requires skip < |vs| == |ws| ==> vs[skip].Leaf? && ws[skip].Leaf?
    requires SameExcept(NormAll(vs, from).0, NormAll(ws, to).0, skip)
    ensures SameBindersAll(vs, ws)
    decreases vs, 0
  {
    hide Norm, Clean, SameExcept;
    SameLength(NormAll(vs, from).0, NormAll(ws, to).0, skip);
    if vs != [] {
      var from1, to1 := Norm(vs[0], from).1, Norm(ws[0], to).1;
      SameCons(Norm(vs[0], from).0, NormAll(vs[1..], from1).0, Norm(ws[0], to).0, NormAll(ws[1..], to1).0, skip);
      if skip != 0 { CleanSameBinders(vs[0], ws[0], from, to); }
      CleanAllSameBinders(vs[1..], ws[1..], from1, to1, if skip == 0 then |vs| else skip - 1);
    }
  }

  lemma {:induction false} SameName(keys: seq<string>, vs: seq<Value>, ws: seq<Value>, from: seq<Word>, to: seq<Word>)
    requires Binder(keys, vs) && Binder(keys, ws) && Norm(Object(keys, vs), from).0 == Norm(Object(keys, ws), to).0
    ensures |vs| == |ws| && IndexOf(from, Uid(keys, vs)) == IndexOf(to, Uid(keys, ws))
    ensures SameExcept(NormAll(vs, Intern(from, Uid(keys, vs))).0,
                       NormAll(ws, Intern(to, Uid(keys, ws))).0, Slot(keys, vs))
  {
    hide Generated, Decimal;
    var u, w := Uid(keys, vs), Uid(keys, ws);
    var vs', ws' := NormAll(vs, Intern(from, u)).0, NormAll(ws, Intern(to, w)).0;
    var i := Slot(keys, vs);
    var o, o' := IndexOf(from, u), IndexOf(to, w);
    assert vs'[i := Leaf(Name(o))] == ws'[i := Leaf(Name(o'))];
    assert vs'[i := Leaf(Name(o))][i] == ws'[i := Leaf(Name(o'))][i];
    NameInjective(o, o');
    forall j | 0 <= j < |vs| && j != i ensures vs'[j] == ws'[j] {
      assert vs'[i := Leaf(Name(o))][j] == ws'[i := Leaf(Name(o'))][j];
    }
  }

  lemma {:induction false} SameNorm(v: Value, w: Value, from: seq<Word>, to: seq<Word>)
    requires Aligned(from, to) && SameBinders(v, w) && Norm(v, from).0 == Norm(w, to).0
    ensures var from', to' := Norm(v, from).1, Norm(w, to).1;
            Aligned(from', to') && Rename(v, Pairing(from', to')) == w
    decreases v, 1
  {
    hide Generated, Distinct, Pairing, Intern;
    match v
    case Leaf(_) =>
    case Array(items) =>
      SameNormAll(items, w.items, from, to, |items|);
      assert RenameAll(items, Pairing(NormAll(items, from).1, NormAll(w.items, to).1)) == w.items;
    case Object(keys, values) =>
      if Binder(keys, values) {
        var u, u' := Uid(keys, values), Uid(keys, w.values);
        SameName(keys, values, w.values, from, to);
        SameOrdinal(from, to, u, u');
        SameNormAll(values, w.values, Intern(from, u), Intern(to, u'), Slot(keys, values));
        SameSlot(keys, values, w.values, from, to);
      } else {
        SameNormAll(values, w.values, from, to, |values|);
        assert RenameAll(values, Pairing(NormAll(values, from).1, NormAll(w.values, to).1)) == w.values;
      }
  }

  /** The slot of a binder receives the paired identifier. */
  lemma {:induction false} SameSlot(keys: seq<string>, vs: seq<Value>, ws: seq<Value>, from: seq<Word>, to: seq<Word>)
    requires |vs| == |ws| && Binder(keys, vs) && Binder(keys, ws) && Aligned(from, to)
    requires IndexOf(from, Uid(keys, vs)) == IndexOf(to, Uid(keys, ws))
    requires var from', to' := NormAll(vs, Intern(from, Uid(keys, vs))).1, NormAll(ws, Intern(to, Uid(keys, ws))).1;
             && Aligned(from', to')
             && SameExcept(RenameAll(vs, Pairing(from', to')), ws, Slot(keys, vs))
    ensures var from', to' := NormAll(vs, Intern(from, Uid(keys, vs))).1, NormAll(ws, Intern(to, Uid(keys, ws))).1;
            Rename(Object(keys, vs), Pairing(from', to')) == Object(keys, ws)
  {
    var u, w := Uid(keys, vs), Uid(keys, ws);
    var from', to' := NormAll(vs, Intern(from, u)).1, NormAll(ws, Intern(to, w)).1;
    NormAllGrows(vs, Intern(from, u));
    NormAllGrows(ws, Intern(to, w));
    SameOrdinal(from, to, u, w);
    PairingGrows(Intern(from, u), Intern(to, w), from', to');
    assert Pairing(from', to')[u] == w;
    assert RenameAll(vs, Pairing(from', to'))[Slot(keys, vs) := Leaf(Unsigned(w))] == ws;
  }

  lemma {:induction false} SameNormAll(vs: seq<Value>, ws: seq<Value>, from: seq<Word>, to: seq<Word>, skip: nat)
    requires Aligned(from, to) && SameBindersAll(vs, ws)
    requires skip < |vs| == |ws| ==> vs[skip].Leaf? && ws[skip].Leaf?
    requires SameExcept(NormAll(vs, from).0, NormAll(ws, to).0, skip)
    ensures var from', to' := NormAll(vs, from).1, NormAll(ws, to).1;
            Aligned(from', to') && SameExcept(RenameAll(vs, Pairing(from', to')), ws, skip)
    decreases vs, 0
  {
    hide Distinct, Pairing, Norm, Rename, SameBinders, Uids, SameExcept;
    SameLength(NormAll(vs, from).0, NormAll(ws, to).0, skip);
    if vs == [] {
      SameEmpty(skip);
    } else {
      var from1, to1 := Norm(vs[0], from).1, Norm(ws[0], to).1;
      SameCons(Norm(vs[0], from).0, NormAll(vs[1..], from1).0, Norm(ws[0], to).0, NormAll(ws[1..], to1).0, skip);
      if skip == 0 {
        NormLeaf(vs[0], from);
        NormLeaf(ws[0], to);
      } else {
        SameNorm(vs[0], ws[0], from, to);
      }
      SameNormAll(vs[1..], ws[1..], from1, to1, if skip == 0 then |vs| else skip - 1);
      if skip != 0 { HeadRenamed(vs, ws, from, to); }
      var pairs := Pairing(NormAll(vs, from).1, NormAll(ws, to).1);
      SameCons(Rename(vs[0], pairs), RenameAll(vs[1..], pairs), ws[0], ws[1..], skip);
      assert [ws[0]] + ws[1..] == ws;
    }
  }

  /** Lists that agree outside one position. */
  ghost predicate SameExcept(xs: seq<Value>, ys: seq<Value>, skip: nat) {
    |xs| == |ys| && forall j | 0 <= j < |xs| && j != skip :: xs[j] == ys[j]
  }

  lemma SameLength(xs: seq<Value>, ys: seq<Value>, skip: nat)
    requires SameExcept(xs, ys, skip)
    ensures |xs| == |ys|
  {}

  lemma SameEmpty(skip: nat)
    ensures SameExcept([], [], skip)
  {}

  lemma SameCons(x: Value, xs: seq<Value>, y: Value, ys: seq<Value>, skip: nat)
    ensures SameExcept([x] + xs, [y] + ys, skip) <==>
            (skip != 0 ==> x == y) && SameExcept(xs, ys, if skip == 0 then |xs| + 1 else skip - 1)
  {
    var skip' := if skip == 0 then |xs| + 1 else skip - 1;
    if SameExcept([x] + xs, [y] + ys, skip) {
      assert ([x] + xs)[0] == x && ([y] + ys)[0] == y;
      forall j | 0 <= j < |xs| && j != skip' ensures xs[j] == ys[j] {
        assert ([x] + xs)[j + 1] == ([y] + ys)[j + 1];
      }
    }
    if (skip != 0 ==> x == y) && SameExcept(xs, ys, skip') {
      forall j | 0 <= j < |xs| + 1 && j != skip ensures ([x] + xs)[j] == ([y] + ys)[j] {
        if j > 0 { assert xs[j - 1] == ys[j - 1]; }
      }
    }
  }

  lemma NormLeaf(v: Value, seen: seq<Word>)
    requires v.Leaf?
    ensures Norm(v, seen) == (v, seen)
  {}

  /** What the head has paired stays paired through the tail. */
  lemma {:induction false} HeadRenamed(vs: seq<Value>, ws: seq<Value>, from: seq<Word>, to: seq<Word>)
    requires vs != [] && ws != [] && Aligned(NormAll(vs, from).1, NormAll(ws, to).1)
    requires var from1, to1 := Norm(vs[0], from).1, Norm(ws[0], to).1;
             Aligned(from1, to1) && Rename(vs[0], Pairing(from1, to1)) == ws[0]
    ensures Rename(vs[0], Pairing(NormAll(vs, from).1, NormAll(ws, to).1)) == ws[0]
  {
    var from1, to1 := Norm(vs[0], from).1, Norm(ws[0], to).1;
    NormGrows(vs[0], from);
    NormAllGrows(vs[1..], from1);
    NormAllGrows(ws[1..], to1);
    PairingGrows(from1, to1, NormAll(vs, from).1, NormAll(ws, to).1);
    RenameDependsOnUids(vs[0], Pairing(from1, to1), Pairing(NormAll(vs, from).1, NormAll(ws, to).1));
  }

  // ---------- The canonical form ----------

  function Canonical(program: Value): Value {
    Norm(program, []).0
  }

  /** `to` is a one-to-one renaming of the generated identifiers of `v` that gives `w`. */
  ghost predicate RenamesTo(v: Value, to: map<Word, Word>, w: Value) {
    OneToOne(to) && Uids(v) <= to.Keys && Rename(v, to) == w
  }

  /** A renaming keeps the canonical form of every program, and where its binders are. */
  lemma RenamingKeepsCanonicalForm(v: Value, to: map<Word, Word>, w: Value)
    requires RenamesTo(v, to, w)
    ensures Canonical(w) == Canonical(v) && SameBinders(v, w)
  {
    RenamedNorm(v, to, []);
    assert Mapped([], to) == [];
    RenameKeepsBinders(v, to);
  }

  /** For all programs: the one-to-one renamings are the equal canonical forms with the same binders. */
  lemma RenamingIffCanonicalFormAndBinders(v: Value, w: Value)
    ensures (exists to :: RenamesTo(v, to, w)) <==> Canonical(v) == Canonical(w) && SameBinders(v, w)
  {
    hide Canonical, SameBinders;
    if Canonical(v) == Canonical(w) && SameBinders(v, w) { PairingRenames(v, w); }
    forall to | RenamesTo(v, to, w) ensures Canonical(v) == Canonical(w) && SameBinders(v, w) {
      RenamingKeepsCanonicalForm(v, to, w);
    }
  }

  lemma PairingRenames(v: Value, w: Value)
    requires Canonical(v) == Canonical(w) && SameBinders(v, w)
    ensures exists to :: RenamesTo(v, to, w)
  {
    SameNorm(v, w, [], []);
    var from, to := Norm(v, []).1, Norm(w, []).1;
    PairingOneToOne(from, to);
    NormGrows(v, []);
    assert RenamesTo(v, Pairing(from, to), w);
  }

  /** For clean programs equal canonical forms alone are exactly one-to-one renamings. */
  lemma CanonicalFormsEqualIffRenaming(v: Value, w: Value)
    requires Clean(v) && Clean(w)
    ensures Canonical(v) == Canonical(w) <==> exists to :: RenamesTo(v, to, w)
  {
    hide Clean, RenamesTo, SameBinders;
    RenamingIffCanonicalFormAndBinders(v, w);
    if Canonical(v) == Canonical(w) { CleanSameBinders(v, w, [], []); }
  }

  lemma CanonicalIdempotent(v: Value)
    ensures Canonical(Canonical(v)) == Canonical(v)
  {
    NormTwice(v, [], []);
  }

  // ---------- What the walk changes ----------

  /** The part of a tree reached by taking the children at the given positions. */
  function At(v: Value, path: seq<nat>): Option<Value>
    decreases |path|
  {
    if path == [] then Some(v) else
    match v
    case Leaf(_) => None
    case Array(items) => if path[0] < |items| then At(items[path[0]], path[1..]) else None
    case Object(_, values) => if path[0] < |values| then At(values[path[0]], path[1..]) else None
  }

  /** The position of a key and its value in an object. */
  ghost predicate Entry(keys: seq<string>, values: seq<Value>, key: string, i: nat) {
    i < |keys| && i < |values| && keys[i] == key && forall j | 0 <= j < i :: keys[j] != key
  }

  /** The object has the key, with the given value. */
  ghost predicate HasEntry(keys: seq<string>, values: seq<Value>, key: string, v: Value) {
    exists i: nat :: Entry(keys, values, key, i) && values[i] == v
  }

  /** What makes the value at a position the number of a compiler-generated unqualified identifier. */
  ghost predicate GeneratedNumber(keys: seq<string>, values: seq<Value>, i: nat) {
    && Entry(keys, values, "unique_id", i) && (exists n :: values[i] == Leaf(Unsigned(n)))
    && HasEntry(keys, values, "compiler_generated", Leaf(Bool(true)))
    && HasEntry(keys, values, "qualified_name", Leaf(Null))
    && (exists j: nat :: Entry(keys, values, "name", j))
    && (exists j: nat :: Entry(keys, values, "span", j))
  }

  lemma EntryIsIndex(keys: seq<string>, values: seq<Value>, key: string, i: nat)
    ensures Entry(keys, values, key, i) <==> Has(keys, values, key) && IndexOf(keys, key) == i
  {}

  lemma SomeEntry(keys: seq<string>, values: seq<Value>, key: string, s: Scalar)
    ensures Has(keys, values, key) <==> exists j: nat :: Entry(keys, values, key, j)
    ensures Is(keys, values, key, s) <==> HasEntry(keys, values, key, Leaf(s))
  {
    hide Entry;
    EntryIsIndex(keys, values, key, IndexOf(keys, key));
    forall j: nat ensures Entry(keys, values, key, j) ==> Has(keys, values, key) && IndexOf(keys, key) == j {
      EntryIsIndex(keys, values, key, j);
    }
  }

  lemma BinderIsGeneratedNumber(keys: seq<string>, values: seq<Value>, i: nat)
    ensures GeneratedNumber(keys, values, i) <==> Binder(keys, values) && IndexOf(keys, "unique_id") == i
  {
    EntryIsIndex(keys, values, "unique_id", i);
    SomeEntry(keys, values, "unique_id", Null);
    SomeEntry(keys, values, "compiler_generated", Bool(true));
    SomeEntry(keys, values, "qualified_name", Null);
    SomeEntry(keys, values, "name", Null);
    SomeEntry(keys, values, "span", Null);
    hide IndexOf, Entry, HasEntry, Is;
    if Binder(keys, values) && IndexOf(keys, "unique_id") == i {
      assert values[i] == Leaf(Unsigned(values[i].s.n));
    }
  }

  /** `after` has the form of `before`: the same scalar, a list as long, or an object with the same keys. */
  predicate SameForm(before: Value, after: Value) {
    match before
    case Leaf(_) => after == before
    case Array(items) => after.Array? && |after.items| == |items|
    case Object(keys, values) => after.Object? && after.keys == keys && |after.values| == |values|
  }

  lemma NormKeepsForm(v: Value, seen: seq<Word>)
    ensures SameForm(v, Norm(v, seen).0)
  {}

  lemma {:induction false} NormAllAt(vs: seq<Value>, seen: seq<Word>, i: nat) returns (before: seq<Word>)
    requires i < |vs|
    ensures NormAll(vs, seen).0[i] == Norm(vs[i], before).0 && Norm(vs[i], before).1 <= NormAll(vs, seen).1
  {
    if i == 0 {
      before := seen;
      NormAllGrows(vs[1..], Norm(vs[0], seen).1);
    } else {
      before := NormAllAt(vs[1..], Norm(vs[0], seen).1, i - 1);
      assert NormAll(vs, seen).0[1..] == NormAll(vs[1..], Norm(vs[0], seen).1).0;
    }
  }

  /** A list or object anywhere in a program is walked like a program of its own. */
  lemma {:induction false} NormAt(v: Value, seen: seq<Word>, path: seq<nat>) returns (before: seq<Word>)
    requires At(v, path).Some? && !At(v, path).value.Leaf?
    ensures At(Norm(v, seen).0, path) == Some(Norm(At(v, path).value, before).0)
    ensures Norm(At(v, path).value, before).1 <= Norm(v, seen).1
    decreases |path|
  {
    if path == [] {
      before := seen;
    } else {
      var i := path[0];
      match v
      case Array(items) =>
        before := NormAllAt(items, seen, i);
        before := NormAt(items[i], before, path[1..]);
      case Object(keys, values) =>
        var start := if Binder(keys, values) then Intern(seen, Uid(keys, values)) else seen;
        assert !values[i].Leaf?;
        before := NormAllAt(values, start, i);
        assert Norm(v, seen).0.values[i] == NormAll(values, start).0[i];
        before := NormAt(values[i], before, path[1..]);
    }
  }

  lemma NormObjectAt(keys: seq<string>, values: seq<Value>, seen: seq<Word>, i: nat)
    requires i < |values|
    ensures var w := Norm(Object(keys, values), seen).0;
            && SameForm(Object(keys, values), w)
            && if GeneratedNumber(keys, values, i) then exists ordinal: nat :: w.values[i] == Leaf(Name(ordinal))
               else SameForm(values[i], w.values[i])
  {
    BinderIsGeneratedNumber(keys, values, i);
    var start := if Binder(keys, values) then Intern(seen, Uid(keys, values)) else seen;
    var before := NormAllAt(values, start, i);
    NormKeepsForm(values[i], before);
    hide Generated, GeneratedNumber, Decimal;
    if Binder(keys, values) && IndexOf(keys, "unique_id") == i {
      assert Norm(Object(keys, values), seen).0.values[i] == Leaf(Name(IndexOf(seen, Uid(keys, values))));
    }
  }

  /**
    In every object of a program the walk replaces exactly the numbers of compiler-generated unqualified
    identifiers. Every other scalar, the length of every list and the keys of every object stay.
   */
  lemma WalkChangesExactly(v: Value, path: seq<nat>, keys: seq<string>, values: seq<Value>, i: nat)
    requires At(v, path) == Some(Object(keys, values)) && i < |values|
    ensures var after := At(Canonical(v), path);
            && after.Some? && SameForm(Object(keys, values), after.value)
            && (after.value.values[i] != values[i] && values[i].Leaf? <==> GeneratedNumber(keys, values, i))
            && if GeneratedNumber(keys, values, i)
               then exists ordinal: nat :: after.value.values[i] == Leaf(Str("synthetic_binding:" + Decimal(ordinal)))
               else SameForm(values[i], after.value.values[i])
  {
    var before := NormAt(v, [], path);
    NormObjectAt(keys, values, before, i);
  }

  /** The numbers the walk meets, in order of first occurrence. */
  function Order(v: Value): seq<Word> {
    Norm(v, []).1
  }

  /** A generated number receives the name of its place in the order of first occurrences. */
  lemma NamedByOrder(v: Value, path: seq<nat>, keys: seq<string>, values: seq<Value>, i: nat)
    requires At(v, path) == Some(Object(keys, values)) && i < |values| && GeneratedNumber(keys, values, i)
    ensures At(Canonical(v), path).Some? && SameForm(Object(keys, values), At(Canonical(v), path).value)
    ensures values[i].s.n in Order(v)
    ensures At(Canonical(v), path).value.values[i] == Leaf(Name(IndexOf(Order(v), values[i].s.n)))
  {
    BinderIsGeneratedNumber(keys, values, i);
    hide Generated, GeneratedNumber, Decimal;
    var before := NormAt(v, [], path);
    var uid := Uid(keys, values);
    NormAllGrows(values, Intern(before, uid));
    IndexInLater(before, uid, Order(v));
  }

  lemma IndexInLater(before: seq<Word>, uid: Word, later: seq<Word>)
    requires Intern(before, uid) <= later
    ensures uid in later && IndexOf(later, uid) == IndexOf(before, uid)
  {
    assert later[IndexOf(before, uid)] == uid;
    FirstIndex(later, IndexOf(before, uid));
  }

  /** Two generated numbers receive the same name exactly when they are the same number. */
  lemma SameNameIffSameNumber(
    v: Value, path: seq<nat>, keys: seq<string>, values: seq<Value>, i: nat,
    path': seq<nat>, keys': seq<string>, values': seq<Value>, i': nat)
    requires At(v, path) == Some(Object(keys, values)) && i < |values| && GeneratedNumber(keys, values, i)
    requires At(v, path') == Some(Object(keys', values')) && i' < |values'| && GeneratedNumber(keys', values', i')
    ensures var a, b := At(Canonical(v), path), At(Canonical(v), path');
            && a.Some? && SameForm(Object(keys, values), a.value)
            && b.Some? && SameForm(Object(keys', values'), b.value)
            && (a.value.values[i] == b.value.values[i'] <==> values[i] == values'[i'])
  {
    NamedByOrder(v, path, keys, values, i);
    NamedByOrder(v, path', keys', values', i');
    var m, n := IndexOf(Order(v), values[i].s.n), IndexOf(Order(v), values'[i'].s.n);
    hide At, Canonical, Order, Name;
    if Name(m) == Name(n) { NameInjective(m, n); }
  }

  /** Nothing in a list is a scalar the walk replaces. */
  lemma WalkKeepsLists(v: Value, path: seq<nat>, items: seq<Value>, i: nat)
    requires At(v, path) == Some(Array(items)) && i < |items|
    ensures var after := At(Canonical(v), path);
            && after.Some? && SameForm(Array(items), after.value) && SameForm(items[i], after.value.items[i])
  {
    var before := NormAt(v, [], path);
    before := NormAllAt(items, before, i);
    NormKeepsForm(items[i], before);
  }

  // ---------- Which programs share their canonical form with others ----------

  /** Some generated identifier carries the first name the walk hands out. */
  predicate HasFirstName(v: Value)
    decreases v, 1
  {
    match v
    case Leaf(_) => false
    case Array(items) => HasFirstNameAll(items)
    case Object(keys, values) =>
      HasFirstNameAll(values) || (Generated(keys, values) && values[Slot(keys, values)] == Leaf(Name(0)))
  }

  predicate HasFirstNameAll(vs: seq<Value>)
    decreases vs, 0
  {
    vs != [] && (HasFirstName(vs[0]) || HasFirstNameAll(vs[1..]))
  }

  /** Turns every generated identifier with the first name into a binder. */
  function Rebind(v: Value): (r: Value)
    decreases v, 1
  {
    match v
    case Leaf(_) => v
    case Array(items) => Array(RebindAll(items))
    case Object(keys, values) =>
      if Generated(keys, values) && values[Slot(keys, values)] == Leaf(Name(0)) then
        Object(keys, RebindAll(values)[Slot(keys, values) := Leaf(Unsigned(0))])
      else
        Object(keys, RebindAll(values))
  }

  function RebindAll(vs: seq<Value>): (r: seq<Value>)
    ensures |r| == |vs|
    decreases vs, 0
  {
    if vs == [] then [] else [Rebind(vs[0])] + RebindAll(vs[1..])
  }

  lemma RebindKeepsLeaves(vs: seq<Value>)
    ensures KeepsLeaves(vs, RebindAll(vs))
  {}

  lemma UidsOfObject(keys: seq<string>, values: seq<Value>)
    ensures Uids(Object(keys, values)) == {} <==> UidsAll(values) == {} && !Binder(keys, values)
  {
    if Binder(keys, values) { assert Uid(keys, values) in Uids(Object(keys, values)); }
  }

  /** Only binders are rewritten. */
  lemma {:induction false} NormWithoutUids(v: Value, seen: seq<Word>)
    requires Uids(v) == {}
    ensures Norm(v, seen) == (v, seen)
    decreases v, 1
  {
    match v
    case Leaf(_) =>
    case Array(items) => NormAllWithoutUids(items, seen);
    case Object(keys, values) =>
      UidsOfObject(keys, values);
      NormAllWithoutUids(values, seen);
  }

  lemma {:induction false} NormAllWithoutUids(vs: seq<Value>, seen: seq<Word>)
    requires UidsAll(vs) == {}
    ensures NormAll(vs, seen) == (vs, seen)
    decreases vs, 0
  {
    if vs != [] {
      NormWithoutUids(vs[0], seen);
      NormAllWithoutUids(vs[1..], seen);
      assert [vs[0]] + vs[1..] == vs;
    }
  }

  lemma CanonicalHasNoUids(v: Value)
    ensures Uids(Canonical(v)) == {}
  {
    NormTwice(v, [], []);
    NormGrows(Canonical(v), []);
  }

  /** The first binder of a program receives the first name. */
  lemma {:induction false} FirstBinderNamed(v: Value)
    requires Norm(v, []).1 != []
    ensures HasFirstName(Norm(v, []).0)
    decreases v, 1
  {
    match v
    case Leaf(_) =>
    case Array(items) => FirstBinderNamedAll(items);
    case Object(keys, values) =>
      if Binder(keys, values) {
        var uid := Uid(keys, values);
        NormKeepsLeaves(values, Intern([], uid));
        SlotStays(keys, values, NormAll(values, Intern([], uid)).0, Name(IndexOf([], uid)));
      } else {
        FirstBinderNamedAll(values);
      }
  }

  lemma {:induction false} FirstBinderNamedAll(vs: seq<Value>)
    requires NormAll(vs, []).1 != []
    ensures HasFirstNameAll(NormAll(vs, []).0)
    decreases vs, 0
  {
    var seen := Norm(vs[0], []).1;
    assert NormAll(vs, []).0[1..] == NormAll(vs[1..], seen).0;
    if seen == [] { FirstBinderNamedAll(vs[1..]); } else { FirstBinderNamed(vs[0]); }
  }

  /** A program without binders cannot be told from the one in which its first names are binders. */
  lemma {:induction false} NormRebind(v: Value, seen: seq<Word>)
    requires Uids(v) == {} && (seen == [] || seen == [0])
    ensures Norm(Rebind(v), seen).0 == v
    ensures Norm(Rebind(v), seen).1 == [] || Norm(Rebind(v), seen).1 == [0]
    decreases v, 1
  {
    match v
    case Leaf(_) =>
    case Array(items) => NormRebindAll(items, seen);
    case Object(keys, values) =>
      UidsOfObject(keys, values);
      RebindKeepsLeaves(values);
      GeneratedStays(keys, values, RebindAll(values));
      if Generated(keys, values) && values[Slot(keys, values)] == Leaf(Name(0)) {
        NormRebindAll(values, [0]);
        NormReboundSlot(keys, values, seen);
      } else {
        NormRebindAll(values, seen);
      }
  }

  lemma {:induction false} NormReboundSlot(keys: seq<string>, values: seq<Value>, seen: seq<Word>)
    requires Generated(keys, values) && values[Slot(keys, values)] == Leaf(Name(0))
    requires (seen == [] || seen == [0]) && NormAll(RebindAll(values), [0]).0 == values
    ensures Norm(Rebind(Object(keys, values)), seen) == (Object(keys, values), NormAll(RebindAll(values), [0]).1)
  {
    hide Generated, Decimal;
    var rebound, i := RebindAll(values), Slot(keys, values);
    RebindKeepsLeaves(values);
    SlotStays(keys, values, rebound, Unsigned(0));
    NormAllSet(rebound, i, Unsigned(0), [0]);
    assert Intern(seen, 0) == [0] && IndexOf(seen, 0) == 0;
    assert values[i := Leaf(Unsigned(0))][i := Leaf(Name(0))] == values;
  }

  lemma {:induction false} NormRebindAll(vs: seq<Value>, seen: seq<Word>)
    requires UidsAll(vs) == {} && (seen == [] || seen == [0])
    ensures NormAll(RebindAll(vs), seen).0 == vs
    ensures NormAll(RebindAll(vs), seen).1 == [] || NormAll(RebindAll(vs), seen).1 == [0]
    decreases vs, 0
  {
    if vs != [] {
      NormRebind(vs[0], seen);
      NormRebindAll(vs[1..], Norm(Rebind(vs[0]), seen).1);
      assert RebindAll(vs)[1..] == RebindAll(vs[1..]) && [vs[0]] + vs[1..] == vs;
    }
  }

  lemma {:induction false} RebindHasUid(v: Value)
    requires HasFirstName(v)
    ensures Uids(Rebind(v)) != {}
    decreases v, 1
  {
    match v
    case Array(items) => RebindAllHasUid(items);
    case Object(keys, values) =>
      RebindKeepsLeaves(values);
      if Generated(keys, values) && values[Slot(keys, values)] == Leaf(Name(0)) {
        SlotStays(keys, values, RebindAll(values), Unsigned(0));
        UidsOfObject(keys, Rebind(v).values);
      } else {
        RebindAllHasUid(values);
      }
  }

  lemma {:induction false} RebindAllHasUid(vs: seq<Value>)
    requires HasFirstNameAll(vs)
    ensures UidsAll(RebindAll(vs)) != {}
    decreases vs, 0
  {
    assert RebindAll(vs)[1..] == RebindAll(vs[1..]);
    if HasFirstName(vs[0]) { RebindHasUid(vs[0]); } else { RebindAllHasUid(vs[1..]); }
  }

  lemma {:induction false} SameBindersUids(v: Value, w: Value)
    requires SameBinders(v, w)
    ensures Uids(v) == {} <==> Uids(w) == {}
    decreases v, 1
  {
    match v
    case Leaf(_) =>
    case Array(items) => SameBindersUidsAll(items, w.items);
    case Object(keys, values) =>
      SameBindersUidsAll(values, w.values);
      UidsOfObject(keys, values);
      UidsOfObject(keys, w.values);
  }

  lemma {:induction false} SameBindersUidsAll(vs: seq<Value>, ws: seq<Value>)
    requires SameBindersAll(vs, ws)
    ensures UidsAll(vs) == {} <==> UidsAll(ws) == {}
    decreases vs, 0
  {
    if vs != [] {
      SameBindersUids(vs[0], ws[0]);
      SameBindersUidsAll(vs[1..], ws[1..]);
    }
  }

  /** `w` has the canonical form of `v` and yet is no renaming of it. */
  ghost predicate Collides(v: Value, w: Value) {
    Canonical(v) == Canonical(w) && !exists to :: RenamesTo(v, to, w)
  }

  lemma DifferentUidsCollide(v: Value, w: Value)
    requires Canonical(v) == Canonical(w) && (Uids(v) == {}) != (Uids(w) == {})
    ensures Collides(v, w)
  {
    RenamingIffCanonicalFormAndBinders(v, w);
    if SameBinders(v, w) { SameBindersUids(v, w); }
  }

  /** Without a binder and without the first name, a program is the only one with its canonical form. */
  lemma UniqueWithoutFirstName(v: Value, w: Value)
    requires Uids(v) == {} && !HasFirstName(v) && Canonical(v) == Canonical(w)
    ensures w == v && RenamesTo(v, map[], w)
  {
    NormWithoutUids(v, []);
    if Norm(w, []).1 != [] { FirstBinderNamed(w); }
    NormGrows(w, []);
    NormWithoutUids(w, []);
    RenameWithoutUids(v, map[]);
  }

  lemma {:induction false} RenameWithoutUids(v: Value, to: map<Word, Word>)
    requires Uids(v) == {}
    ensures Rename(v, to) == v
    decreases v, 1
  {
    match v
    case Leaf(_) =>
    case Array(items) => RenameAllWithoutUids(items, to);
    case Object(keys, values) =>
      UidsOfObject(keys, values);
      RenameAllWithoutUids(values, to);
  }

  lemma {:induction false} RenameAllWithoutUids(vs: seq<Value>, to: map<Word, Word>)
    requires UidsAll(vs) == {}
    ensures RenameAll(vs, to) == vs
    decreases vs, 0
  {
    if vs != [] {
      RenameWithoutUids(vs[0], to);
      RenameAllWithoutUids(vs[1..], to);
      assert [vs[0]] + vs[1..] == vs;
    }
  }

  /** A program collides with some other one exactly when it holds a binder or the first name. */
  lemma CollidesIffBinderOrFirstName(v: Value)
    ensures (exists w :: Collides(v, w)) <==> Uids(v) != {} || HasFirstName(v)
  {
    hide HasFirstName, Uids, RenamesTo, Canonical;
    if Uids(v) != {} {
      CanonicalIdempotent(v);
      CanonicalHasNoUids(v);
      DifferentUidsCollide(v, Canonical(v));
    } else if HasFirstName(v) {
      RebindCanonical(v);
      RebindHasUid(v);
      DifferentUidsCollide(v, Rebind(v));
    } else {
      forall w | Canonical(v) == Canonical(w) ensures exists to :: RenamesTo(v, to, w) {
        UniqueWithoutFirstName(v, w);
      }
    }
  }

  lemma RebindCanonical(v: Value)
    requires Uids(v) == {}
    ensures Canonical(Rebind(v)) == Canonical(v)
  {
    NormRebind(v, []);
    NormWithoutUids(v, []);
  }

  const KEYS := ["compiler_generated", "name", "qualified_name", "span", "unique_id"]

  /** A program that is one generated identifier. */
  function Identifier(uid: Scalar): Value {
    Object(KEYS, [Leaf(Bool(true)), Leaf(Str("x")), Leaf(Null), Leaf(Null), Leaf(uid)])
  }

  lemma GeneratedIdentifier(uid: Scalar)
    ensures Generated(KEYS, Identifier(uid).values) && Slot(KEYS, Identifier(uid).values) == 4
  {
    hide IndexOf;
    assert |KEYS[0]| == 18 && |KEYS[1]| == 4 && |KEYS[2]| == 14 && |KEYS[3]| == 4 && |KEYS[4]| == 9;
    assert KEYS[1][0] != KEYS[3][0];
    FirstIndex(KEYS, 0);
    FirstIndex(KEYS, 1);
    FirstIndex(KEYS, 2);
    FirstIndex(KEYS, 3);
    FirstIndex(KEYS, 4);
  }

  lemma FirstName()
    ensures Name(0) == Str("synthetic_binding:0")
  {
    assert PREFIX + Decimal(0) == "synthetic_binding:0";
  }

  /** A concrete collision: a numbered identifier and the one that already carries the name it would be given. */
  lemma IdentifierCollides(n: Word)
    ensures Collides(Identifier(Unsigned(n)), Identifier(Str("synthetic_binding:0")))
  {
    hide Generated, Decimal, IndexOf, Rename, RenamesTo, Collides, SameBinders;
    FirstName();
    var v, w := Identifier(Unsigned(n)), Identifier(Name(0));
    GeneratedIdentifier(Unsigned(n));
    GeneratedIdentifier(Name(0));
    UidsOfObject(KEYS, v.values);
    UidsOfObject(KEYS, w.values);
    LeavesHaveNoUids(v.values);
    LeavesHaveNoUids(w.values);
    NormAllWithoutUids(v.values, Intern([], n));
    NormWithoutUids(w, []);
    assert v.values[4 := Leaf(Name(0))] == w.values;
    DifferentUidsCollide(v, w);
  }

  lemma {:induction false} LeavesHaveNoUids(vs: seq<Value>)
    requires forall i | 0 <= i < |vs| :: vs[i].Leaf?
    ensures UidsAll(vs) == {}
  {
    if vs != [] { LeavesHaveNoUids(vs[1..]); }
  }

  lemma FirstIndex<T>(xs: seq<T>, i: nat)
    requires i < |xs| && forall j | 0 <= j < i :: xs[j] != xs[i]
    ensures IndexOf(xs, xs[i]) == i
  {}

  // ---------- The walk as the program performs it ----------

  function Size(v: Value): nat
    decreases v, 1
  {
    match v
    case Leaf(_) => 1
    case Array(items) => 1 + SizeAll(items)
    case Object(_, values) => 1 + SizeAll(values)
  }

  function SizeAll(vs: seq<Value>): nat
    decreases vs, 0
  {
    if vs == [] then 0 else Size(vs[0]) + SizeAll(vs[1..])
  }

  lemma {:induction false} SizeAt(vs: seq<Value>, i: nat, s: Scalar)
    requires i < |vs|
    ensures Size(vs[i]) <= SizeAll(vs)
    ensures vs[i].Leaf? ==> SizeAll(vs[i := Leaf(s)]) == SizeAll(vs)
  {
    var ws := vs[i := Leaf(s)];
    if i == 0 {
      assert ws[1..] == vs[1..];
    } else {
      assert ws[1..] == vs[1..][i - 1 := Leaf(s)];
      SizeAt(vs[1..], i - 1, s);
    }
  }

  /** The walk with its table of ordinals. */
  class Normalizer {
    var bindings: map<Word, nat>
    ghost var seen: seq<Word>

    ghost predicate Valid()
      reads this
    {
      && |bindings| == |seen|
      && (forall u :: u in bindings <==> u in seen)
      && (forall u | u in seen :: bindings[u] == IndexOf(seen, u))
    }

    constructor ()
      ensures Valid() && seen == []
    {
      bindings, seen := map[], [];
    }

    method Ordinal(uid: Word) returns (ordinal: nat)
      requires Valid()
      modifies this
      ensures Valid() && seen == Intern(old(seen), uid) && ordinal == IndexOf(old(seen), uid)
    {
      if uid !in bindings {
        bindings := bindings[uid := |bindings|];
        seen := seen + [uid];
        forall u | u in old(seen) ensures IndexOf(seen, u) == IndexOf(old(seen), u) {
          FirstIndex(seen, IndexOf(old(seen), u));
        }
        FirstIndex(seen, |old(seen)|);
      }
      ordinal := bindings[uid];
    }

    method Normalize(value: Value) returns (r: Value)
      requires Valid()
      modifies this
      ensures Valid() && (r, seen) == Norm(value, old(seen))
      decreases Size(value), 0
    {
      match value
      case Leaf(_) => r := value;
      case Array(items) =>
        var items' := NormalizeAll(items);
        r := Array(items');
      case Object(keys, values) =>
        var values' := values;
        if Binder(keys, values) {
          var i := IndexOf(keys, "unique_id");
          var ordinal := Ordinal(values[i].s.n);
          values' := values[i := Leaf(Name(ordinal))];
          SizeAt(values, i, Name(ordinal));
          NormAllSet(values, i, Name(ordinal), seen);
        }
        values' := NormalizeAll(values');
        r := Object(keys, values');
    }

    method NormalizeAll(vs: seq<Value>) returns (out: seq<Value>)
      requires Valid()
      modifies this
      ensures Valid() && (out, seen) == NormAll(vs, old(seen))
      decreases SizeAll(vs), 1
    {
      out := [];
      assert vs[0..] == vs && [] + NormAll(vs, seen).0 == NormAll(vs, seen).0;
      for i := 0 to |vs|
        invariant Valid()
        invariant NormAll(vs, old(seen)) == (out + NormAll(vs[i..], seen).0, NormAll(vs[i..], seen).1)
      {
        SizeAt(vs, i, Null);
        assert vs[i..][1..] == vs[i + 1..];
        ghost var rest := NormAll(vs[i..], seen).0;
        var child := Normalize(vs[i]);
        assert rest == [child] + NormAll(vs[i + 1..], seen).0;
        assert out + rest == out + [child] + NormAll(vs[i + 1..], seen).0;
        out := out + [child];
      }
      assert out + NormAll(vs[|vs|..], seen).0 == out;
    }
  }

  /** The canonical form that is serialised and hashed. */
  method SemanticForm(program: Value) returns (form: Value)
    ensures form == Canonical(program)
  {
    var walk := new Normalizer();
    form := walk.Normalize(program);
  }
}
