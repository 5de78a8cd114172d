/**
  Type definitions and runtime tags of the type environment (crates/scar/src/env.rs). Names without a
  path live under `Global::`; tags are 32-bit words issued in order, with 0 and 1 set aside.
 */
module TypeRegistry {
  import opened Wrappers
  import opened MachineWords

  // ---------- Names ----------

  const GLOBAL := "Global::"

  /** The name contains `::`. */
  predicate HasPath(name: string) {
    exists i :: 0 <= i < |name| - 1 && name[i] == ':' && name[i + 1] == ':'
  }

  function CanonicalKey(name: string): string {
    if HasPath(name) then name else GLOBAL + name
  }

  function LookupCandidates(name: string): (string, string) {
    if GLOBAL <= name then (name, name[|GLOBAL|..]) else (name, GLOBAL + name)
  }

  function LookupIn<V>(table: map<string, V>, name: string): Option<V> {
    var (first, second) := LookupCandidates(name);
    if first in table then Some(table[first]) else Get(table, second)
  }

  lemma HasPathExactly(name: string)
    ensures HasPath(name) <==> exists a: string, b: string :: name == a + "::" + b
  {
    if HasPath(name) {
      var i :| 0 <= i < |name| - 1 && name[i] == ':' && name[i + 1] == ':';
      assert name == name[..i] + "::" + name[i + 2..];
    }
    forall a: string, b: string | name == a + "::" + b ensures HasPath(name) {
      assert name[|a|] == ':' && name[|a| + 1] == ':';
    }
  }

  lemma GlobalHasPath(name: string)
    ensures HasPath(GLOBAL + name)
  {
    assert (GLOBAL + name)[6] == ':' && (GLOBAL + name)[7] == ':';
  }

  lemma CanonicalKeyHasPath(name: string)
    ensures HasPath(CanonicalKey(name))
  {
    GlobalHasPath(name);
  }

  /** Two spellings share a key exactly when one is the other under the implicit root. */
  lemma SameKey(a: string, b: string)
    ensures CanonicalKey(a) == CanonicalKey(b) <==>
            a == b || (!HasPath(b) && a == GLOBAL + b) || (!HasPath(a) && b == GLOBAL + a)
  {
    GlobalHasPath(a);
    GlobalHasPath(b);
    assert (GLOBAL + a)[|GLOBAL|..] == a && (GLOBAL + b)[|GLOBAL|..] == b;
  }

  /** Every key of the table contains a path. */
  ghost predicate PathKeys<V>(table: map<string, V>) {
    forall key | key in table :: HasPath(key)
  }

  /**
    Looking a name up finds the definition declared under that spelling. Failing that, only a name
    with a path can still find one: the same name with the implicit root added or taken away.
   */
  lemma LookupFindsDeclaration<V>(table: map<string, V>, name: string)
    requires PathKeys(table)
    ensures CanonicalKey(name) in table ==> LookupIn(table, name) == Some(table[CanonicalKey(name)])
    ensures CanonicalKey(name) !in table ==>
              LookupIn(table, name) ==
              if !HasPath(name) then None
              else if GLOBAL <= name then Get(table, name[|GLOBAL|..])
              else Get(table, GLOBAL + name)
  {
    if GLOBAL <= name {
      GlobalHasPath(name[|GLOBAL|..]);
      assert GLOBAL + name[|GLOBAL|..] == name;
    }
  }

  // ---------- Tags ----------

  /** The tag issued by the `i`-th request. */
  function TagAt(i: nat): nat {
    (2 + i) % U32_LIMIT
  }

  lemma TagStep(i: nat)
    ensures (TagAt(i) + 1) % U32_LIMIT == TagAt(i + 1)
  {}

  /** Tags are distinct and avoid the reserved 0 and 1 exactly as long as the counter has not wrapped. */
  lemma TagsDistinctUntilWrap(n: nat)
    ensures (forall i: nat | i < n :: TagAt(i) >= 2) && (forall i: nat, j: nat | i < j < n :: TagAt(i) != TagAt(j))
       <==> n <= U32_LIMIT - 2
  {
    if n > U32_LIMIT - 2 {
      assert TagAt(U32_LIMIT - 2) == 0;
    }
  }

  datatype State = Declared | SignatureResolved

  datatype TypeDef<K, S> = TypeDef(tag: nat, kind: K, name: string, params: seq<string>, bounds: seq<Option<string>>,
                                   signature: Option<S>, state: State)

  class Registry<K, S> {
    var defs: map<string, TypeDef<K, S>>
    var nextTag: nat
    /** How many tags have been issued, and by which request each definition got its tag. */
    ghost var issued: nat
    ghost var request: map<string, nat>

    ghost predicate Valid()
      reads this
    {
      && nextTag == TagAt(issued)
      && PathKeys(defs)
      && request.Keys == defs.Keys
      && (forall key | key in defs :: request[key] < issued && defs[key].tag == TagAt(request[key]))
      && (forall a, b | a in defs && b in defs && a != b :: request[a] != request[b])
    }

    constructor ()
      ensures Valid() && defs == map[] && issued == 0
    {
      defs, nextTag, issued, request := map[], 2, 0, map[];
    }

    /** A repeated declaration returns the first tag and changes nothing. */
    method Predeclare(name: string, kind: K, params: seq<string>, bounds: seq<Option<string>>) returns (tag: nat)
      requires Valid()
      modifies this
      ensures Valid()
      ensures var key := CanonicalKey(name);
              if key in old(defs)
              then tag == old(defs)[key].tag && defs == old(defs) && issued == old(issued) && request == old(request)
              else tag == TagAt(old(issued)) && issued == old(issued) + 1
                   && defs == old(defs)[key := TypeDef(tag, kind, name, params, bounds, None, Declared)]
                   && request == old(request)[key := old(issued)]
    {
      var key := CanonicalKey(name);
      CanonicalKeyHasPath(name);
      if key in defs {
        return defs[key].tag;
      }
      tag := NextTag();
      defs := defs[key := TypeDef(tag, kind, name, params, bounds, None, Declared)];
      request := request[key := issued - 1];
    }

    method NextTag() returns (tag: nat)
      requires nextTag == TagAt(issued)
      modifies this`nextTag, this`issued
      ensures tag == TagAt(old(issued)) && issued == old(issued) + 1 && nextTag == TagAt(issued)
    {
      TagStep(issued);
      hide TagAt;
      tag := nextTag;
      nextTag := (nextTag + 1) % U32_LIMIT;
      issued := issued + 1;
    }

    /** Resolving fills in the signature and never changes the tag; an undeclared name is refused. */
    method ResolveSignature(name: string, signature: S) returns (tag: Option<nat>)
      requires Valid()
      modifies this`defs
      ensures Valid()
      ensures var key := CanonicalKey(name);
              if key in old(defs)
              then tag == Some(old(defs)[key].tag)
                   && defs == old(defs)[key :=
                        old(defs)[key].(signature := Some(signature), state := SignatureResolved)]
              else tag == None && defs == old(defs)
    {
      var key := CanonicalKey(name);
      if key !in defs {
        return None;
      }
      var def := defs[key].(signature := Some(signature), state := SignatureResolved);
      defs := defs[key := def];
      tag := Some(def.tag);
    }

    method ReserveTag() returns (tag: nat)
      requires Valid()
      modifies this`nextTag, this`issued
      ensures Valid() && tag == TagAt(old(issued)) && issued == old(issued) + 1
    {
      tag := NextTag();
    }

    method Lookup(name: string) returns (def: Option<TypeDef<K, S>>)
      requires Valid()
      ensures def == LookupIn(defs, name)
      ensures CanonicalKey(name) in defs ==> def == Some(defs[CanonicalKey(name)])
    {
      LookupFindsDeclaration(defs, name);
      def := LookupIn(defs, name);
    }
  }

  /** Until the counter wraps, definitions have distinct tags, and they lie in [2, next tag) until it is about to. */
  lemma DefinitionTagsDistinct<K, S>(registry: Registry<K, S>, a: string, b: string)
    requires registry.Valid() && registry.issued <= U32_LIMIT - 2 && a in registry.defs && b in registry.defs && a != b
    ensures registry.defs[a].tag != registry.defs[b].tag
    ensures 2 <= registry.defs[a].tag < 2 + registry.issued
    ensures registry.issued < U32_LIMIT - 2 ==> registry.defs[a].tag < registry.nextTag
  {
    TagBeforeWrap(registry.request[a]);
    TagBeforeWrap(registry.request[b]);
    if registry.issued < U32_LIMIT - 2 { TagBeforeWrap(registry.issued); }
    hide TagAt;
  }

  lemma TagBeforeWrap(i: nat)
    requires i < U32_LIMIT - 2
    ensures TagAt(i) == 2 + i
  {}
}
