/**
  Persistent lexical scopes (crates/sigil/src/scope.rs): a chain of layers, of which only the newest is
  written and an empty one is never kept as a parent. Identifiers are 32-bit words that wrap around.
 */
module LexicalScope {
  import opened Wrappers
  import opened MachineWords

  function Increment(n: U32): U32 {
    if n == U32_MAX then 0 else n + 1
  }

  /** An immutable snapshot of a scope: its own bindings and the layers below. */
  datatype Chain = Bottom | Layer(bindings: map<string, U32>, nextId: U32, parent: Chain)

  /** The flat map a chain stands for: inner bindings shadow outer ones. */
  function Flatten(c: Chain): map<string, U32> {
    match c
    case Bottom => map[]
    case Layer(bindings, _, parent) => Flatten(parent) + bindings
  }

  /** `lookup`: the innermost layer that binds the name. */
  function Lookup(c: Chain, name: string): Option<U32> {
    match c
    case Bottom => None
    case Layer(bindings, _, parent) => if name in bindings then Some(bindings[name]) else Lookup(parent, name)
  }

  /** A name is bound to this identifier in some layer, shadowed or not. */
  predicate Uses(c: Chain, id: U32) {
    match c
    case Bottom => false
    case Layer(bindings, _, parent) => id in bindings.Values || Uses(parent, id)
  }

  /** Every visible identifier is used, and so is every one in the layers below. */
  lemma {:induction false} VisibleIsUsed(c: Chain, name: string)
    ensures name in Flatten(c) ==> Uses(c, Flatten(c)[name])
    ensures c.Layer? && name in Flatten(c.parent) ==> Uses(c, Flatten(c.parent)[name])
  {
    match c
    case Bottom =>
    case Layer(bindings, _, parent) =>
      VisibleIsUsed(parent, name);
      if name in bindings { assert bindings[name] in bindings.Values; }
  }

  /** No layer of the chain is empty. */
  predicate NoEmptyLayer(c: Chain) {
    match c
    case Bottom => true
    case Layer(bindings, _, parent) => bindings != map[] && NoEmptyLayer(parent)
  }

  /** Walking the layers finds what the flat map holds. */
  lemma {:induction false} LookupAgreesWithFlatMap(c: Chain, name: string)
    ensures Lookup(c, name) == Get(Flatten(c), name)
  {
    match c
    case Bottom =>
    case Layer(_, _, parent) => LookupAgreesWithFlatMap(parent, name);
  }

  /** Each visible name once, with its innermost identifier. */
  ghost predicate Lists(out: seq<(string, U32)>, flat: map<string, U32>) {
    && (forall i, j | 0 <= i < j < |out| :: out[i].0 != out[j].0)
    && (forall i | 0 <= i < |out| :: out[i].0 in flat && flat[out[i].0] == out[i].1)
    && (forall name | name in flat :: exists i :: 0 <= i < |out| && out[i].0 == name)
  }

  lemma {:induction false} UsesDefined(
    bindings: map<string, U32>, nextId: U32, parent: Chain, name: string, id: U32, next: U32, q: U32)
    ensures Uses(Layer(bindings[name := id], next, parent), q) ==> q == id || Uses(Layer(bindings, nextId, parent), q)
    ensures Uses(Layer(bindings[name := id], next, parent), id)
  {
    var after := bindings[name := id];
    assert name in after && after[name] == id;
    if q in after.Values {
      var k :| k in after && after[k] == q;
      assert k != name ==> k in bindings && bindings[k] == q;
    }
  }

  class Scope {
    var bindings: map<string, U32>
    var parent: Chain
    var nextId: U32

    function Snapshot(): Chain
      reads this
    {
      Layer(bindings, nextId, parent)
    }

    function Flat(): map<string, U32>
      reads this
    {
      Flatten(Snapshot())
    }

    ghost predicate Valid()
      reads this
    {
      NoEmptyLayer(parent)
    }

    /** The counter is ahead of every identifier in the chain. */
    ghost predicate Ahead()
      reads this
    {
      forall id: U32 | Uses(Snapshot(), id) :: id < nextId
    }

    constructor WithNextId(next: U32)
      ensures Valid() && Ahead() && Flat() == map[] && nextId == next
    {
      bindings, parent, nextId := map[], Bottom, next;
      new;
      assert Flatten(Bottom) + bindings == map[];
    }

    constructor Of(c: Chain)
      requires c.Layer? && NoEmptyLayer(c.parent)
      ensures Valid() && Snapshot() == c
    {
      bindings, parent, nextId := c.bindings, c.parent, c.nextId;
    }

    /** A child sees what its parent sees; an empty layer is shared instead of kept below. */
    method Child() returns (child: Scope)
      requires Valid()
      ensures fresh(child) && child.Valid()
      ensures child.Flat() == Flat() && child.nextId == nextId
      ensures Ahead() ==> child.Ahead()
      ensures child.bindings == map[]
      ensures child.parent == if bindings == map[] then parent else Snapshot()
      ensures child.parent.Layer? ==> child.parent.bindings != map[]
    {
      if bindings == map[] {
        child := new Scope.Of(Snapshot());
      } else {
        child := new Scope.Of(Layer(map[], nextId, Snapshot()));
        assert Flatten(Snapshot()) + map[] == Flatten(Snapshot());
        assert forall id: U32 :: Uses(child.Snapshot(), id) <==> Uses(Snapshot(), id);
      }
    }

    /** The new identifier is unused anywhere in the chain; the counter stays ahead unless it wraps. */
    method Define(name: string) returns (id: U32)
      requires Valid()
      modifies this`bindings, this`nextId
      ensures Valid() && id == old(nextId) && nextId == (id + 1) % 0x1_0000_0000
      ensures Flat() == old(Flat())[name := id]
      ensures old(Ahead()) ==> !Uses(old(Snapshot()), id)
      ensures old(Ahead()) ==> (Ahead() <==> id < U32_MAX)
    {
      id := nextId;
      ghost var before := Snapshot();
      nextId := Increment(nextId);
      bindings := bindings[name := id];
      assert Flatten(parent) + bindings == (Flatten(parent) + before.bindings)[name := id];
      UsesAfterDefine(before, name, id, nextId);
    }

    /** Issues an identifier without binding a name. */
    method ReserveId() returns (id: U32)
      requires Valid()
      modifies this`nextId
      ensures Valid() && id == old(nextId) && nextId == (id + 1) % 0x1_0000_0000
      ensures Flat() == old(Flat())
      ensures old(Ahead()) ==> !Uses(old(Snapshot()), id)
      ensures old(Ahead()) && id < U32_MAX ==> Ahead()
    {
      id := nextId;
      ghost var before := Snapshot();
      nextId := Increment(nextId);
      assert forall q: U32 :: Uses(Snapshot(), q) == Uses(before, q);
    }

    method DefineWithId(name: string, id: U32)
      requires Valid()
      modifies this`bindings, this`nextId
      ensures Valid() && Flat() == old(Flat())[name := id]
      ensures nextId == if old(nextId) <= id then (id + 1) % 0x1_0000_0000 else old(nextId)
      ensures old(Ahead()) ==> (Ahead() <==> id < U32_MAX)
    {
      ghost var before := Snapshot();
      bindings := bindings[name := id];
      if nextId <= id {
        nextId := Increment(id);
      }
      assert Flatten(parent) + bindings == (Flatten(parent) + before.bindings)[name := id];
      UsesAfterDefine(before, name, id, nextId);
    }

    method AdvanceNextIdTo(next: U32)
      requires Valid()
      modifies this`nextId
      ensures Valid() && Flat() == old(Flat())
      ensures nextId == if old(nextId) < next then next else old(nextId)
      ensures old(Ahead()) ==> Ahead()
    {
      ghost var before := Snapshot();
      if nextId < next {
        nextId := next;
      }
      assert forall q: U32 :: Uses(Snapshot(), q) == Uses(before, q);
    }

    method LookupName(name: string) returns (id: Option<U32>)
      ensures id == Get(Flat(), name)
    {
      LookupAgreesWithFlatMap(Snapshot(), name);
      id := Lookup(Snapshot(), name);
    }

    /** Walks the layers outwards and skips the names already seen. */
    method Bindings() returns (out: seq<(string, U32)>)
      ensures Lists(out, Flat())
    {
      out := [];
      var seen := {};
      var layer := Snapshot();
      hide ListsSeen, Remaining;
      NothingSeen(layer);
      while layer.Layer?
        invariant ListsSeen(out, seen, Flat()) && Remaining(seen, layer, Flat())
        decreases layer
      {
        var rest := layer.bindings.Keys;
        while rest != {}
          invariant rest <= layer.bindings.Keys <= seen + rest
          invariant ListsSeen(out, seen, Flat()) && Remaining(seen, layer, Flat())
          decreases |rest|
        {
          var name :| name in rest;
          rest := rest - {name};
          if name !in seen {
            SeeName(out, seen, layer, Flat(), name);
            out := out + [(name, layer.bindings[name])];
            seen := seen + {name};
          }
        }
        LeaveLayer(seen, layer, Flat());
        layer := layer.parent;
      }
      AllSeen(out, seen, Flat());
    }
  }

  /** The names listed so far are those seen. */
  ghost predicate ListsSeen(out: seq<(string, U32)>, seen: set<string>, flat: map<string, U32>) {
    && (forall i, j | 0 <= i < j < |out| :: out[i].0 != out[j].0)
    && (forall i | 0 <= i < |out| :: out[i].0 in seen && out[i].0 in flat && flat[out[i].0] == out[i].1)
    && (forall name | name in seen :: exists i :: 0 <= i < |out| && out[i].0 == name)
  }

  /** What is visible but not yet seen is visible from the remaining layers. */
  ghost predicate Remaining(seen: set<string>, layer: Chain, flat: map<string, U32>) {
    && flat.Keys == seen + Flatten(layer).Keys
    && (forall name | name in Flatten(layer) && name !in seen :: flat[name] == Flatten(layer)[name])
  }

  lemma NothingSeen(c: Chain)
    ensures ListsSeen([], {}, Flatten(c)) && Remaining({}, c, Flatten(c))
  {}

  lemma AllSeen(out: seq<(string, U32)>, seen: set<string>, flat: map<string, U32>)
    requires ListsSeen(out, seen, flat) && Remaining(seen, Bottom, flat)
    ensures Lists(out, flat)
  {}

  lemma LeaveLayer(seen: set<string>, layer: Chain, flat: map<string, U32>)
    requires layer.Layer? && layer.bindings.Keys <= seen && Remaining(seen, layer, flat)
    ensures Remaining(seen, layer.parent, flat)
  {}

  lemma SeeName(out: seq<(string, U32)>, seen: set<string>, layer: Chain, flat: map<string, U32>, name: string)
    requires layer.Layer? && ListsSeen(out, seen, flat) && Remaining(seen, layer, flat)
    requires name in layer.bindings && name !in seen
    ensures ListsSeen(out + [(name, layer.bindings[name])], seen + {name}, flat)
    ensures Remaining(seen + {name}, layer, flat)
  {
    ListAnother(out, seen, flat, name, layer.bindings[name]);
  }

  lemma ListAnother(out: seq<(string, U32)>, seen: set<string>, flat: map<string, U32>, name: string, id: U32)
    requires ListsSeen(out, seen, flat) && name !in seen && name in flat && flat[name] == id
    ensures ListsSeen(out + [(name, id)], seen + {name}, flat)
  {
    var after := out + [(name, id)];
    assert after[|out|].0 == name;
    forall n | n in seen + {name} ensures exists i :: 0 <= i < |after| && after[i].0 == n {
      if n in seen {
        var i :| 0 <= i < |out| && out[i].0 == n;
        assert after[i].0 == n;
      }
    }
  }

  /** Defining a name uses its identifier and no other that was unused. */
  lemma UsesAfterDefine(before: Chain, name: string, id: U32, next: U32)
    requires before.Layer?
    ensures var after := Layer(before.bindings[name := id], next, before.parent);
            && Uses(after, id)
            && (forall q: U32 | Uses(after, q) :: q == id || Uses(before, q))
  {
    forall q: U32
      ensures Uses(Layer(before.bindings[name := id], next, before.parent), q) ==> q == id || Uses(before, q)
    {
      UsesDefined(before.bindings, before.nextId, before.parent, name, id, next, q);
    }
    UsesDefined(before.bindings, before.nextId, before.parent, name, id, next, id);
  }
}
