/**
  The registry of compiled sources (crates/diagnostics/src/source.rs): a vector of entries sorted by
  identifier, searched by bisection, with a counter that stays ahead of every identifier ever used.
 */
module SourceRegistry {
  import opened Wrappers
  import opened MachineWords

  datatype SourceEntry = SourceEntry(id: nat, fileName: string, source: string)

  ghost predicate Increasing(entries: seq<SourceEntry>) {
    forall i, j | 0 <= i < j < |entries| :: entries[i].id < entries[j].id
  }

  /** The entry with the given identifier, found by looking at them all. */
  function Scan(entries: seq<SourceEntry>, id: nat): Option<SourceEntry> {
    if entries == [] then None else if entries[0].id == id then Some(entries[0]) else Scan(entries[1..], id)
  }

  lemma {:induction false} ScanFinds(entries: seq<SourceEntry>, i: nat)
    requires Increasing(entries) && i < |entries|
    ensures Scan(entries, entries[i].id) == Some(entries[i])
  {
    if i > 0 { ScanFinds(entries[1..], i - 1); }
  }

  lemma {:induction false} ScanMisses(entries: seq<SourceEntry>, id: nat)
    requires forall i | 0 <= i < |entries| :: entries[i].id != id
    ensures Scan(entries, id) == None
  {
    if entries != [] { ScanMisses(entries[1..], id); }
  }

  lemma {:induction false} ScanUpdated(entries: seq<SourceEntry>, i: nat, e: SourceEntry, id: nat)
    requires Increasing(entries) && i < |entries| && e.id == entries[i].id
    ensures Scan(entries[i := e], id) == if id == e.id then Some(e) else Scan(entries, id)
  {
    var after := entries[i := e];
    if i == 0 {
      assert after[1..] == entries[1..];
    } else {
      assert after[1..] == entries[1..][i - 1 := e];
      ScanUpdated(entries[1..], i - 1, e, id);
    }
  }

  lemma {:induction false} ScanInserted(entries: seq<SourceEntry>, i: nat, e: SourceEntry, id: nat)
    requires i <= |entries| && (forall k | 0 <= k < i :: entries[k].id != e.id)
    ensures Scan(entries[..i] + [e] + entries[i..], id) == if id == e.id then Some(e) else Scan(entries, id)
  {
    var after := entries[..i] + [e] + entries[i..];
    if i == 0 {
      assert after == [e] + entries && after[1..] == entries;
    } else {
      assert after[0] == entries[0] && after[1..] == entries[1..][..i - 1] + [e] + entries[1..][i - 1..];
      ScanInserted(entries[1..], i - 1, e, id);
    }
  }

  lemma InsertKeepsIncreasing(entries: seq<SourceEntry>, i: nat, e: SourceEntry)
    requires Increasing(entries) && i <= |entries|
    requires (forall k | 0 <= k < i :: entries[k].id < e.id) && (forall k | i <= k < |entries| :: e.id < entries[k].id)
    ensures Increasing(entries[..i] + [e] + entries[i..])
  {}

  /** `binary_search_by_key`: the position of the identifier, or where it would be inserted. */
  method BinarySearch(entries: seq<SourceEntry>, id: nat) returns (found: bool, index: nat)
    requires Increasing(entries)
    ensures index <= |entries|
    ensures found ==> index < |entries| && entries[index].id == id
    ensures forall i | 0 <= i < index :: entries[i].id < id
    ensures !found ==> forall i | index <= i < |entries| :: id < entries[i].id
  {
    var low, high := 0, |entries|;
    while low < high
      invariant low <= high <= |entries|
      invariant forall i | 0 <= i < low :: entries[i].id < id
      invariant forall i | high <= i < |entries| :: id < entries[i].id
    {
      var mid := low + (high - low) / 2;
      if entries[mid].id == id {
        return true, mid;
      } else if entries[mid].id < id {
        low := mid + 1;
      } else {
        high := mid;
      }
    }
    return false, low;
  }

  class Registry {
    var entries: seq<SourceEntry>
    var nextId: nat
    /** Every identifier that has been issued or restored; those below `reserved` are kept for others. */
    ghost var used: set<nat>
    ghost var reserved: nat

    ghost predicate Valid()
      reads this
    {
      && Increasing(entries)
      && reserved <= nextId <= U32_MAX
      && (forall id | id in used :: id < nextId)
      && (forall i | 0 <= i < |entries| :: entries[i].id in used)
    }

    constructor ()
      ensures Valid() && entries == [] && used == {} && reserved == 0
    {
      entries, nextId, used, reserved := [], 0, {}, 0;
    }

    /** A fresh identifier, or a panic when the 32-bit supply is exhausted. */
    method Register(fileName: string, source: string) returns (id: Option<nat>)
      requires Valid()
      modifies this
      ensures Valid()
      ensures id == if old(nextId) < U32_MAX then Some(old(nextId)) else None
      ensures id.Some? ==> nextId == old(nextId) + 1
      ensures id.Some? ==> entries == old(entries) + [SourceEntry(id.value, fileName, source)]
      ensures id.None? ==> entries == old(entries) && nextId == old(nextId) && used == old(used)
      ensures id.Some? ==> id.value !in old(used) && id.value >= reserved && used == old(used) + {id.value}
      ensures reserved == old(reserved)
      ensures id.Some? ==> forall q: nat ::
                Scan(entries, q) ==
                if q == id.value then Some(SourceEntry(id.value, fileName, source)) else Scan(old(entries), q)
    {
      if nextId == U32_MAX {
        return None;
      }
      id := Some(nextId);
      ghost var before := entries;
      var entry := SourceEntry(nextId, fileName, source);
      entries := entries + [entry];
      nextId := nextId + 1;
      used := used + {id.value};
      assert entries == before[..|before|] + [entry] + before[|before|..];
      forall q: nat ensures Scan(entries, q) == if q == entry.id then Some(entry) else Scan(before, q) {
        ScanInserted(before, |before|, entry, q);
      }
    }

    /** Bisection finds what a scan of all entries finds. */
    method Lookup(id: nat) returns (entry: Option<SourceEntry>)
      requires Valid()
      ensures entry == Scan(entries, id)
    {
      var found, index := BinarySearch(entries, id);
      if found {
        ScanFinds(entries, index);
        entry := Some(entries[index]);
      } else {
        ScanMisses(entries, id);
        entry := None;
      }
    }

    method UpdateSource(id: nat, source: string) returns (updated: bool)
      requires Valid()
      modifies this`entries
      ensures Valid()
      ensures updated <==> Scan(old(entries), id).Some?
      ensures forall q: nat :: Scan(entries, q) ==
                if updated && q == id then Some(Scan(old(entries), id).value.(source := source))
                else Scan(old(entries), q)
    {
      var found, index := BinarySearch(entries, id);
      if found {
        ScanFinds(entries, index);
        ghost var before := entries;
        entries := entries[index := entries[index].(source := source)];
        forall q: nat ensures Scan(entries, q) == if q == id then Some(entries[index]) else Scan(before, q) {
          ScanUpdated(before, index, entries[index], q);
        }
      } else {
        ScanMisses(entries, id);
      }
      updated := found;
    }

    /** Keeps later identifiers at or above the given one. */
    method ReserveIdsBefore(next: nat)
      requires Valid() && next <= U32_MAX
      modifies this`nextId, this`reserved
      ensures Valid() && nextId == (if old(nextId) < next then next else old(nextId))
      ensures reserved == (if old(reserved) < next then next else old(reserved))
    {
      if nextId < next {
        nextId := next;
      }
      reserved := if reserved < next then next else reserved;
    }

    /** An occupied identifier is never overwritten; the last 32-bit identifier cannot be restored. */
    method Restore(entry: SourceEntry) returns (ok: bool)
      requires Valid() && entry.id <= U32_MAX
      modifies this`entries, this`nextId, this`used
      ensures Valid() && used == (if ok then old(used) + {entry.id} else old(used))
      ensures ok <==> entry.id < U32_MAX && Scan(old(entries), entry.id) in {None, Some(entry)}
      ensures forall q: nat :: Scan(entries, q) == if ok && q == entry.id then Some(entry) else Scan(old(entries), q)
      ensures nextId == if ok && old(nextId) <= entry.id then entry.id + 1 else old(nextId)
    {
      hide Scan;
      if entry.id == U32_MAX {
        return false;
      }
      var found, index := BinarySearch(entries, entry.id);
      if found {
        ScanFinds(entries, index);
        ok := entries[index].fileName == entry.fileName && entries[index].source == entry.source;
        assert found ==> entries[index].id in used;
        return;
      }
      ScanMisses(entries, entry.id);
      ghost var before := entries;
      if nextId < entry.id + 1 {
        nextId := entry.id + 1;
      }
      entries := entries[..index] + [entry] + entries[index..];
      used := used + {entry.id};
      InsertKeepsIncreasing(before, index, entry);
      forall q: nat ensures Scan(entries, q) == if q == entry.id then Some(entry) else Scan(before, q) {
        ScanInserted(before, index, entry, q);
      }
      ok := true;
    }
  }
}
