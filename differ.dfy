/** `diff_endpoints`: comparing the previous dictionary with the new one gives
    the records to create (keys only in the new one), the pairs to update (keys
    in both whose records differ, old record and new record side by side) and
    the records to delete (keys only in the old one), each list in the order of
    its dictionary's keys. */
module Differ {
  import opened EndpointBuilder

  /** The four lists the function returns: Create, UpdateOld, UpdateNew, Delete. */
  datatype Delta = Delta(create: seq<Record>, updateOld: seq<Record>, updateNew: seq<Record>, delete: seq<Record>)

  /** The keys of `keys`, in order, that `other` lacks. */
  function Missing(keys: seq<string>, other: map<string, Record>): seq<string>
    decreases |keys|
  {
    if keys == [] then []
    else
      var k := keys[|keys| - 1];
      Missing(keys[..|keys| - 1], other) + (if k in other then [] else [k])
  }

  /** The keys of `keys`, in order, present in both maps with different records. */
  function Changed(keys: seq<string>, older: map<string, Record>, newer: map<string, Record>): seq<string>
    decreases |keys|
  {
    if keys == [] then []
    else
      var k := keys[|keys| - 1];
      Changed(keys[..|keys| - 1], older, newer) + (if k in older && k in newer && older[k] != newer[k] then [k] else [])
  }

  /** The records stored under `keys`, in that order (a key `m` lacks adds nothing). */
  function Values(keys: seq<string>, m: map<string, Record>): seq<Record>
    decreases |keys|
  {
    if keys == [] then []
    else
      var k := keys[|keys| - 1];
      Values(keys[..|keys| - 1], m) + (if k in m then [m[k]] else [])
  }

  lemma {:induction false} MissingMembers(keys: seq<string>, other: map<string, Record>)
    ensures forall k :: k in Missing(keys, other) <==> k in keys && k !in other
    decreases |keys|
  {
    if keys != [] {
      var init := keys[..|keys| - 1];
      MissingMembers(init, other);
      assert keys == init + [keys[|keys| - 1]];
    }
  }

  lemma {:induction false} ChangedMembers(keys: seq<string>, older: map<string, Record>, newer: map<string, Record>)
    ensures forall k :: k in Changed(keys, older, newer) <==>
      k in keys && k in older && k in newer && older[k] != newer[k]
    decreases |keys|
  {
    if keys != [] {
      var init := keys[..|keys| - 1];
      assert keys == init + [keys[|keys| - 1]];
      ChangedMembers(init, older, newer);
    }
  }

  /** When every key is present, the i-th value is the record of the i-th key. */
  lemma {:induction false} ValuesAt(keys: seq<string>, m: map<string, Record>)
    requires forall k :: k in keys ==> k in m
    ensures |Values(keys, m)| == |keys|
    ensures forall i :: 0 <= i < |keys| ==> Values(keys, m)[i] == m[keys[i]]
    decreases |keys|
  {
    if keys != [] {
      var init := keys[..|keys| - 1];
      assert forall k :: k in init ==> k in keys;
      assert keys[|keys| - 1] in keys;
      ValuesAt(init, m);
    }
  }

  /** The lists `diff_endpoints(prev, next)` returns. */
  function Diff(prev: Endpoints, next: Endpoints): Delta {
    var changed := Changed(next.names, prev.records, next.records);
    Delta(
      Values(Missing(next.names, prev.records), next.records),
      Values(changed, prev.records),
      Values(changed, next.records),
      Values(Missing(prev.names, next.records), prev.records))
  }

  /** The test `c or uo or d` of the refresh loop. */
  predicate HasChanges(delta: Delta) {
    delta.create != [] || delta.updateOld != [] || delta.delete != []
  }

  lemma ValuesAppend(keys: seq<string>, k: string, m: map<string, Record>)
    requires k in m
    ensures Values(keys + [k], m) == Values(keys, m) + [m[k]]
  {
    assert (keys + [k])[..|keys|] == keys;
  }

  /** One step of the first pass: the key at position `i` of the new dictionary
      extends Create, or the two update lists, or neither. */
  lemma ScanNewStep(prev: Endpoints, next: Endpoints, i: nat)
    requires i < |next.names| && next.names[i] in next.records
    ensures var name := next.names[i];
      var ep := next.records[name];
      && Values(Missing(next.names[..i + 1], prev.records), next.records)
        == Values(Missing(next.names[..i], prev.records), next.records) + (if name !in prev.records then [ep] else [])
      && Values(Changed(next.names[..i + 1], prev.records, next.records), prev.records)
        == Values(Changed(next.names[..i], prev.records, next.records), prev.records)
           + (if name in prev.records && prev.records[name] != ep then [prev.records[name]] else [])
      && Values(Changed(next.names[..i + 1], prev.records, next.records), next.records)
        == Values(Changed(next.names[..i], prev.records, next.records), next.records)
           + (if name in prev.records && prev.records[name] != ep then [ep] else [])
  {
    var name := next.names[i];
    var seen := next.names[..i];
    assert next.names[..i + 1][..i] == seen;
    var created := Missing(seen, prev.records);
    var changed := Changed(seen, prev.records, next.records);
    if name !in prev.records {
      assert Missing(next.names[..i + 1], prev.records) == created + [name];
      assert Changed(next.names[..i + 1], prev.records, next.records) == changed;
      ValuesAppend(created, name, next.records);
    } else if prev.records[name] != next.records[name] {
      assert Missing(next.names[..i + 1], prev.records) == created;
      assert Changed(next.names[..i + 1], prev.records, next.records) == changed + [name];
      ValuesAppend(changed, name, prev.records);
      ValuesAppend(changed, name, next.records);
    } else {
      assert Missing(next.names[..i + 1], prev.records) == created;
      assert Changed(next.names[..i + 1], prev.records, next.records) == changed;
    }
  }

  /** The first pass of `diff_endpoints`, over the new dictionary in key order. */
  method ScanNew(prev: Endpoints, next: Endpoints) returns (create: seq<Record>, updateOld: seq<Record>, updateNew: seq<Record>)
    requires prev.Valid() && next.Valid()
    ensures create == Diff(prev, next).create
    ensures updateOld == Diff(prev, next).updateOld
    ensures updateNew == Diff(prev, next).updateNew
  {
    create, updateOld, updateNew := [], [], [];
    for i := 0 to |next.names|
      invariant create == Values(Missing(next.names[..i], prev.records), next.records)
      invariant updateOld == Values(Changed(next.names[..i], prev.records, next.records), prev.records)
      invariant updateNew == Values(Changed(next.names[..i], prev.records, next.records), next.records)
    {
      var name := next.names[i];
      var ep := next.records[name];
      ScanNewStep(prev, next, i);
      if name !in prev.records {
        create := create + [ep];
      } else if prev.records[name] != ep {
        updateOld := updateOld + [prev.records[name]];
        updateNew := updateNew + [ep];
      }
    }
    assert next.names[..|next.names|] == next.names;
  }

  /** One step of the second pass: the key at position `i` of the old
      dictionary extends Delete exactly when the new dictionary lacks it. */
  lemma ScanOldStep(prev: Endpoints, next: Endpoints, i: nat)
    requires i < |prev.names| && prev.names[i] in prev.records
    ensures var name := prev.names[i];
      Values(Missing(prev.names[..i + 1], next.records), prev.records)
        == Values(Missing(prev.names[..i], next.records), prev.records)
           + (if name !in next.records then [prev.records[name]] else [])
  {
    var name := prev.names[i];
    var seen := prev.names[..i];
    assert prev.names[..i + 1][..i] == seen;
    if name !in next.records {
      assert Missing(prev.names[..i + 1], next.records) == Missing(seen, next.records) + [name];
      ValuesAppend(Missing(seen, next.records), name, prev.records);
    } else {
      assert Missing(prev.names[..i + 1], next.records) == Missing(seen, next.records);
    }
  }

  /** The second pass of `diff_endpoints`, over the old dictionary in key order. */
  method ScanOld(prev: Endpoints, next: Endpoints) returns (delete: seq<Record>)
    requires prev.Valid() && next.Valid()
    ensures delete == Diff(prev, next).delete
  {
    delete := [];
    for i := 0 to |prev.names|
      invariant delete == Values(Missing(prev.names[..i], next.records), prev.records)
    {
      var name := prev.names[i];
      var ep := prev.records[name];
      ScanOldStep(prev, next, i);
      if name !in next.records {
        delete := delete + [ep];
      }
    }
    assert prev.names[..|prev.names|] == prev.names;
  }

  /** `diff_endpoints(prev, next)`. */
  method DiffEndpoints(prev: Endpoints, next: Endpoints) returns (delta: Delta)
    requires prev.Valid() && next.Valid()
    ensures delta == Diff(prev, next)
  {
    var create, updateOld, updateNew := ScanNew(prev, next);
    var delete := ScanOld(prev, next);
    return Delta(create, updateOld, updateNew, delete);
  }

  /** Comparing a dictionary with itself finds nothing to do. */
  lemma DiffOfSameIsEmpty(d: Endpoints)
    requires d.Valid()
    ensures Diff(d, d) == Delta([], [], [], [])
  {
    NothingMissing(d.names, d.records);
    NothingChanged(d.names, d.records);
  }

  lemma {:induction false} ValuesMembers(keys: seq<string>, m: map<string, Record>)
    requires forall k :: k in keys ==> k in m
    ensures forall r :: r in Values(keys, m) <==> exists k :: k in keys && m[k] == r
    decreases |keys|
  {
    if keys != [] {
      var init := keys[..|keys| - 1];
      var last := keys[|keys| - 1];
      assert keys == init + [last];
      assert forall k :: k in init ==> k in keys;
      ValuesMembers(init, m);
      assert Values(keys, m) == Values(init, m) + [m[last]];
    }
  }

  /** The records of the keys of `d` that `other` lacks. */
  lemma MissingValues(d: Endpoints, other: map<string, Record>)
    requires d.Valid()
    ensures forall r :: r in Values(Missing(d.names, other), d.records) <==>
      exists k :: k in d.records && k !in other && d.records[k] == r
  {
    var ks := Missing(d.names, other);
    MissingMembers(d.names, other);
    ValuesMembers(ks, d.records);
  }

  /** Create holds exactly the records of the keys only the new dictionary has. */
  lemma DiffCreatesNewKeys(prev: Endpoints, next: Endpoints)
    requires prev.Valid() && next.Valid()
    ensures forall r :: r in Diff(prev, next).create <==>
      exists k :: k in next.records && k !in prev.records && next.records[k] == r
  {
    MissingValues(next, prev.records);
  }

  /** Delete holds exactly the records of the keys only the old dictionary has. */
  lemma DiffDeletesDroppedKeys(prev: Endpoints, next: Endpoints)
    requires prev.Valid() && next.Valid()
    ensures forall r :: r in Diff(prev, next).delete <==>
      exists k :: k in prev.records && k !in next.records && prev.records[k] == r
  {
    MissingValues(prev, next.records);
  }

  /** UpdateOld and UpdateNew pair up position by position: the i-th entries
      are the old and the new record of the i-th key (in the new dictionary's
      order) that both dictionaries hold with different records. */
  lemma DiffUpdatesArePairs(prev: Endpoints, next: Endpoints)
    requires prev.Valid() && next.Valid()
    ensures var delta := Diff(prev, next);
      var ks := Changed(next.names, prev.records, next.records);
      && |delta.updateOld| == |ks| && |delta.updateNew| == |ks|
      && forall i :: 0 <= i < |ks| ==>
        && ks[i] in prev.records && ks[i] in next.records
        && delta.updateOld[i] == prev.records[ks[i]]
        && delta.updateNew[i] == next.records[ks[i]]
        && delta.updateOld[i] != delta.updateNew[i]
  {
    var ks := Changed(next.names, prev.records, next.records);
    ChangedMembers(next.names, prev.records, next.records);
    ValuesAt(ks, prev.records);
    ValuesAt(ks, next.records);
    assert forall i :: 0 <= i < |ks| ==> ks[i] in ks;
  }

  /** Every key held by both dictionaries with different records gives one
      update pair. */
  lemma DiffUpdatesEveryChangedKey(prev: Endpoints, next: Endpoints, k: string)
    requires prev.Valid() && next.Valid()
    requires k in prev.records && k in next.records && prev.records[k] != next.records[k]
    ensures var delta := Diff(prev, next);
      exists i :: 0 <= i < |delta.updateOld| && i < |delta.updateNew|
        && delta.updateOld[i] == prev.records[k] && delta.updateNew[i] == next.records[k]
  {
    var ks := Changed(next.names, prev.records, next.records);
    ChangedMembers(next.names, prev.records, next.records);
    ValuesAt(ks, prev.records);
    ValuesAt(ks, next.records);
    var i :| 0 <= i < |ks| && ks[i] == k;
    assert Diff(prev, next).updateOld[i] == prev.records[k];
  }

  lemma {:induction false} NothingMissing(keys: seq<string>, other: map<string, Record>)
    requires forall k :: k in keys ==> k in other
    ensures Missing(keys, other) == []
    decreases |keys|
  {
    if keys != [] {
      assert keys[|keys| - 1] in keys;
      NothingMissing(keys[..|keys| - 1], other);
    }
  }

  lemma {:induction false} NothingChanged(keys: seq<string>, m: map<string, Record>)
    ensures Changed(keys, m, m) == []
    decreases |keys|
  {
    if keys != [] {
      NothingChanged(keys[..|keys| - 1], m);
    }
  }

  /** The loop's test leaves out UpdateNew, which changes nothing: UpdateNew is
      empty exactly when UpdateOld is. */
  lemma UpdateListsEmptyTogether(prev: Endpoints, next: Endpoints)
    requires prev.Valid() && next.Valid()
    ensures Diff(prev, next).updateNew == [] <==> Diff(prev, next).updateOld == []
  {
    DiffUpdatesArePairs(prev, next);
  }

  /** There is something to push exactly when the two dictionaries hold
      different records. */
  lemma HasChangesIffRecordsDiffer(prev: Endpoints, next: Endpoints)
    requires prev.Valid() && next.Valid()
    ensures HasChanges(Diff(prev, next)) <==> prev.records != next.records
  {
    var delta := Diff(prev, next);
    if prev.records == next.records {
      NothingMissing(next.names, prev.records);
      NothingMissing(prev.names, next.records);
      NothingChanged(next.names, next.records);
    } else if k :| k in next.records && k !in prev.records {
      DiffCreatesNewKeys(prev, next);
      assert next.records[k] in delta.create;
    } else if k :| k in prev.records && k !in next.records {
      DiffDeletesDroppedKeys(prev, next);
      assert prev.records[k] in delta.delete;
    } else {
      assert prev.records.Keys == next.records.Keys;
      var k :| k in prev.records && prev.records[k] != next.records[k];
      DiffUpdatesEveryChangedKey(prev, next, k);
    }
  }
}
