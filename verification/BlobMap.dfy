/**
  The metadata store: values appended to one file, found through an index from key to place. The
  file operations may fail; a failed write leaves part of the value at the end of the file.
 */
module BlobMap {
  import opened Options
  import opened RowFile
  import opened Streams
  import opened Slices
  import opened BlobRecords

  datatype Index = Index(offset: nat, size: nat)

  ghost predicate Indexed(file: Option<Block>, indexes: map<Block, Index>, values: map<Block, Block>) {
    && (file.None? ==> indexes == map[])
    && values.Keys == indexes.Keys
    && forall k {:trigger Placed(file, indexes, values, k)} :: k in indexes ==> Placed(file, indexes, values, k)
  }

  ghost predicate Placed(file: Option<Block>, indexes: map<Block, Index>, values: map<Block, Block>, k: Block) {
    && file.Some? && k in indexes && k in values && k != [] && values[k] != []
    && |values[k]| == indexes[k].size && At(file.value, indexes[k].offset, values[k])
  }

  class BlobMap {
    var file: Option<Block>
    var indexes: map<Block, Index>
    ghost var values: map<Block, Block>     // the value last stored under each key
    ghost var failures: nat

    /** Every index points at the value last stored under its key. */
    ghost predicate Valid()
      reads this
    {
      Indexed(file, indexes, values)
    }

    constructor ()
      ensures Valid() && file.None? && values == map[] && failures == 0
    {
      file, indexes, values, failures := None, map[], map[], 0;
    }

    method Initialize(path: Block) returns (ok: bool)
      requires Valid()
      modifies this
      ensures Valid() && values == old(values) && old(failures) <= failures
      ensures ok ==> old(file.None?) && path != [] && file == Some([])
      ensures !ok ==> file == old(file) && (old(file.Some?) || path == [] || failures > old(failures))
    {
      if file.Some? || path == [] {
        return false;
      }
      ok := *;
      if !ok {
        failures := failures + 1;
        return;
      }
      file := Some([]);
    }

    /** The value last stored under the key, nothing if there is none. A failed read finds nothing. */
    method GetValue(key: Block) returns (value: Block)
      requires Valid()
      modifies `failures
      ensures old(failures) <= failures
      ensures value != [] ==> key in values && value == values[key]
      ensures failures == old(failures) ==> value == if key in values then values[key] else []
    {
      if file.None? || key == [] {
        assert key in indexes ==> Placed(file, indexes, values, key);
        return [];
      }
      if key !in indexes || indexes[key].size == 0 {
        assert key in indexes ==> Placed(file, indexes, values, key);
        return [];
      }
      assert Placed(file, indexes, values, key);
      var readable: bool := *;
      if !readable {
        failures := failures + 1;
        return [];
      }
      value := file.value[indexes[key].offset..indexes[key].offset + indexes[key].size];
    }

    /** Stores the value, unless it is stored already. If something fails, the value stored before stays. */
    method SetValue(key: Block, data: Block)
      requires Valid()
      modifies this
      ensures Valid() && old(failures) <= failures
      ensures old(file.None?) || key == [] || data == [] ==> values == old(values)
      ensures values == old(values) || values == old(values)[key := data]
      ensures old(file.Some?) && key != [] && data != [] && failures == old(failures) ==>
                values == old(values)[key := data]
      ensures file.Some? == old(file.Some?)
    {
      if file.None? || key == [] || data == [] {
        return;
      }
      var present := GetValue(key);
      if present == data {
        assert values == values[key := data];
        return;
      }
      var written: int := *;
      if 0 <= written < |data| {
        failures := failures + 1;
        Appended(file.value, indexes, values, data[..written]);
        file := Some(file.value + data[..written]);
        return;
      }
      var index := Index(|file.value|, |data|);
      Appended(file.value, indexes, values, data);
      NewlyIndexed(file.value, indexes, values, key, data);
      file := Some(file.value + data);
      indexes, values := indexes[key := index], values[key := data];
    }

    method SetMetadata(key: Block, m: Metadata)
      requires Valid()
      modifies this
      ensures Valid() && old(failures) <= failures && file.Some? == old(file.Some?)
      ensures old(file.None?) || key == [] ==> values == old(values)
      ensures values == old(values) || values == old(values)[key := MetadataBytes(m)]
      ensures old(file.Some?) && key != [] && failures == old(failures) ==>
                values == old(values)[key := MetadataBytes(m)]
    {
      var stream := new OutputStream();
      SerializeMetadata(stream, m);
      assert stream.buffer[..stream.offset] == MetadataBytes(m) != [];
      SetValue(key, stream.buffer[..stream.offset]);
    }

    /** The metadata last stored under the key, read into new metadata; the ghost parameter names it. */
    method GetMetadata(key: Block, ghost m: Metadata) returns (found: bool, result: Metadata)
      requires Valid()
      modifies `failures
      ensures old(failures) <= failures
      ensures key !in values ==> !found
      ensures key in values && values[key] == MetadataBytes(m) && MetadataFits(m) ==>
                if failures == old(failures) then found && result == m else found ==> result == m
    {
      result := Metadata(0, 0, []);
      var value := GetValue(key);
      if value == [] {
        return false, result;
      }
      var stream := new InputStream(value);
      found, result := DeserializeMetadata(stream, result, m);
    }
  }

  /** Appending to the file moves nothing in it. */
  lemma Appended(file: Block, indexes: map<Block, Index>, values: map<Block, Block>, more: Block)
    requires Indexed(Some(file), indexes, values)
    ensures Indexed(Some(file + more), indexes, values)
  {
    forall k | k in indexes ensures Placed(Some(file + more), indexes, values, k) {
      assert Placed(Some(file), indexes, values, k);
      assert (file + more)[indexes[k].offset..indexes[k].offset + |values[k]|] ==
               file[indexes[k].offset..indexes[k].offset + |values[k]|];
    }
  }

  lemma NewlyIndexed(file: Block, indexes: map<Block, Index>, values: map<Block, Block>, key: Block, data: Block)
    requires Indexed(Some(file + data), indexes, values) && key != [] && data != []
    ensures Indexed(Some(file + data), indexes[key := Index(|file|, |data|)], values[key := data])
  {
    var indexes', values' := indexes[key := Index(|file|, |data|)], values[key := data];
    forall k | k in indexes' ensures Placed(Some(file + data), indexes', values', k) {
      assert k != key ==> Placed(Some(file + data), indexes, values, k);
    }
  }

  // ---- Runs ----

  datatype Update = Update(key: Block, metadata: Metadata)

  /** The metadata last stored under the key. */
  function LastStored(updates: seq<Update>, key: Block): Option<Metadata> {
    if updates == [] then None
    else
      var n := |updates| - 1;
      if updates[n].key == key && key != [] then Some(updates[n].metadata) else LastStored(updates[..n], key)
  }

  /**
    A new store, opened and updated any number of times. If nothing fails, a key gives the metadata last stored
    under it, or nothing.
   */
  method StoreAll(path: Block, updates: seq<Update>, key: Block)
    returns (store: BlobMap, ok: bool, found: bool, result: Metadata)
    requires forall i :: 0 <= i < |updates| ==> MetadataFits(updates[i].metadata)
    ensures fresh(store) && store.Valid() && (path == [] ==> !ok)
    ensures path != [] && store.failures == 0 ==>
              ok && match LastStored(updates, key) case None => !found case Some(m) => found && result == m
  {
    hide MetadataBytes, MetadataFits;
    store := new BlobMap();
    found, result := false, Metadata(0, 0, []);
    ok := store.Initialize(path);
    if !ok {
      return;
    }
    for i := 0 to |updates|
      invariant fresh(store) && store.Valid() && store.file.Some?
      invariant store.failures == 0 ==> Reflects(store.values, updates[..i], key)
    {
      assert updates[..i + 1][..i] == updates[..i];
      store.SetMetadata(updates[i].key, updates[i].metadata);
    }
    assert updates[..|updates|] == updates;
    ghost var last := LastStored(updates, key);
    LastFits(updates, key);
    found, result := store.GetMetadata(key, if last.Some? then last.value else Metadata(0, 0, []));
  }

  ghost predicate Reflects(values: map<Block, Block>, updates: seq<Update>, key: Block) {
    match LastStored(updates, key)
    case None => key !in values
    case Some(m) => key in values && values[key] == MetadataBytes(m)
  }

  lemma {:induction false} LastFits(updates: seq<Update>, key: Block)
    requires forall i :: 0 <= i < |updates| ==> MetadataFits(updates[i].metadata)
    ensures LastStored(updates, key).Some? ==> MetadataFits(LastStored(updates, key).value)
  {
    if updates != [] {
      LastFits(updates[..|updates| - 1], key);
    }
  }
}
