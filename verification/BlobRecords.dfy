/**
  Blob metadata and folders as records on the streams.
 */
module BlobRecords {
  import opened RowFile
  import opened Streams
  import opened Slices

  datatype PartitionInfo = PartitionInfo(name: Block, provider: Block)

  datatype Metadata = Metadata(size: nat, blockSize: nat, partitions: seq<PartitionInfo>)

  const MAGIC_HEADER: nat := 0x0a0b0c0d

  /** The kind of an entry: folder 0, file 1. */
  datatype Entry = Entry(id: Block, kind: nat, createTime: nat, modifyTime: nat, size: nat, metadata: Metadata)

  // ---- The fields fit their widths ----

  ghost predicate Short(s: Block) { |s| < Limit(4) }

  ghost predicate PartitionFits(p: PartitionInfo) { Short(p.name) && Short(p.provider) }

  ghost predicate MetadataFits(m: Metadata) {
    && m.size < Limit(8) && m.blockSize < Limit(8) && |m.partitions| < Limit(4)
    && forall i :: 0 <= i < |m.partitions| ==> PartitionFits(m.partitions[i])
  }

  ghost predicate EntryFits(e: Entry) {
    && Short(e.id) && e.kind < 2 && e.createTime < Limit(4) && e.modifyTime < Limit(4) && e.size < Limit(8)
    && MetadataFits(e.metadata)
  }

  ghost predicate EntriesFit(entries: map<Block, Entry>) {
    |entries| < Limit(4) && forall k :: k in entries ==> Short(k) && EntryFits(entries[k])
  }

  // ---- The bytes ----

  function PartitionEntry(p: PartitionInfo): Block { Counted(p.name) + Counted(p.provider) }

  function PartitionBytes(ps: seq<PartitionInfo>): Block {
    if ps == [] then [] else PartitionEntry(ps[0]) + PartitionBytes(ps[1..])
  }

  function MetadataBytes(m: Metadata): Block {
    BigEndian(8, m.size) + (BigEndian(8, m.blockSize) + (BigEndian(4, |m.partitions|) + PartitionBytes(m.partitions)))
  }

  function EntryHead(e: Entry): (r: Block)
    ensures |r| == 17
  {
    BigEndian(1, e.kind) + (BigEndian(4, e.createTime) + (BigEndian(4, e.modifyTime) + BigEndian(8, e.size)))
  }

  function EntryBytes(e: Entry): Block { Counted(e.id) + (EntryHead(e) + MetadataBytes(e.metadata)) }

  /** All of these are keys of the map. */
  ghost predicate Keys(entries: map<Block, Entry>, order: seq<Block>) {
    forall i :: 0 <= i < |order| ==> order[i] in entries
  }

  function NamedEntry(key: Block, e: Entry): Block { Counted(key) + EntryBytes(e) }

  /** The entries in the order in which the map lists its keys. */
  function EntriesBytes(entries: map<Block, Entry>, order: seq<Block>): Block
    requires Keys(entries, order)
  {
    if order == [] then [] else NamedEntry(order[0], entries[order[0]]) + EntriesBytes(entries, order[1..])
  }

  function FolderBytes(name: Block, entries: map<Block, Entry>, order: seq<Block>): Block
    requires Keys(entries, order)
  {
    (BigEndian(4, MAGIC_HEADER) + (Counted(name) + BigEndian(4, |order|))) + EntriesBytes(entries, order)
  }

  // ---- Metadata ----

  lemma {:induction false} PartitionBytesMore(ps: seq<PartitionInfo>, p: PartitionInfo)
    ensures PartitionBytes(ps + [p]) == PartitionBytes(ps) + PartitionEntry(p)
  {
    if ps == [] {
      assert ([p])[1..] == [];
    } else {
      assert (ps + [p])[1..] == ps[1..] + [p];
      PartitionBytesMore(ps[1..], p);
    }
  }

  method SerializeMetadata(stream: OutputStream, m: Metadata)
    requires stream.Valid()
    modifies stream
    ensures stream.Valid() && stream.Contents() == old(stream.Contents()) + MetadataBytes(m)
  {
    hide PartitionBytes, BigEndian;
    stream.WriteUInt(8, m.size);
    stream.WriteUInt(8, m.blockSize);
    stream.WriteUInt(4, |m.partitions|);
    WritePartitions(stream, m.partitions);
  }

  method WritePartitions(stream: OutputStream, ps: seq<PartitionInfo>)
    requires stream.Valid()
    modifies stream
    ensures stream.Valid() && stream.Contents() == old(stream.Contents()) + PartitionBytes(ps)
  {
    ghost var start, done := stream.Contents(), [];
    assert PartitionBytes(ps[..0]) == [];
    hide PartitionBytes, Counted;
    for i := 0 to |ps|
      invariant stream.Valid() && stream.Contents() == start + done && done == PartitionBytes(ps[..i])
    {
      PartitionBytesMore(ps[..i], ps[i]);
      assert ps[..i] + [ps[i]] == ps[..i + 1];
      stream.WriteString(ps[i].name);
      stream.WriteString(ps[i].provider);
      Regroup(start, done, Counted(ps[i].name), Counted(ps[i].provider));
      done := done + PartitionEntry(ps[i]);
    }
    assert ps[..|ps|] == ps;
  }

  method MetadataSize(m: Metadata) returns (size: nat)
    ensures size == |MetadataBytes(m)|
  {
    size := 8 + 8 + 4;
    for i := 0 to |m.partitions|
      invariant size == 20 + |PartitionBytes(m.partitions[..i])|
    {
      PartitionBytesMore(m.partitions[..i], m.partitions[i]);
      assert m.partitions[..i] + [m.partitions[i]] == m.partitions[..i + 1];
      size := size + 4 + |m.partitions[i].name|;
      size := size + 4 + |m.partitions[i].provider|;
    }
    assert m.partitions[..|m.partitions|] == m.partitions;
  }

  /** Reads metadata over what was there, to whose partitions the new ones are added. */
  method DeserializeMetadata(stream: InputStream, before: Metadata, ghost m: Metadata)
    returns (ok: bool, result: Metadata)
    requires stream.Valid()
    modifies stream
    ensures stream.Valid() && old(stream.offset) <= stream.offset
    ensures old(stream.isValid) && MetadataFits(m) && At(stream.data, old(stream.offset), MetadataBytes(m)) ==>
              && ok && result == m.(partitions := before.partitions + m.partitions)
              && stream.isValid && stream.offset == old(stream.offset) + |MetadataBytes(m)|
  {
    ghost var good := stream.isValid && MetadataFits(m) && At(stream.data, stream.offset, MetadataBytes(m));
    result := before;
    if stream.Remainder() < 8 + 8 + 4 {
      return false, result;
    }
    ghost var p := stream.offset;
    AtParts(stream.data, p, BigEndian(8, m.size),
            BigEndian(8, m.blockSize) + (BigEndian(4, |m.partitions|) + PartitionBytes(m.partitions)));
    AtParts(stream.data, p + 8, BigEndian(8, m.blockSize), BigEndian(4, |m.partitions|) + PartitionBytes(m.partitions));
    AtParts(stream.data, p + 16, BigEndian(4, |m.partitions|), PartitionBytes(m.partitions));
    var size := stream.ReadUInt(8, m.size);
    var blockSize := stream.ReadUInt(8, m.blockSize);
    result := result.(size := size, blockSize := blockSize);
    var count := stream.ReadUInt(4, |m.partitions|);
    var partitions;
    ok, partitions := ReadPartitions(stream, count, m.partitions);
    result := result.(partitions := result.partitions + partitions);
  }

  method ReadPartitions(stream: InputStream, count: nat, ghost ps: seq<PartitionInfo>)
    returns (ok: bool, partitions: seq<PartitionInfo>)
    requires stream.Valid()
    modifies stream
    ensures stream.Valid() && old(stream.offset) <= stream.offset
    ensures old(stream.isValid) && count == |ps| && (forall i :: 0 <= i < |ps| ==> PartitionFits(ps[i]))
            && At(stream.data, old(stream.offset), PartitionBytes(ps)) ==>
              ok && partitions == ps && stream.isValid && stream.offset == old(stream.offset) + |PartitionBytes(ps)|
  {
    hide PartitionBytes, Counted, BigEndian;
    ghost var good := stream.isValid && count == |ps| && (forall i :: 0 <= i < |ps| ==> PartitionFits(ps[i]))
                      && At(stream.data, stream.offset, PartitionBytes(ps));
    ghost var end := stream.offset + |PartitionBytes(ps)|;
    partitions := [];
    assert ps[0..] == ps;
    for i := 0 to count
      invariant stream.Valid() && old(stream.offset) <= stream.offset
      invariant good ==> PartitionsLeft(stream.data, stream.offset, end, ps, partitions)
      invariant good ==> |partitions| == i && stream.isValid
    {
      ghost var q := PartitionInfo([], []);
      if good {
        q := NextPartition(stream.data, stream.offset, end, ps, partitions);
      }
      if stream.Remainder() < 4 {
        return false, partitions;
      }
      var name := stream.ReadString([], q.name);
      if stream.Remainder() < 4 {
        return false, partitions;
      }
      var provider := stream.ReadString([], q.provider);
      partitions := partitions + [PartitionInfo(name, provider)];
    }
    ok := true;
    if good {
      LastPartition(stream.data, stream.offset, end, ps, partitions);
    }
  }

  /** These partitions have been read, and the bytes of the others lie between p and the end. */
  ghost predicate PartitionsLeft(data: Block, p: nat, end: nat, ps: seq<PartitionInfo>,
                                 partitions: seq<PartitionInfo>) {
    && |partitions| <= |ps| && partitions == ps[..|partitions|]
    && At(data, p, PartitionBytes(ps[|partitions|..])) && p + |PartitionBytes(ps[|partitions|..])| == end
  }

  lemma LastPartition(data: Block, p: nat, end: nat, ps: seq<PartitionInfo>, partitions: seq<PartitionInfo>)
    requires PartitionsLeft(data, p, end, ps, partitions) && |partitions| == |ps|
    ensures partitions == ps && p == end
  {
  }

  lemma NextPartition(data: Block, p: nat, end: nat, ps: seq<PartitionInfo>, partitions: seq<PartitionInfo>)
    returns (q: PartitionInfo)
    requires PartitionsLeft(data, p, end, ps, partitions) && |partitions| < |ps|
    ensures q == ps[|partitions|] && At(data, p, Counted(q.name))
            && At(data, p + |Counted(q.name)|, Counted(q.provider))
    ensures PartitionsLeft(data, p + |Counted(q.name)| + |Counted(q.provider)|, end, ps, partitions + [q])
    ensures |Counted(q.name)| >= 4 && |Counted(q.provider)| >= 4
  {
    q := ps[|partitions|];
    var rest := PartitionBytes(ps[|partitions| + 1..]);
    assert ps[|partitions|..][1..] == ps[|partitions| + 1..];
    AtParts(data, p, PartitionEntry(q), rest);
    AtParts(data, p, Counted(q.name), Counted(q.provider));
  }

  // ---- Entries ----

  method SerializeEntry(stream: OutputStream, e: Entry)
    requires stream.Valid()
    modifies stream
    ensures stream.Valid() && stream.Contents() == old(stream.Contents()) + EntryBytes(e)
  {
    hide Counted, BigEndian, MetadataBytes;
    ghost var start := stream.Contents();
    stream.WriteString(e.id);
    WriteHead(stream, e);
    SerializeMetadata(stream, e.metadata);
    Regroup(start, Counted(e.id), EntryHead(e), MetadataBytes(e.metadata));
  }

  method WriteHead(stream: OutputStream, e: Entry)
    requires stream.Valid()
    modifies stream
    ensures stream.Valid() && stream.Contents() == old(stream.Contents()) + EntryHead(e)
  {
    hide BigEndian;
    stream.WriteUInt(1, e.kind);
    stream.WriteUInt(4, e.createTime);
    stream.WriteUInt(4, e.modifyTime);
    stream.WriteUInt(8, e.size);
  }

  method EntrySize(e: Entry) returns (size: nat)
    ensures size == |EntryBytes(e)|
  {
    size := 4 + |e.id|;
    size := size + 1 + 4 + 4 + 8;
    var more := MetadataSize(e.metadata);
    size := size + more;
  }

  method DeserializeEntry(stream: InputStream, ghost e: Entry) returns (ok: bool, entry: Entry)
    requires stream.Valid()
    modifies stream
    ensures stream.Valid() && old(stream.offset) <= stream.offset
    ensures old(stream.isValid) && EntryFits(e) && At(stream.data, old(stream.offset), EntryBytes(e)) ==>
              ok && entry == e && stream.isValid && stream.offset == old(stream.offset) + |EntryBytes(e)|
  {
    hide BigEndian, MetadataBytes, EntryHead, MetadataFits;
    entry := Entry([], 0, 0, 0, 0, Metadata(0, 0, []));
    AtParts(stream.data, stream.offset, Counted(e.id), EntryHead(e) + MetadataBytes(e.metadata));
    AtParts(stream.data, stream.offset + |Counted(e.id)|, EntryHead(e), MetadataBytes(e.metadata));
    if stream.Remainder() < 4 {
      return false, entry;
    }
    var id := stream.ReadString([], e.id);
    if stream.Remainder() < 1 + 4 * 2 + 8 {
      return false, entry;
    }
    var kind, createTime, modifyTime, size;
    ok, kind, createTime, modifyTime, size := ReadHead(stream, e);
    if !ok {
      return;
    }
    var metadata;
    ok, metadata := DeserializeMetadata(stream, Metadata(0, 0, []), e.metadata);
    entry := Entry(id, kind, createTime, modifyTime, size, metadata);
  }

  method ReadHead(stream: InputStream, ghost e: Entry)
    returns (ok: bool, kind: nat, createTime: nat, modifyTime: nat, size: nat)
    requires stream.Valid()
    modifies stream
    ensures stream.Valid() && old(stream.offset) <= stream.offset
    ensures old(stream.isValid) && EntryFits(e) && At(stream.data, old(stream.offset), EntryHead(e)) ==>
              && ok && kind == e.kind && createTime == e.createTime && modifyTime == e.modifyTime && size == e.size
              && stream.isValid && stream.offset == old(stream.offset) + 17
  {
    hide BigEndian, MetadataFits;
    ghost var p := stream.offset;
    createTime, modifyTime, size := 0, 0, 0;
    AtParts(stream.data, p, BigEndian(1, e.kind),
            BigEndian(4, e.createTime) + (BigEndian(4, e.modifyTime) + BigEndian(8, e.size)));
    AtParts(stream.data, p + 1, BigEndian(4, e.createTime), BigEndian(4, e.modifyTime) + BigEndian(8, e.size));
    AtParts(stream.data, p + 5, BigEndian(4, e.modifyTime), BigEndian(8, e.size));
    kind := stream.ReadUInt(1, e.kind);
    if kind >= 2 {
      ok := false;
      return;
    }
    createTime := stream.ReadUInt(4, e.createTime);
    modifyTime := stream.ReadUInt(4, e.modifyTime);
    size := stream.ReadUInt(8, e.size);
    ok := true;
  }

  // ---- Folders ----

  /** An order in which a map may list its keys. */
  ghost predicate IsOrder(entries: map<Block, Entry>, order: seq<Block>) {
    && |order| == |entries|
    && Keys(entries, order)
    && (forall i, j :: 0 <= i < j < |order| ==> order[i] != order[j])
    && (forall k :: k in entries ==> k in order)
  }

  method ListKeys(entries: map<Block, Entry>) returns (order: seq<Block>)
    ensures IsOrder(entries, order)
  {
    order := [];
    var left := entries.Keys;
    while left != {}
      invariant left <= entries.Keys && |order| + |left| == |entries|
      invariant forall i :: 0 <= i < |order| ==> order[i] in entries && order[i] !in left
      invariant forall i, j :: 0 <= i < j < |order| ==> order[i] != order[j]
      invariant forall k :: k in entries ==> k in order || k in left
      decreases |left|
    {
      var key :| key in left;
      order, left := order + [key], left - {key};
    }
  }

  lemma {:induction false} EntriesBytesMore(entries: map<Block, Entry>, order: seq<Block>, key: Block)
    requires Keys(entries, order) && key in entries
    ensures EntriesBytes(entries, order + [key]) == EntriesBytes(entries, order) + NamedEntry(key, entries[key])
  {
    hide NamedEntry;
    if order == [] {
      assert ([key])[1..] == [];
    } else {
      assert (order + [key])[1..] == order[1..] + [key];
      EntriesBytesMore(entries, order[1..], key);
    }
  }

  method WriteEntries(stream: OutputStream, entries: map<Block, Entry>, keys: seq<Block>)
    requires stream.Valid() && Keys(entries, keys)
    modifies stream
    ensures stream.Valid() && stream.Contents() == old(stream.Contents()) + EntriesBytes(entries, keys)
  {
    ghost var start, done := stream.Contents(), [];
    assert EntriesBytes(entries, keys[..0]) == [];
    hide EntriesBytes, Counted, EntryBytes;
    for i := 0 to |keys|
      invariant stream.Valid() && stream.Contents() == start + done && done == EntriesBytes(entries, keys[..i])
    {
      EntriesBytesMore(entries, keys[..i], keys[i]);
      assert keys[..i] + [keys[i]] == keys[..i + 1];
      stream.WriteString(keys[i]);
      SerializeEntry(stream, entries[keys[i]]);
      Regroup(start, done, Counted(keys[i]), EntryBytes(entries[keys[i]]));
      done := done + NamedEntry(keys[i], entries[keys[i]]);
    }
    assert keys[..|keys|] == keys;
  }

  method EntriesSize(entries: map<Block, Entry>, keys: seq<Block>) returns (size: nat)
    requires Keys(entries, keys)
    ensures size == |EntriesBytes(entries, keys)|
  {
    hide EntriesBytes, EntryBytes;
    SizeMore(entries, keys, 0);
    size := 0;
    for i := 0 to |keys|
      invariant size == |EntriesBytes(entries, keys[..i])|
    {
      SizeMore(entries, keys, i);
      size := size + 4 + |keys[i]|;
      var more := EntrySize(entries[keys[i]]);
      size := size + more;
    }
    assert keys[..|keys|] == keys;
  }

  lemma SizeMore(entries: map<Block, Entry>, keys: seq<Block>, i: nat)
    requires Keys(entries, keys) && i <= |keys|
    ensures i == 0 ==> EntriesBytes(entries, keys[..i]) == []
    ensures i < |keys| ==>
              |EntriesBytes(entries, keys[..i + 1])| ==
                |EntriesBytes(entries, keys[..i])| + 4 + |keys[i]| + |EntryBytes(entries[keys[i]])|
  {
    hide EntryBytes;
    if i < |keys| {
      EntriesBytesMore(entries, keys[..i], keys[i]);
      assert keys[..i] + [keys[i]] == keys[..i + 1];
    }
  }

  /** Taking one key out of the list takes its bytes out of the length. */
  lemma {:induction false} SizeWithout(entries: map<Block, Entry>, order: seq<Block>, j: nat)
    requires Keys(entries, order) && j < |order|
    ensures |EntriesBytes(entries, order)| ==
              |NamedEntry(order[j], entries[order[j]])| + |EntriesBytes(entries, order[..j] + order[j + 1..])|
    decreases j
  {
    hide NamedEntry;
    if j > 0 {
      SizeWithout(entries, order[1..], j - 1);
      assert (order[..j] + order[j + 1..])[1..] == order[1..][..j - 1] + order[1..][j..];
    } else {
      assert order[..0] + order[1..] == order[1..];
    }
  }

  lemma MultisetWithout(s: seq<Block>, j: nat)
    requires j < |s|
    ensures multiset(s[..j] + s[j + 1..]) == multiset(s) - multiset{s[j]}
  {
    assert s == s[..j] + [s[j]] + s[j + 1..];
  }

  /** The length does not depend on the order. */
  lemma {:induction false} SameSize(entries: map<Block, Entry>, a: seq<Block>, b: seq<Block>)
    requires Keys(entries, a) && Keys(entries, b) && multiset(a) == multiset(b)
    ensures |EntriesBytes(entries, a)| == |EntriesBytes(entries, b)|
    decreases |a|
  {
    hide NamedEntry;
    if a != [] {
      assert a[0] in multiset(b);
      var j :| 0 <= j < |b| && b[j] == a[0];
      var rest := b[..j] + b[j + 1..];
      MultisetWithout(a, 0);
      MultisetWithout(b, j);
      assert a[..0] + a[1..] == a[1..];
      SizeWithout(entries, b, j);
      SameSize(entries, a[1..], rest);
    } else {
      assert |multiset(b)| == 0;
    }
  }

  lemma {:induction false} DistinctAre(keys: set<Block>, order: seq<Block>)
    requires forall i, j :: 0 <= i < j < |order| ==> order[i] != order[j]
    requires forall k :: k in keys <==> k in order
    ensures multiset(order) == multiset(keys)
    decreases |order|
  {
    if order == [] {
      assert keys == {};
    } else {
      var k, rest := order[0], order[1..];
      assert order == [k] + rest;
      forall x ensures x in keys - {k} <==> x in rest {
      }
      DistinctAre(keys - {k}, rest);
      assert keys == (keys - {k}) + {k};
    }
  }

  lemma OrderSize(name: Block, entries: map<Block, Entry>, keys: seq<Block>, order: seq<Block>)
    requires IsOrder(entries, keys) && IsOrder(entries, order)
    ensures |FolderBytes(name, entries, order)| == 12 + |name| + |EntriesBytes(entries, keys)|
  {
    DistinctAre(entries.Keys, keys);
    DistinctAre(entries.Keys, order);
    SameSize(entries, keys, order);
  }

  class Folder {
    var name: Block
    var entries: map<Block, Entry>

    constructor (name: Block, entries: map<Block, Entry>)
      ensures this.name == name && this.entries == entries
    {
      this.name, this.entries := name, entries;
    }

    method Serialize(stream: OutputStream) returns (ghost order: seq<Block>)
      requires stream.Valid()
      modifies stream
      ensures stream.Valid() && IsOrder(entries, order)
      ensures stream.Contents() == old(stream.Contents()) + FolderBytes(name, entries, order)
    {
      hide Counted, BigEndian, NamedEntry, EntriesBytes;
      var keys := ListKeys(entries);
      ghost var start := stream.Contents();
      stream.WriteUInt(4, MAGIC_HEADER);
      stream.WriteString(name);
      stream.WriteUInt(4, |entries|);
      Regroup(start, BigEndian(4, MAGIC_HEADER), Counted(name), BigEndian(4, |keys|));
      WriteEntries(stream, entries, keys);
      order := keys;
    }

    /** GetSerializedSize: the bytes of the folder, in whatever order its entries are listed. */
    method SerializedSize() returns (size: nat)
      ensures forall order :: IsOrder(entries, order) ==> size == |FolderBytes(name, entries, order)|
    {
      hide FolderBytes;
      var keys := ListKeys(entries);
      size := 4 + (4 + |name|) + 4;
      var more := EntriesSize(entries, keys);
      size := size + more;
      forall order | IsOrder(entries, order) ensures size == |FolderBytes(name, entries, order)| {
        OrderSize(name, entries, keys, order);
      }
    }

    /** Reads a folder over this one: what is here already stays. The ghosts name the folder written, if one was. */
    method Deserialize(stream: InputStream, ghost name0: Block, ghost entries0: map<Block, Entry>,
                       ghost order: seq<Block>) returns (ok: bool)
      requires stream.Valid()
      modifies this, stream
      ensures stream.Valid() && old(stream.offset) <= stream.offset
      ensures old(stream.isValid) && FolderAt(stream.data, old(stream.offset), name0, entries0, order) ==>
                && ok && name == (if name0 == [] then old(name) else name0) && entries == entries0 + old(entries)
                && stream.offset == old(stream.offset) + |FolderBytes(name0, entries0, order)|
    {
      hide Counted, BigEndian, EntriesBytes, FolderBytes, EntriesAt, FolderAt, IsOrder, At;
      ghost var good := stream.isValid && FolderAt(stream.data, stream.offset, name0, entries0, order);
      ghost var keys: seq<Block> := [];
      if good {
        FolderParts(stream.data, stream.offset, name0, entries0, order);
        keys := order;
      }
      if stream.Remainder() < 4 {
        return false;
      }
      var magic := stream.ReadUInt(4, MAGIC_HEADER);
      if magic != MAGIC_HEADER || stream.Remainder() < 4 {
        return false;
      }
      name := stream.ReadString(name, name0);
      if stream.Remainder() < 4 {
        return false;
      }
      var count := stream.ReadUInt(4, |keys|);
      ok := ReadEntries(stream, count, entries0, keys);
    }

    method ReadEntries(stream: InputStream, count: nat, ghost entries0: map<Block, Entry>, ghost order: seq<Block>)
      returns (ok: bool)
      requires stream.Valid()
      modifies this`entries, stream
      ensures stream.Valid() && old(stream.offset) <= stream.offset
      ensures old(stream.isValid) && count == |order| && EntriesAt(stream.data, old(stream.offset), entries0, order) ==>
                ok && entries == entries0 + old(entries)
                && stream.offset == old(stream.offset) + |EntriesBytes(entries0, order)|
    {
      hide EntriesBytes, Counted, EntryBytes, Chosen, At, EntriesAt, EntriesLeft, EntryAt;
      ghost var good := stream.isValid && count == |order| && EntriesAt(stream.data, stream.offset, entries0, order);
      ghost var end, before, seen := stream.offset, entries, {};
      if good {
        end := FirstEntry(stream.data, stream.offset, entries0, order, before);
      }
      for i := 0 to count
        invariant stream.Valid() && old(stream.offset) <= stream.offset
        invariant good ==> stream.isValid && EntriesLeft(stream.data, stream.offset, end, entries0, order, seen, i)
        invariant good ==> entries == Chosen(entries0, seen) + before
      {
        ghost var k, e := [], Entry([], 0, 0, 0, 0, Metadata(0, 0, []));
        if good {
          k, e := NextEntry(stream.data, stream.offset, end, entries0, order, seen, i);
          Emplaced(entries0, seen, k, before);
        }
        var key, entry;
        ok, key, entry := ReadEntry(stream, k, e);
        if !ok {
          return;
        }
        if key !in entries {
          entries := entries[key := entry];
        }
        seen := seen + {k};
      }
      ok := true;
      if good {
        LastEntry(stream.data, stream.offset, end, entries0, order, seen);
      }
    }
  }

  method ReadEntry(stream: InputStream, ghost k: Block, ghost e: Entry) returns (ok: bool, key: Block, entry: Entry)
    requires stream.Valid()
    modifies stream
    ensures stream.Valid() && old(stream.offset) <= stream.offset
    ensures old(stream.isValid) && EntryAt(stream.data, old(stream.offset), k, e) ==>
              ok && key == k && entry == e && stream.isValid
              && stream.offset == old(stream.offset) + |Counted(k)| + |EntryBytes(e)|
  {
    hide EntryBytes, EntryFits;
    key, entry := [], Entry([], 0, 0, 0, 0, Metadata(0, 0, []));
    if stream.Remainder() < 4 {
      return false, key, entry;
    }
    key := stream.ReadString([], k);
    ok, entry := DeserializeEntry(stream, e);
  }

  ghost predicate EntryAt(data: Block, p: nat, k: Block, e: Entry) {
    Short(k) && EntryFits(e) && At(data, p, Counted(k)) && At(data, p + |Counted(k)|, EntryBytes(e))
  }

  /** The bytes of the entries lie at the position. */
  ghost predicate EntriesAt(data: Block, p: nat, entries: map<Block, Entry>, order: seq<Block>) {
    EntriesFit(entries) && IsOrder(entries, order) && At(data, p, EntriesBytes(entries, order))
  }

  /** So do those of the folder. */
  ghost predicate FolderAt(data: Block, p: nat, name: Block, entries: map<Block, Entry>, order: seq<Block>) {
    Short(name) && EntriesFit(entries) && IsOrder(entries, order) && At(data, p, FolderBytes(name, entries, order))
  }

  /** The entries seen are those before this index, and the bytes of the others lie between p and the end. */
  ghost predicate EntriesLeft(data: Block, p: nat, end: nat, entries: map<Block, Entry>, order: seq<Block>,
                              seen: set<Block>, i: nat) {
    && EntriesFit(entries) && IsOrder(entries, order) && i <= |order|
    && (forall k :: k in seen <==> k in order[..i])
    && At(data, p, EntriesBytes(entries, order[i..])) && p + |EntriesBytes(entries, order[i..])| == end
  }

  lemma FirstEntry(data: Block, p: nat, entries: map<Block, Entry>, order: seq<Block>, before: map<Block, Entry>)
    returns (end: nat)
    requires EntriesAt(data, p, entries, order)
    ensures EntriesLeft(data, p, end, entries, order, {}, 0) && Chosen(entries, {}) + before == before
    ensures Keys(entries, order) && end == p + |EntriesBytes(entries, order)|
  {
    assert order[0..] == order;
    end := p + |EntriesBytes(entries, order)|;
  }

  lemma NextEntry(data: Block, p: nat, end: nat, entries: map<Block, Entry>, order: seq<Block>, seen: set<Block>,
                  i: nat)
    returns (k: Block, e: Entry)
    requires EntriesLeft(data, p, end, entries, order, seen, i) && i < |order|
    ensures k in entries && k !in seen && e == entries[k] && EntryAt(data, p, k, e)
    ensures EntriesLeft(data, p + |Counted(k)| + |EntryBytes(e)|, end, entries, order, seen + {k}, i + 1)
  {
    hide EntryBytes, EntryFits;
    k, e := order[i], entries[order[i]];
    assert order[i..][1..] == order[i + 1..];
    AtParts(data, p, NamedEntry(k, e), EntriesBytes(entries, order[i + 1..]));
    AtParts(data, p, Counted(k), EntryBytes(e));
    assert order[..i + 1] == order[..i] + [k];
  }

  lemma LastEntry(data: Block, p: nat, end: nat, entries: map<Block, Entry>, order: seq<Block>, seen: set<Block>)
    requires EntriesLeft(data, p, end, entries, order, seen, |order|)
    ensures p == end && Chosen(entries, seen) == entries
  {
    assert order[..|order|] == order;
  }

  /** The entries with these keys. */
  ghost function Chosen(entries: map<Block, Entry>, keys: set<Block>): map<Block, Entry> {
    map k | k in entries && k in keys :: entries[k]
  }

  /** Emplacing another entry: it does not replace one that is there. */
  lemma Emplaced(entries: map<Block, Entry>, seen: set<Block>, k: Block, before: map<Block, Entry>)
    requires k in entries && k !in seen
    ensures var now := Chosen(entries, seen) + before;
            Chosen(entries, seen + {k}) + before == if k in now then now else now[k := entries[k]]
  {
  }

  lemma FolderParts(data: Block, p: nat, name: Block, entries: map<Block, Entry>, order: seq<Block>)
    requires FolderAt(data, p, name, entries, order)
    ensures Keys(entries, order) && |order| < Limit(4) && |name| < Limit(4) && MAGIC_HEADER < Limit(4)
    ensures p + 12 <= |data| && At(data, p, BigEndian(4, MAGIC_HEADER)) && At(data, p + 4, Counted(name))
    ensures var q := p + 4 + |Counted(name)|;
            && q + 4 <= |data| && At(data, q, BigEndian(4, |order|)) && EntriesAt(data, q + 4, entries, order)
            && |FolderBytes(name, entries, order)| == 8 + |Counted(name)| + |EntriesBytes(entries, order)|
  {
    hide EntriesBytes, BigEndian;
    var head := Counted(name) + BigEndian(4, |order|);
    AtParts(data, p, BigEndian(4, MAGIC_HEADER) + head, EntriesBytes(entries, order));
    AtParts(data, p, BigEndian(4, MAGIC_HEADER), head);
    AtParts(data, p + 4, Counted(name), BigEndian(4, |order|));
    assert Limit(4) == 256 * 256 * 256 * 256;
  }

  /** A folder written and read back into a new one, whatever follows it in the blob. */
  method RoundTrip(folder: Folder, padding: Block) returns (ok: bool, copy: Folder)
    requires Short(folder.name) && EntriesFit(folder.entries)
    ensures ok && copy.name == folder.name && copy.entries == folder.entries
  {
    hide FolderBytes, EntriesFit;
    var output := new OutputStream();
    ghost var order := folder.Serialize(output);
    var data := output.buffer[..output.offset];
    var input := new InputStream(data + padding);
    assert At(data + padding, 0, data) && data == FolderBytes(folder.name, folder.entries, order);
    copy := new Folder([], map[]);
    ok := copy.Deserialize(input, folder.name, folder.entries, order);
  }
}
