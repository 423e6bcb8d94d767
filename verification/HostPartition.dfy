/**
  The host's sparse partition: block files created on first write, behind a bit map that every
  request reads anew from its file. Served one request at a time, it is an array of blocks that
  starts out as zeros. File operations of the host succeed.
 */
module HostPartition {
  import opened Options
  import opened RowFile
  import opened BitSet

  function Zeros(n: nat): Block { seq(n, _ => 0) }

  /** The contents of a file after writing at a position, which may lie at or beyond its end. */
  function Written(file: Block, position: nat, data: Block): Block {
    if data == [] then file
    else if position + |data| <= |file| then Overlay(file, position, data)
    else if position <= |file| then file[..position] + data
    else file + Zeros(position - |file|) + data
  }

  lemma WrittenHolds(file: Block, position: nat, data: Block)
    requires data != []
    ensures position + |data| <= |Written(file, position, data)|
    ensures Written(file, position, data)[position..position + |data|] == data
  {
  }

  lemma WrittenInside(file: Block, position: nat, data: Block, size: nat)
    requires position + |data| <= size <= |file|
    ensures |Written(file, position, data)| == |file|
    ensures Written(file, position, data)[..size] == Overlay(file[..size], position, data)
  {
    assert Written(file, position, data) == Overlay(file, position, data);
  }

  /** The word that references past the end of any bit set share. */
  class Trash {
    var bits: Word
  }

  /** The directory of a partition: its block files and its map file. */
  class Directory {
    var blocks: map<nat, Block>
    var saved: Option<seq<Octet>>

    constructor ()
      ensures blocks == map[] && saved == None
    {
      blocks, saved := map[], None;
    }

    predicate Marked(i: nat)
      reads this
    {
      saved.Some? && FileBit(saved.value, i)
    }

    /** The map file is whole, and every marked block has a file at least a block long. */
    ghost predicate Valid(blockCount: nat, blockSize: nat)
      reads this
    {
      && (saved.Some? ==> |saved.value| == FileSize(blockCount))
      && (forall i :: 0 <= i < blockCount && Marked(i) ==> i in blocks && |blocks[i]| >= blockSize)
    }

    /** The partition as its users see it. */
    ghost function Contents(blockCount: nat, blockSize: nat): (r: seq<Block>)
      requires Valid(blockCount, blockSize)
      reads this
      ensures |r| == blockCount && forall i :: 0 <= i < |r| ==> |r[i]| == blockSize
    {
      seq(blockCount, i requires 0 <= i < blockCount && Valid(blockCount, blockSize) reads this =>
        if Marked(i) then blocks[i][..blockSize] else Zeros(blockSize))
    }
  }

  class Partition {
    const directory: Directory
    const trash: Trash
    const blockCount: nat
    const blockSize: nat
    const bits: BitSet

    /** The map in memory is the one on file. */
    ghost predicate Valid()
      reads directory, bits.buffer
    {
      && bits.Valid() && bits.size == blockCount && directory.Valid(blockCount, blockSize)
      && forall i :: 0 <= i < blockCount ==> bits.Flags()[i] == directory.Marked(i)
    }

    ghost function Contents(): seq<Block>
      requires directory.Valid(blockCount, blockSize)
      reads directory
    {
      directory.Contents(blockCount, blockSize)
    }

    constructor (directory: Directory, trash: Trash, blockCount: nat, blockSize: nat)
      requires directory.Valid(blockCount, blockSize)
      ensures Valid() && this.directory == directory && this.trash == trash && fresh(bits) && fresh(bits.buffer)
      ensures this.blockCount == blockCount && this.blockSize == blockSize
    {
      this.directory, this.trash, this.blockCount, this.blockSize := directory, trash, blockCount, blockSize;
      var marks := new BitSet(blockCount);
      if directory.saved.Some? {
        marks.ReadFrom(directory.saved.value, _ => ZERO);
      }
      bits := marks;
    }

    /** partitionMap[index], read through a reference. */
    method Mark(index: nat) returns (value: bool)
      requires bits.Valid() && bits.size == blockCount
      ensures value == if index < blockCount then bits.Flags()[index] else trash.bits[index % 64]
    {
      if index < blockCount {
        value := bits.Get(index);
      } else {
        MaskBit(trash.bits, index % 64);
        value := And(trash.bits, ShiftLeft(ONE, 63 - index % 64)) != ZERO;
      }
    }

    /** partitionMap[index] = true, through a reference. */
    method SetMark(index: nat)
      requires bits.Valid() && bits.size == blockCount
      modifies bits.buffer, trash
      ensures bits.Flags() == if index < blockCount then old(bits.Flags())[index := true] else old(bits.Flags())
      ensures trash.bits == if index < blockCount then old(trash.bits) else old(trash.bits)[index % 64 := true]
    {
      if index < blockCount {
        bits.Set(index, true);
      } else {
        MaskBit(trash.bits, index % 64);
        trash.bits := Or(trash.bits, ShiftLeft(ONE, 63 - index % 64));
      }
    }

    method FlushMap()
      requires bits.Valid() && bits.size == blockCount
      modifies directory`saved
      ensures directory.saved.Some? && |directory.saved.value| == FileSize(blockCount)
      ensures forall i :: 0 <= i < blockCount ==> directory.Marked(i) == bits.Flags()[i]
    {
      var file := bits.WriteTo();
      directory.saved := Some(file);
    }

    /** Zeroes the first blockSize bytes of the block's file, 4096 at a time; what lies behind them stays. */
    method ZeroFile(index: nat)
      modifies directory`blocks
      ensures directory.blocks.Keys == old(directory.blocks).Keys + {index}
      ensures forall i :: i in old(directory.blocks) && i != index ==> directory.blocks[i] == old(directory.blocks)[i]
      ensures |directory.blocks[index]| >= blockSize && directory.blocks[index][..blockSize] == Zeros(blockSize)
    {
      var file := if index in directory.blocks then directory.blocks[index] else [];
      var remaining := blockSize;
      while remaining > 0
        invariant remaining <= blockSize
        invariant |file| >= blockSize - remaining && file[..blockSize - remaining] == Zeros(blockSize - remaining)
      {
        var toWrite := if remaining > 4096 then 4096 else remaining;
        file := Written(file, blockSize - remaining, Zeros(toWrite));
        remaining := remaining - toWrite;
      }
      directory.blocks := directory.blocks[index := file];
    }

    /** Creates the file of a block and marks it. Nobody sees a difference. */
    method InitBlock(index: nat)
      requires Valid() && (index < blockCount ==> !directory.Marked(index))
      modifies directory, bits.buffer, trash
      ensures Valid() && Contents() == old(Contents())
      ensures index in directory.blocks && |directory.blocks[index]| >= blockSize
      ensures index < blockCount ==> directory.Marked(index)
      ensures trash.bits == if index < blockCount then old(trash.bits) else old(trash.bits)[index % 64 := true]
    {
      ZeroFile(index);
      SetMark(index);
      FlushMap();
    }

    /**
      Part of a block. One index too many is let through: it is marked in the word shared by all partitions, and
      reads a file of its own, if there is one.
     */
    method ReadBlock(index: nat, size: nat, offset: nat) returns (ok: bool, data: Block)
      requires Valid()
      ensures index > blockCount || offset + size > blockSize ==> !ok
      ensures index < blockCount && offset + size <= blockSize ==>
                ok && data == Contents()[index][offset..offset + size]
      ensures index == blockCount && offset + size <= blockSize ==>
                if !trash.bits[index % 64] then ok && data == Zeros(size)
                else (ok <==> index in directory.blocks)
                     && (ok && offset + size <= |directory.blocks[index]| ==>
                           data == directory.blocks[index][offset..offset + size])
    {
      data := Zeros(size);
      if index > blockCount || offset > blockSize || size > blockSize || offset + size > blockSize {
        return false, data;
      }
      var marked := Mark(index);
      if marked {
        if index !in directory.blocks {
          return false, data;
        }
        var file := directory.blocks[index];
        if offset + size <= |file| {
          data := file[offset..offset + size];
        }
      }
      ok := true;
    }

    /** Overwrites part of a block's file. */
    method StoreFile(index: nat, data: Block, offset: nat)
      requires Valid() && index <= blockCount && offset + |data| <= blockSize
      requires index < blockCount ==> directory.Marked(index)
      modifies directory`blocks
      ensures Valid()
      ensures Contents() ==
                if index < blockCount then old(Contents())[index := Overlay(old(Contents())[index], offset, data)]
                            else old(Contents())
      ensures data != [] ==> index in directory.blocks && offset + |data| <= |directory.blocks[index]|
                             && directory.blocks[index][offset..offset + |data|] == data
    {
      var file := if index in directory.blocks then directory.blocks[index] else [];
      if data != [] {
        WrittenHolds(file, offset, data);
      }
      if index < blockCount {
        WrittenInside(file, offset, data, blockSize);
      }
      hide Written, Overlay;
      directory.blocks := directory.blocks[index := Written(file, offset, data)];
    }

    /** Overwrites part of a block, creating it first if need be. One index too many is let through here, too. */
    method WriteBlock(index: nat, data: Block, offset: nat) returns (ok: bool)
      requires Valid()
      modifies directory, bits.buffer, trash
      ensures Valid()
      ensures ok <==> index <= blockCount && offset + |data| <= blockSize
      ensures Contents() == if ok && index < blockCount
                            then old(Contents())[index := Overlay(old(Contents())[index], offset, data)]
                            else old(Contents())
      ensures trash.bits == if ok && index == blockCount then old(trash.bits)[index % 64 := true] else old(trash.bits)
      ensures ok && data != [] ==> index in directory.blocks && offset + |data| <= |directory.blocks[index]|
                                   && directory.blocks[index][offset..offset + |data|] == data
    {
      if index > blockCount || offset > blockSize || |data| > blockSize || offset + |data| > blockSize {
        return false;
      }
      var marked := Mark(index);
      if !marked {
        InitBlock(index);
      }
      StoreFile(index, data, offset);
      ok := true;
    }
  }

  /** One index too many is a block like the others: what is written there is read back. */
  method ExtraBlock(p: Partition, data: Block) returns (ok: bool, got: Block)
    requires p.Valid() && data != [] && |data| <= p.blockSize
    modifies p.directory, p.bits.buffer, p.trash
    ensures ok && got == data && p.Valid() && p.Contents() == old(p.Contents())
  {
    ok := p.WriteBlock(p.blockCount, data, 0);
    ok, got := p.ReadBlock(p.blockCount, |data|, 0);
  }

  // ---- Requests ----

  datatype Request = Read(block: nat, size: nat, offset: nat) | Write(block: nat, data: Block, offset: nat)

  datatype Reply = Refused | Sent(data: Block) | Stored

  /** What an array of blocks answers, and what becomes of it. */
  function Answer(blocks: seq<Block>, blockSize: nat, request: Request): Reply
    requires forall i :: 0 <= i < |blocks| ==> |blocks[i]| == blockSize
  {
    match request
    case Read(block, size, offset) =>
      if block < |blocks| && offset < blockSize && offset + size <= blockSize
      then Sent(blocks[block][offset..offset + size])
      else Refused
    case Write(block, data, offset) =>
      if block < |blocks| && data != [] && offset + |data| <= blockSize then Stored else Refused
  }

  function Next(blocks: seq<Block>, blockSize: nat, request: Request): (r: seq<Block>)
    requires forall i :: 0 <= i < |blocks| ==> |blocks[i]| == blockSize
    ensures |r| == |blocks| && forall i :: 0 <= i < |r| ==> |r[i]| == blockSize
  {
    if Answer(blocks, blockSize, request) == Stored
    then blocks[request.block := Overlay(blocks[request.block], request.offset, request.data)] else blocks
  }

  function Answers(blocks: seq<Block>, blockSize: nat, requests: seq<Request>): (r: seq<Reply>)
    requires forall i :: 0 <= i < |blocks| ==> |blocks[i]| == blockSize
    ensures |r| == |requests|
    decreases |requests|
  {
    if requests == [] then []
    else [Answer(blocks, blockSize, requests[0])] + Answers(Next(blocks, blockSize, requests[0]), blockSize,
                                                            requests[1..])
  }

  /** One request, for which the partition is opened and its map read anew. */
  method Handle(directory: Directory, trash: Trash, blockCount: nat, blockSize: nat, request: Request)
    returns (reply: Reply)
    requires directory.Valid(blockCount, blockSize)
    modifies directory, trash
    ensures directory.Valid(blockCount, blockSize) && trash.bits == old(trash.bits)
    ensures reply == Answer(old(directory.Contents(blockCount, blockSize)), blockSize, request)
    ensures directory.Contents(blockCount, blockSize) ==
              Next(old(directory.Contents(blockCount, blockSize)), blockSize, request)
  {
    match request {
      case Read(block, size, offset) =>
        if block >= blockCount || offset >= blockSize || size > blockSize - offset {
          return Refused;
        }
        var partition := new Partition(directory, trash, blockCount, blockSize);
        var ok, data := partition.ReadBlock(block, size, offset);
        reply := if ok then Sent(data) else Refused;
      case Write(block, data, offset) =>
        if block >= blockCount || offset >= blockSize || |data| == 0 {
          return Refused;
        }
        var partition := new Partition(directory, trash, blockCount, blockSize);
        var ok := partition.WriteBlock(block, data, offset);
        reply := if ok then Stored else Refused;
    }
  }

  /** Any run of requests on a new partition is answered as an array of zeroed blocks would. */
  method Serve(blockCount: nat, blockSize: nat, trash: Trash, requests: seq<Request>) returns (replies: seq<Reply>)
    modifies trash
    ensures replies == Answers(seq(blockCount, _ => Zeros(blockSize)), blockSize, requests)
  {
    var directory := new Directory();
    ghost var blocks := directory.Contents(blockCount, blockSize);
    assert blocks == seq(blockCount, _ => Zeros(blockSize));
    replies := [];
    for i := 0 to |requests|
      invariant directory.Valid(blockCount, blockSize) && fresh(directory)
      invariant blocks == directory.Contents(blockCount, blockSize)
      invariant Answers(seq(blockCount, _ => Zeros(blockSize)), blockSize, requests) ==
                  replies + Answers(blocks, blockSize, requests[i..])
    {
      var reply := Handle(directory, trash, blockCount, blockSize, requests[i]);
      assert requests[i..][1..] == requests[i + 1..];
      replies := replies + [reply];
      blocks := directory.Contents(blockCount, blockSize);
    }
  }
}
