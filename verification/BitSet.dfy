/**
  The host's bit set: an array of 64-bit words in which bit 0 is the top one, and its file form,
  big-endian words of which the last one is cut after the last byte in use.

  A machine word is the sequence of its 64 bits, the most significant first, with the operations
  the source uses on it.
 */
module BitSet {
  type Word = w: seq<bool> | |w| == 64 witness seq(64, _ => false)
  type Octet = b: seq<bool> | |b| == 8 witness seq(8, _ => false)

  const ZERO: Word := seq(64, _ => false)
  const ONE: Word := seq(64, i => i == 63)

  function Or(a: Word, b: Word): Word { seq(64, i requires 0 <= i < 64 => a[i] || b[i]) }
  function And(a: Word, b: Word): Word { seq(64, i requires 0 <= i < 64 => a[i] && b[i]) }
  function Not(a: Word): Word { seq(64, i requires 0 <= i < 64 => !a[i]) }
  function ShiftLeft(a: Word, n: nat): Word { seq(64, i requires 0 <= i < 64 => i + n < 64 && a[i + n]) }

  /** The bytes of a word in memory after htonll, and the word that ntohll makes of such bytes. */
  function Bytes(w: Word): (r: seq<Octet>)
    ensures |r| == 8 && forall j :: 0 <= j < 8 ==> r[j] == w[8 * j..8 * j + 8]
  {
    seq(8, j requires 0 <= j < 8 => w[8 * j..8 * j + 8])
  }

  function Join(bytes: seq<Octet>): (w: Word)
    requires |bytes| == 8
    ensures forall i :: 0 <= i < 64 ==> w[i] == bytes[i / 8][i % 8]
  {
    seq(64, i requires 0 <= i < 64 => bytes[i / 8][i % 8])
  }

  /** Bit i of a file: the bits of each byte from the top. */
  predicate FileBit(file: seq<Octet>, i: nat) {
    i / 8 < |file| && file[i / 8][i % 8]
  }

  function FileSize(size: nat): nat { (size + 7) / 8 }

  /** One shifted left by 63 - k is the mask of bit k. */
  lemma MaskBit(w: Word, k: nat)
    requires k < 64
    ensures And(w, ShiftLeft(ONE, 63 - k)) != ZERO <==> w[k]
    ensures Or(w, ShiftLeft(ONE, 63 - k)) == w[k := true]
    ensures And(w, Not(ShiftLeft(ONE, 63 - k))) == w[k := false]
  {
    var mask := ShiftLeft(ONE, 63 - k);
    assert forall i :: 0 <= i < 64 ==> (mask[i] <==> i == k);
    assert And(w, mask)[k] == w[k];
    assert !w[k] ==> And(w, mask) == ZERO;
  }

  /** The bit of a word array with this index. */
  predicate BitOf(words: seq<Word>, i: nat) {
    i / 64 < |words| && words[i / 64][i % 64]
  }

  lemma SetBitOf(words: seq<Word>, index: nat, value: bool, i: nat)
    requires index / 64 < |words|
    ensures BitOf(words[index / 64 := words[index / 64][index % 64 := value]], i) ==
              if i == index then value else BitOf(words, i)
  {
  }

  /** The first bytes of the file form of a word array. */
  function Dump(words: seq<Word>): (file: seq<Octet>)
    ensures |file| == 8 * |words|
  {
    if words == [] then [] else Dump(words[..|words| - 1]) + Bytes(words[|words| - 1])
  }

  lemma {:induction false} DumpBit(words: seq<Word>, i: nat)
    requires i < 64 * |words|
    ensures FileBit(Dump(words), i) == BitOf(words, i)
  {
    var n := |words| - 1;
    if i < 64 * n {
      DumpBit(words[..n], i);
      assert BitOf(words[..n], i) == BitOf(words, i);
    } else {
      var j := i - 64 * n;
      assert i / 64 == n && i % 64 == j && i / 8 == 8 * n + j / 8 && i % 8 == j % 8;
      assert Dump(words)[i / 8] == Bytes(words[n])[j / 8];
    }
  }

  class BitSet {
    const size: nat
    const buffer: array<Word>

    ghost predicate Valid()
    {
      buffer.Length == (size + 63) / 64
    }

    /** The set as one flag for each index. */
    ghost function Flags(): (f: seq<bool>)
      reads buffer
      ensures |f| == size
    {
      seq(size, i requires 0 <= i < size reads buffer => BitOf(buffer[..], i))
    }

    constructor (size: nat)
      ensures Valid() && fresh(buffer) && this.size == size
      ensures Flags() == seq(size, _ => false)
    {
      this.size := size;
      buffer := new Word[if size % 64 != 0 then size / 64 + 1 else size / 64](_ => ZERO);
    }

    method Get(index: nat) returns (value: bool)
      requires Valid()
      ensures value == (index < size && Flags()[index])
    {
      if index >= size {
        return false;
      }
      MaskBit(buffer[index / 64], index % 64);
      value := And(buffer[index / 64], ShiftLeft(ONE, 63 - index % 64)) != ZERO;
    }

    method Set(index: nat, value: bool)
      requires Valid()
      modifies buffer
      ensures Flags() == if index < size then old(Flags())[index := value] else old(Flags())
    {
      if index >= size {
        return;
      }
      var word, bit := index / 64, index % 64;
      MaskBit(buffer[word], bit);
      if value {
        buffer[word] := Or(buffer[word], ShiftLeft(ONE, 63 - bit));
      } else {
        buffer[word] := And(buffer[word], Not(ShiftLeft(ONE, 63 - bit)));
      }
      assert buffer[..] == old(buffer[..])[word := old(buffer[..])[word][bit := value]];
      forall i | 0 <= i < size ensures Flags()[i] == old(Flags())[index := value][i] {
        SetBitOf(old(buffer[..]), index, value, i);
      }
    }

    /** Writes the set to a file. Bit i of the file is flag i. */
    method WriteTo() returns (file: seq<Octet>)
      requires Valid()
      ensures |file| == FileSize(size)
      ensures forall i :: 0 <= i < size ==> FileBit(file, i) == Flags()[i]
    {
      var words := size / 64;
      file := [];
      for i := 0 to words
        invariant file == Dump(buffer[..i])
      {
        assert buffer[..i + 1][..i] == buffer[..i];
        file := file + Bytes(buffer[i]);
      }
      var remBits := size % 64;
      ghost var whole := file;
      if remBits != 0 {
        var remBytes := if remBits % 8 != 0 then remBits / 8 + 1 else remBits / 8;
        file := file + Bytes(buffer[words])[..remBytes];
        assert buffer[..words + 1][..words] == buffer[..words] && buffer[..words + 1] == buffer[..];
        assert file == Dump(buffer[..])[..|file|];
      } else {
        assert buffer[..words] == buffer[..] && file == Dump(buffer[..])[..|file|];
      }
      forall i | 0 <= i < size ensures FileBit(file, i) == Flags()[i] {
        DumpBit(buffer[..], i);
      }
    }

    /**
      Reads the set from a file. Flag i is bit i of the file, as far as the file has the word of it; what a read
      past its end leaves in a word is anything.
     */
    method ReadFrom(file: seq<Octet>, junk: nat -> Word)
      requires Valid()
      modifies buffer
      ensures forall i :: 0 <= i < size && WordEnd(size, i / 64) <= |file| ==> Flags()[i] == FileBit(file, i)
    {
      var words := size / 64;
      var i := 0;
      while i < words
        invariant 0 <= i <= words
        invariant forall k :: 0 <= k < 64 * i && WordEnd(size, k / 64) <= |file| ==>
                    BitOf(buffer[..], k) == FileBit(file, k)
      {
        buffer[i] := if 8 * i + 8 <= |file| then Join(file[8 * i..8 * i + 8]) else junk(i);
        forall k | 0 <= k < 64 * (i + 1) && WordEnd(size, k / 64) <= |file|
          ensures BitOf(buffer[..], k) == FileBit(file, k)
        {
          if k >= 64 * i {
            JoinedWord(file, i, k);
          }
        }
        i := i + 1;
      }
      var remBits := size % 64;
      if remBits != 0 {
        var remBytes := if remBits % 8 != 0 then remBits / 8 + 1 else remBits / 8;
        if 8 * i + remBytes <= |file| {
          var blank: Octet := seq(8, _ => false);
          var netBytes := file[8 * i..8 * i + remBytes] + seq(8 - remBytes, _ => blank);
          buffer[i] := Join(netBytes);
          forall k | 64 * i <= k < size ensures BitOf(buffer[..], k) == FileBit(file, k) {
            JoinedTail(file, i, remBytes, netBytes, k);
          }
        } else {
          buffer[i] := junk(i);
        }
      }
    }
  }

  /** How long a file has to be to hold the word with this index. */
  function WordEnd(size: nat, word: nat): nat {
    if word < size / 64 then 8 * word + 8 else FileSize(size)
  }

  lemma JoinedWord(file: seq<Octet>, i: nat, k: nat)
    requires 8 * i + 8 <= |file| && 64 * i <= k < 64 * i + 64
    ensures k / 64 == i && Join(file[8 * i..8 * i + 8])[k % 64] == FileBit(file, k)
  {
    JoinedTail(file, i, 8, file[8 * i..8 * i + 8], k);
  }

  lemma JoinedTail(file: seq<Octet>, i: nat, n: nat, bytes: seq<Octet>, k: nat)
    requires n <= 8 && 8 * i + n <= |file| && |bytes| == 8 && bytes[..n] == file[8 * i..8 * i + n]
    requires 64 * i <= k < 64 * i + 8 * n
    ensures k / 64 == i && Join(bytes)[k % 64] == FileBit(file, k)
  {
    var a, b := (k - 64 * i) / 8, k % 8;
    assert k == 64 * i + 8 * a + b;
    assert k / 8 == 8 * i + a && k % 64 == 8 * a + b;
    assert bytes[a] == bytes[..n][a] == file[8 * i + a];
  }
}
