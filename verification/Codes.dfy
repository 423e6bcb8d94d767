/**
  The cipher and the erasure code of a volume, by their laws, and what follows from the laws.
 */
module Codes {
  import opened Options
  import opened RowFile

  /** A bijection on blocks for each initialisation vector. */
  datatype Cipher = Cipher(encrypt: (nat, Block) -> Block, decrypt: (nat, Block) -> Block) {
    ghost predicate Lawful(blockSize: nat) {
      && (forall iv, b :: |b| == blockSize ==> |encrypt(iv, b)| == blockSize && decrypt(iv, encrypt(iv, b)) == b)
      && (forall iv, b :: |b| == blockSize ==> |decrypt(iv, b)| == blockSize && encrypt(iv, decrypt(iv, b)) == b)
    }
  }

  /** A coded block: its index in the codeword, and its contents. */
  datatype Piece = Piece(index: nat, block: Block)

  datatype Codec = Codec(encode: seq<Block> -> seq<Block>, decode: seq<Piece> -> Option<seq<Block>>) {
    ghost predicate Lawful(dataCount: nat, codeCount: nat, blockSize: nat) {
      && (forall d :: |d| == dataCount ==> |encode(d)| == codeCount)
      && (forall d, j :: |d| == dataCount && Sized(d, blockSize) && 0 <= j < codeCount && |encode(d)| == codeCount ==>
            |encode(d)[j]| == blockSize)
      && (forall d, ps :: |d| == dataCount && Sized(d, blockSize) && Represents(d, ps) ==> decode(ps) == Some(d))
      && (forall ps :: |ps| == dataCount && decode(ps).Some? ==>
            |decode(ps).value| == dataCount && Sized(decode(ps).value, blockSize))
    }

    /** The pieces are the data blocks in their places, with distinct code blocks in the other places. */
    ghost predicate Represents(d: seq<Block>, ps: seq<Piece>) {
      && |ps| == |d|
      && (forall i :: 0 <= i < |ps| ==> ps[i] == Piece(i, d[i]) || IsCodePiece(d, ps[i]))
      && (forall i, j :: 0 <= i < j < |ps| ==> ps[i].index != ps[j].index)
    }

    ghost predicate IsCodePiece(d: seq<Block>, p: Piece) {
      |d| <= p.index < |d| + |encode(d)| && p.block == encode(d)[p.index - |d|]
    }

    /** Data that differ in no more columns than there are code blocks have different code blocks. */
    lemma SameCode(d: seq<Block>, z: seq<Block>, columns: set<nat>, codeCount: nat, blockSize: nat)
      requires Lawful(|d|, codeCount, blockSize) && Sized(d, blockSize) && Sized(z, blockSize) && |z| == |d|
      requires |columns| <= codeCount && forall i :: 0 <= i < |d| && i !in columns ==> z[i] == d[i]
      requires encode(z) == encode(d)
      ensures z == d
    {
      var ps := Substituted(d, columns, encode(d));
      forall i, j | 0 <= i < j < |d| ensures ps[i].index != ps[j].index {
        if i in columns && j in columns {
          RankGrows(columns, i, j);
        }
      }
      forall i | 0 <= i < |d| && i in columns ensures Rank(columns, i) < |encode(d)| {
        RankBound(columns, i);
      }
      assert Represents(d, ps) && Represents(z, ps);
    }
  }

  predicate Sized(blocks: seq<Block>, blockSize: nat) {
    forall i :: 0 <= i < |blocks| ==> |blocks[i]| == blockSize
  }

  // ---- Substituting code blocks for data blocks ----

  /** How many of the columns are before this one. */
  ghost function Rank(columns: set<nat>, i: nat): nat { |set j | j in columns && j < i| }

  lemma RankBound(columns: set<nat>, i: nat)
    requires i in columns
    ensures Rank(columns, i) < |columns|
  {
    Subset((set j | j in columns && j < i) + {i}, columns);
  }

  lemma RankGrows(columns: set<nat>, i: nat, j: nat)
    requires i in columns && i < j
    ensures Rank(columns, i) < Rank(columns, j)
  {
    Subset((set k | k in columns && k < i) + {i}, set k | k in columns && k < j);
  }

  lemma {:induction false} Subset(a: set<nat>, b: set<nat>)
    requires a <= b
    ensures |a| <= |b|
  {
    if a != {} {
      var x :| x in a;
      Subset(a - {x}, b - {x});
    }
  }

  /** The data with the given columns replaced by code blocks, in order. */
  ghost function Substituted(d: seq<Block>, columns: set<nat>, code: seq<Block>): (ps: seq<Piece>)
    ensures |ps| == |d|
  {
    seq(|d|, i requires 0 <= i < |d| =>
      if i !in columns || Rank(columns, i) >= |code| then Piece(i, d[i])
      else Piece(|d| + Rank(columns, i), code[Rank(columns, i)]))
  }

  // ---- A code: parity by exclusive or ----

  function XorBits(a: nat, b: nat, n: nat): nat {
    if n == 0 then 0 else 2 * XorBits(a / 2, b / 2, n - 1) + (a + b) % 2
  }

  function Power(n: nat): nat { if n == 0 then 1 else 2 * Power(n - 1) }

  lemma XorStep(a: nat, b: nat, n: nat)
    requires n > 0
    ensures XorBits(a, b, n) / 2 == XorBits(a / 2, b / 2, n - 1) && XorBits(a, b, n) % 2 == (a + b) % 2
  {
  }

  lemma {:induction false} XorBound(a: nat, b: nat, n: nat)
    ensures XorBits(a, b, n) < Power(n) && XorBits(a, b, n) == XorBits(b, a, n)
    decreases n
  {
    if n > 0 {
      XorBound(a / 2, b / 2, n - 1);
    }
  }

  lemma {:induction false} XorUndoes(a: nat, n: nat)
    ensures XorBits(a, a, n) == 0
    ensures a < Power(n) ==> XorBits(a, 0, n) == a
    decreases n
  {
    if n > 0 {
      XorUndoes(a / 2, n - 1);
    }
  }

  lemma {:induction false} XorGroups(a: nat, b: nat, c: nat, n: nat)
    ensures XorBits(XorBits(a, b, n), c, n) == XorBits(a, XorBits(b, c, n), n)
    decreases n
  {
    if n > 0 {
      var p, q := XorBits(a, b, n), XorBits(b, c, n);
      assert XorBits(p, c, n) == 2 * XorBits(p / 2, c / 2, n - 1) + (p + c) % 2;
      assert XorBits(a, q, n) == 2 * XorBits(a / 2, q / 2, n - 1) + (a + q) % 2;
      XorGroups(a / 2, b / 2, c / 2, n - 1);
      XorStep(a, b, n);
      XorStep(b, c, n);
      hide XorBits;
      SameParity(p, q, a, b, c);
    }
  }

  lemma SameParity(p: nat, q: nat, a: nat, b: nat, c: nat)
    requires p % 2 == (a + b) % 2 && q % 2 == (b + c) % 2
    ensures (p + c) % 2 == (a + q) % 2
  {
  }

  lemma PowerEight()
    ensures Power(8) == 256
  {
    assert Power(4) == 16;
  }

  function Xor(a: byte, b: byte): byte {
    XorBound(a as nat, b as nat, 8);
    PowerEight();
    XorBits(a as nat, b as nat, 8) as byte
  }

  lemma XorLaws(a: byte, b: byte, c: byte)
    ensures Xor(a, b) == Xor(b, a) && Xor(Xor(a, b), c) == Xor(a, Xor(b, c)) && Xor(a, a) == 0 && Xor(a, 0) == a
  {
    XorBound(a as nat, b as nat, 8);
    XorGroups(a as nat, b as nat, c as nat, 8);
    XorUndoes(a as nat, 8);
    PowerEight();
  }

  /** The exclusive or of the bytes at a place of the blocks. */
  function XorAt(blocks: seq<Block>, k: nat): byte {
    if blocks == [] then 0
    else
      var last := blocks[|blocks| - 1];
      Xor(XorAt(blocks[..|blocks| - 1], k), if k < |last| then last[k] else 0)
  }

  function XorAll(blocks: seq<Block>, blockSize: nat): (r: Block)
    ensures |r| == blockSize && forall k :: 0 <= k < blockSize ==> r[k] == XorAt(blocks, k)
  {
    seq(blockSize, k requires 0 <= k < blockSize => XorAt(blocks, k))
  }

  /** Putting the exclusive or of all blocks in the place of one makes the exclusive or that one. */
  lemma {:induction false} XorReplaced(blocks: seq<Block>, i: nat, x: Block, k: nat)
    requires i < |blocks| && k < |blocks[i]| && k < |x|
    ensures XorAt(blocks[i := x], k) == Xor(Xor(XorAt(blocks, k), blocks[i][k]), x[k])
    decreases |blocks|
  {
    var n := |blocks| - 1;
    var rest, y := XorAt(blocks[..n], k), if k < |blocks[n]| then blocks[n][k] else 0;
    if i == n {
      assert blocks[i := x][..n] == blocks[..n];
      XorLaws(rest, y, y);
      XorLaws(y, y, y);
      XorLaws(rest, 0, 0);
    } else {
      assert blocks[i := x][..n] == blocks[..n][i := x];
      XorReplaced(blocks[..n], i, x, k);
      Shuffle(rest, blocks[i][k], x[k], y);
    }
  }

  lemma Shuffle(a: byte, b: byte, c: byte, d: byte)
    ensures Xor(Xor(Xor(a, b), c), d) == Xor(Xor(Xor(a, d), b), c)
  {
    hide Xor;
    XorLaws(Xor(a, b), c, d);
    XorLaws(c, d, 0);
    XorLaws(Xor(a, b), d, c);
    XorLaws(a, b, d);
    XorLaws(b, d, 0);
    XorLaws(a, d, b);
  }

  /** Where the code block is among the pieces, or past the end. */
  function CodePlace(ps: seq<Piece>, n: nat): (i: nat)
    ensures i <= |ps| && (i < |ps| ==> ps[i].index == n) && forall j :: 0 <= j < i ==> ps[j].index != n
  {
    if ps == [] || ps[0].index == n then 0 else CodePlace(ps[1..], n) + 1
  }

  function BlocksOf(pieces: seq<Piece>): (r: seq<Block>)
    ensures |r| == |pieces| && forall i :: 0 <= i < |r| ==> r[i] == pieces[i].block
  {
    seq(|pieces|, i requires 0 <= i < |pieces| => pieces[i].block)
  }

  function XorDecode(ps: seq<Piece>, dataCount: nat, blockSize: nat): Option<seq<Block>> {
    var blocks, i := BlocksOf(ps), CodePlace(ps, dataCount);
    if |ps| != dataCount || !Sized(blocks, blockSize) then None
    else if i == |ps| then Some(blocks)
    else Some(blocks[i := XorAll(blocks, blockSize)])
  }

  lemma XorDecodes(d: seq<Block>, ps: seq<Piece>, blockSize: nat)
    requires Sized(d, blockSize) && |ps| == |d|
    requires forall i :: 0 <= i < |ps| ==> ps[i] == Piece(i, d[i]) || ps[i] == Piece(|d|, XorAll(d, blockSize))
    requires forall i, j :: 0 <= i < j < |ps| ==> ps[i].index != ps[j].index
    ensures XorDecode(ps, |d|, blockSize) == Some(d)
  {
    var blocks, i, x := BlocksOf(ps), CodePlace(ps, |d|), XorAll(d, blockSize);
    if i == |ps| {
      assert blocks == d;
    } else {
      assert blocks == d[i := x];
      forall k | 0 <= k < blockSize ensures XorAt(blocks, k) == d[i][k] {
        XorReplaced(d, i, x, k);
        var a, b := XorAt(d, k), d[i][k];
        XorLaws(a, b, a);
        XorLaws(b, a, a);
        XorLaws(a, a, b);
        XorLaws(b, 0, 0);
      }
      assert XorAll(blocks, blockSize) == d[i] && blocks[i := d[i]] == d;
    }
  }

  function NoCipher(): Cipher { Cipher((iv, b) => b, (iv, b) => b) }

  function XorCodec(dataCount: nat, blockSize: nat): Codec {
    Codec(d => [XorAll(d, blockSize)], ps => XorDecode(ps, dataCount, blockSize))
  }

  /** There are lawful ciphers, and lawful codes for any number of data columns: no encryption, and one parity block. */
  lemma LawfulExists(dataCount: nat, blockSize: nat)
    ensures NoCipher().Lawful(blockSize) && XorCodec(dataCount, blockSize).Lawful(dataCount, 1, blockSize)
  {
    var codec := XorCodec(dataCount, blockSize);
    forall d, ps | |d| == dataCount && Sized(d, blockSize) && codec.Represents(d, ps)
      ensures codec.decode(ps) == Some(d)
    {
      forall i | 0 <= i < |ps| ensures ps[i] == Piece(i, d[i]) || ps[i] == Piece(|d|, XorAll(d, blockSize)) {
        assert ps[i] == Piece(i, d[i]) || codec.IsCodePiece(d, ps[i]);
      }
      XorDecodes(d, ps, blockSize);
    }
  }
}
