/** Disk blocks as bytes, and the little-endian 32-bit words in them. */
module Blocks {
  import opened Wrappers

  const BSIZE: nat := 512

  /** Words in a block. */
  const WORDS: nat := 128

  type Byte = x: int | 0 <= x < 256

  type Block = b: seq<Byte> | |b| == 512 witness seq(512, _ => 0)

  type Disk = seq<Block>

  const ZERO_BLOCK: Block := seq(512, _ => 0)

  function FromLittle(bytes: seq<Byte>): nat {
    if bytes == [] then 0 else bytes[0] + 256 * FromLittle(bytes[1..])
  }

  function ToLittle(n: nat, len: nat): (bytes: seq<Byte>)
    ensures |bytes| == len
  {
    if len == 0 then [] else [n % 256] + ToLittle(n / 256, len - 1)
  }

  function Power256(len: nat): nat {
    if len == 0 then 1 else 256 * Power256(len - 1)
  }

  lemma {:induction false} FromToLittle(n: nat, len: nat)
    requires n < Power256(len)
    ensures FromLittle(ToLittle(n, len)) == n
  {
    if len > 0 {
      FromToLittle(n / 256, len - 1);
      assert ToLittle(n, len)[1..] == ToLittle(n / 256, len - 1);
    }
  }

  lemma {:induction false} FromLittleBound(bytes: seq<Byte>)
    ensures FromLittle(bytes) < Power256(|bytes|)
  {
    if bytes != [] {
      FromLittleBound(bytes[1..]);
    }
  }

  lemma FourBytes()
    ensures Power256(4) == 0x1_0000_0000
  {
    assert Power256(0) == 1 && Power256(1) == 256 && Power256(2) == 65536 && Power256(3) == 16777216;
  }

  /** Word `i` of a block. */
  function Word(b: Block, i: nat): Uint32
    requires i < WORDS
  {
    FromLittleBound(b[4 * i..4 * i + 4]);
    FourBytes();
    FromLittle(b[4 * i..4 * i + 4])
  }

  function PutWord(b: Block, i: nat, w: Uint32): Block
    requires i < WORDS
  {
    b[..4 * i] + ToLittle(w, 4) + b[4 * i + 4..]
  }

  lemma WordAfterPut(b: Block, i: nat, w: Uint32, j: nat)
    requires i < WORDS && j < WORDS
    ensures Word(PutWord(b, i, w), j) == if i == j then w else Word(b, j)
  {
    var c := PutWord(b, i, w);
    if i == j {
      assert c[4 * i..4 * i + 4] == ToLittle(w, 4);
      FourBytes();
      FromToLittle(w, 4);
    } else {
      assert c[4 * j..4 * j + 4] == b[4 * j..4 * j + 4];
    }
  }

  lemma {:induction false} FromLittleZero(bytes: seq<Byte>)
    requires forall i :: 0 <= i < |bytes| ==> bytes[i] == 0
    ensures FromLittle(bytes) == 0
  {
    if bytes != [] {
      FromLittleZero(bytes[1..]);
    }
  }

  lemma ZeroWords(i: nat)
    requires i < WORDS
    ensures Word(ZERO_BLOCK, i) == 0
  {
    FromLittleZero(ZERO_BLOCK[4 * i..4 * i + 4]);
  }
}
