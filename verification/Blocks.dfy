/** Disk blocks as the kernel sees them: BSIZE bytes, which fs.h and log.c also
    overlay with arrays of little-endian 32-bit words (the log header, the inodes and
    the indirect block) and with a bit array (the free map). */
module Blocks {

  const BSIZE := 512
  const WORDS := 128   // BSIZE / sizeof(uint)
  const BPB := 4096    // bitmap bits per block

  type byte = x: int | 0 <= x < 256
  type word = x: int | 0 <= x < 0x1_0000_0000
  type Block = b: seq<byte> | |b| == BSIZE witness seq(BSIZE, i => 0)

  /** What memset leaves. */
  function ZeroBlock(): (b: Block)
    ensures forall i | 0 <= i < BSIZE :: b[i] == 0
  {
    seq(BSIZE, i => 0)
  }

  /** The number a run of bytes stands for, least significant byte first. */
  function FromLE(s: seq<byte>): (r: nat) {
    if s == [] then 0 else s[0] + 0x100 * FromLE(s[1..])
  }

  function ToLE(w: nat, n: nat): (s: seq<byte>)
    ensures |s| == n
  {
    if n == 0 then [] else [w % 0x100] + ToLE(w / 0x100, n - 1)
  }

  function Radix(n: nat): (r: nat)
    ensures r > 0
  {
    if n == 0 then 1 else 0x100 * Radix(n - 1)
  }

  lemma {:induction false} FromLEBound(s: seq<byte>)
    ensures FromLE(s) < Radix(|s|)
  {
    if s != [] {
      FromLEBound(s[1..]);
    }
  }

  lemma {:induction false} LERoundTrip(w: nat, n: nat)
    requires w < Radix(n)
    ensures FromLE(ToLE(w, n)) == w
  {
    if n > 0 {
      LERoundTrip(w / 0x100, n - 1);
      assert ToLE(w, n)[1..] == ToLE(w / 0x100, n - 1);
    }
  }

  lemma Radix4()
    ensures Radix(4) == 0x1_0000_0000
  {
    assert Radix(1) == 0x100 && Radix(2) == 0x1_0000 && Radix(3) == 0x100_0000;
  }

  function Word(b: Block, k: nat): (w: word)
    requires k < WORDS
  {
    Radix4();
    FromLEBound(b[4 * k..4 * k + 4]);
    FromLE(b[4 * k..4 * k + 4])
  }

  /** Storing a word reads back, and leaves every other word alone. */
  function PutWord(b: Block, k: nat, w: word): (r: Block)
    requires k < WORDS
    ensures Word(r, k) == w
    ensures forall j: nat :: j < WORDS && j != k ==> Word(r, j) == Word(b, j)
  {
    var r: Block := b[..4 * k] + ToLE(w, 4) + b[4 * k + 4..];
    Radix4();
    LERoundTrip(w, 4);
    assert r[4 * k..4 * k + 4] == ToLE(w, 4);
    assert forall j: nat :: j < WORDS && j != k ==> r[4 * j..4 * j + 4] == b[4 * j..4 * j + 4];
    r
  }

  lemma ZeroWords(k: nat)
    requires k < WORDS
    ensures Word(ZeroBlock(), k) == 0
  {
    var s := ZeroBlock()[4 * k..4 * k + 4];
    AllZero(s);
  }

  lemma {:induction false} AllZero(s: seq<byte>)
    requires forall i | 0 <= i < |s| :: s[i] == 0
    ensures FromLE(s) == 0
  {
    if s != [] {
      AllZero(s[1..]);
    }
  }
}
