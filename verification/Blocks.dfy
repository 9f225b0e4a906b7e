/** Disk blocks as byte sequences, with the little-endian 32-bit words that the log
    header and the indirect blocks are made of. */
module Blocks {
  const BSIZE: nat := 512
  const WORDS: nat := 128
  const WORD_LIMIT: nat := 0x1_0000_0000

  type byte = x: int | 0 <= x < 256
  type Block = b: seq<byte> | |b| == BSIZE witness seq(BSIZE, _ => 0)
  type Word = x: int | 0 <= x < WORD_LIMIT

  function Zeros(n: nat): (s: seq<byte>)
    ensures |s| == n && forall i :: 0 <= i < n ==> s[i] == 0
  {
    if n == 0 then [] else Zeros(n - 1) + [0]
  }

  function ZeroBlock(): (b: Block)
    ensures forall i :: 0 <= i < BSIZE ==> b[i] == 0
    ensures forall j: nat :: j < WORDS ==> GetWord(b, j) == 0
  {
    Zeros(BSIZE)
  }

  function GetWord(b: Block, j: nat): (w: Word)
    requires j < WORDS
  {
    var b0: int, b1: int, b2: int, b3: int := b[4 * j], b[4 * j + 1], b[4 * j + 2], b[4 * j + 3];
    b0 + 0x100 * b1 + 0x1_0000 * b2 + 0x100_0000 * b3
  }

  function SetWord(b: Block, j: nat, w: Word): (r: Block)
    requires j < WORDS
    ensures GetWord(r, j) == w
    ensures forall k: nat :: k < WORDS && k != j ==> GetWord(r, k) == GetWord(b, k)
  {
    var q1: int := w / 0x100;
    var q2: int := q1 / 0x100;
    var q3: int := q2 / 0x100;
    var b0: byte := w % 0x100;
    var b1: byte := q1 % 0x100;
    var b2: byte := q2 % 0x100;
    var b3: byte := q3;
    b[4 * j := b0][4 * j + 1 := b1][4 * j + 2 := b2][4 * j + 3 := b3]
  }

  /** The words from index `from` on that are overwritten by `ws`, as a C loop storing
      `ws[i]` into word `from + i` does. */
  function SetWords(b: Block, from: nat, ws: seq<Word>): (r: Block)
    requires from + |ws| <= WORDS
    decreases |ws|
    ensures forall k: nat :: k < |ws| ==> GetWord(r, from + k) == ws[k]
    ensures forall k: nat :: k < WORDS && !(from <= k < from + |ws|) ==> GetWord(r, k) == GetWord(b, k)
  {
    if ws == [] then b
    else SetWord(SetWords(b, from, ws[..|ws| - 1]), from + |ws| - 1, ws[|ws| - 1])
  }

  function GetWords(b: Block, from: nat, n: nat): (ws: seq<Word>)
    requires from + n <= WORDS
  {
    seq<Word>(n, i requires 0 <= i < n => GetWord(b, from + i))
  }
}
