/** Blocks as bytes, and the two ways the file system reads them: as words and as a bitmap. */
module FsBytes {

  const BSIZE: nat := 1024
  const NINDIRECT: nat := 256   // BSIZE / sizeof(uint)
  const BPB: nat := 8192        // bitmap bits per block

  type byte = x: int | 0 <= x < 256
  type Block = b: seq<byte> | |b| == BSIZE witness seq(BSIZE, _ => 0)

  function ZeroBlock(): (z: Block)
    ensures forall i :: 0 <= i < BSIZE ==> z[i] == 0
  {
    seq(BSIZE, _ => 0)
  }

  // ----- little-endian words -----

  function Little(s: seq<byte>): (w: nat) {
    if s == [] then 0 else s[0] + 256 * Little(s[1..])
  }

  function Bytes(w: nat, n: nat): (s: seq<byte>)
    ensures |s| == n
  {
    if n == 0 then [] else [w % 256] + Bytes(w / 256, n - 1)
  }

  function Pow256(n: nat): nat { if n == 0 then 1 else 256 * Pow256(n - 1) }

  lemma {:induction false} LittleOfBytes(w: nat, n: nat)
    requires w < Pow256(n)
    ensures Little(Bytes(w, n)) == w
  {
    if n > 0 {
      LittleOfBytes(w / 256, n - 1);
      assert Bytes(w, n)[1..] == Bytes(w / 256, n - 1);
    }
  }

  /** The first n words of a block. */
  function WordsTo(b: Block, n: nat): (ws: seq<nat>)
    requires n <= NINDIRECT
    ensures |ws| == n
  {
    if n == 0 then [] else WordsTo(b, n - 1) + [Little(b[4 * (n - 1)..4 * n])]
  }

  function Words(b: Block): (ws: seq<nat>)
    ensures |ws| == NINDIRECT
  {
    WordsTo(b, NINDIRECT)
  }

  lemma {:induction false} WordsToAt(b: Block, n: nat, k: nat)
    requires k < n <= NINDIRECT
    ensures WordsTo(b, n)[k] == Little(b[4 * k..4 * k + 4])
  {
    if k < n - 1 {
      WordsToAt(b, n - 1, k);
    }
  }

  /** a[k] = w on a block seen as an array of words. */
  function PutWord(b: Block, k: nat, w: nat): (r: Block)
    requires k < NINDIRECT
  {
    b[..4 * k] + Bytes(w, 4) + b[4 * k + 4..]
  }

  /** Storing a word changes that word only. */
  lemma WordsOfPut(b: Block, k: nat, w: nat)
    requires k < NINDIRECT && w < Pow256(4)
    ensures Words(PutWord(b, k, w)) == Words(b)[k := w]
  {
    var r := PutWord(b, k, w);
    forall j | 0 <= j < NINDIRECT ensures Words(r)[j] == Words(b)[k := w][j] {
      WordsToAt(r, NINDIRECT, j);
      WordsToAt(b, NINDIRECT, j);
      if j == k {
        assert r[4 * k..4 * k + 4] == Bytes(w, 4);
        LittleOfBytes(w, 4);
      } else {
        assert r[4 * j..4 * j + 4] == b[4 * j..4 * j + 4];
      }
    }
  }

  lemma {:induction false} LittleOfNulls(s: seq<byte>)
    requires forall i :: 0 <= i < |s| ==> s[i] == 0
    ensures Little(s) == 0
  {
    if s != [] {
      LittleOfNulls(s[1..]);
    }
  }

  /** A zeroed block has only null pointers. */
  lemma WordsOfZero(z: Block)
    requires forall i :: 0 <= i < BSIZE ==> z[i] == 0
    ensures forall j :: 0 <= j < NINDIRECT ==> Words(z)[j] == 0
  {
    forall j | 0 <= j < NINDIRECT ensures Words(z)[j] == 0 {
      WordsToAt(z, NINDIRECT, j);
      LittleOfNulls(z[4 * j..4 * j + 4]);
    }
  }

  // ----- bits -----

  /** 1 << i */
  function Mask(i: nat): (m: nat)
    ensures m >= 1
  {
    if i == 0 then 1 else 2 * Mask(i - 1)
  }

  /** (x & 1 << i) != 0 */
  predicate Bit(x: nat, i: nat) {
    if i == 0 then x % 2 == 1 else Bit(x / 2, i - 1)
  }

  /** A set bit can be subtracted. */
  lemma {:induction false} BitBound(x: nat, i: nat)
    requires Bit(x, i)
    ensures x >= Mask(i)
  {
    if i > 0 {
      BitBound(x / 2, i - 1);
    }
  }

  /** x |= 1 << i for a clear bit, which is an addition. */
  lemma {:induction false} SetBit(x: nat, i: nat, j: nat)
    requires !Bit(x, i)
    ensures Bit(x + Mask(i), j) == (j == i || Bit(x, j))
    decreases i + j
  {
    if i == 0 {
      assert (x + 1) / 2 == x / 2;
    } else {
      assert (x + Mask(i)) / 2 == x / 2 + Mask(i - 1);
      if j > 0 {
        SetBit(x / 2, i - 1, j - 1);
      }
    }
  }

  /** x &= ~(1 << i) for a set bit, which is a subtraction. */
  lemma {:induction false} ClearBit(x: nat, i: nat, j: nat)
    requires Bit(x, i)
    ensures x >= Mask(i) && Bit(x - Mask(i), j) == (j != i && Bit(x, j))
    decreases i + j
  {
    BitBound(x, i);
    if i == 0 {
      assert (x - 1) / 2 == x / 2;
    } else {
      BitBound(x / 2, i - 1);
      assert (x - Mask(i)) / 2 == x / 2 - Mask(i - 1);
      if j > 0 {
        ClearBit(x / 2, i - 1, j - 1);
      }
    }
  }

  /** Setting a clear bit keeps a number within its width. */
  lemma {:induction false} SetBitWidth(x: nat, i: nat, w: nat)
    requires !Bit(x, i) && i < w && x < Mask(w)
    ensures x + Mask(i) < Mask(w)
  {
    if i > 0 {
      SetBitWidth(x / 2, i - 1, w - 1);
    } else {
      assert Mask(w) == 2 * Mask(w - 1);
    }
  }

  lemma ByteWidth()
    ensures Mask(8) == 256
  {
    assert Mask(8) == 2 * Mask(7) == 4 * Mask(6) == 8 * Mask(5);
    assert Mask(5) == 2 * Mask(4) == 4 * Mask(3) == 8 * Mask(2);
  }

  /** A byte with bit i set that was clear. */
  function WithBit(x: byte, i: nat): (r: byte)
    requires i < 8 && !Bit(x, i)
  {
    ByteWidth();
    SetBitWidth(x, i, 8);
    x + Mask(i)
  }

  /** A byte with bit i cleared that was set. */
  function WithoutBit(x: byte, i: nat): (r: byte)
    requires i < 8 && Bit(x, i)
  {
    BitBound(x, i);
    x - Mask(i)
  }

  // ----- the free bitmap -----

  /** The bit of block number b in its bitmap block. */
  predicate MarkedIn(bm: Block, b: nat) {
    Bit(bm[(b % BPB) / 8], (b % BPB) % 8)
  }

  function Mark(bm: Block, b: nat): (r: Block)
    requires !MarkedIn(bm, b)
  {
    bm[(b % BPB) / 8 := WithBit(bm[(b % BPB) / 8], (b % BPB) % 8)]
  }

  function Unmark(bm: Block, b: nat): (r: Block)
    requires MarkedIn(bm, b)
  {
    bm[(b % BPB) / 8 := WithoutBit(bm[(b % BPB) / 8], (b % BPB) % 8)]
  }

  lemma MarkOne(bm: Block, b: nat, c: nat)
    requires !MarkedIn(bm, b)
    ensures MarkedIn(Mark(bm, b), c) == (c % BPB == b % BPB || MarkedIn(bm, c))
  {
    if (c % BPB) / 8 == (b % BPB) / 8 {
      SetBit(bm[(b % BPB) / 8], (b % BPB) % 8, (c % BPB) % 8);
    }
  }

  lemma UnmarkOne(bm: Block, b: nat, c: nat)
    requires MarkedIn(bm, b)
    ensures MarkedIn(Unmark(bm, b), c) == (c % BPB != b % BPB && MarkedIn(bm, c))
  {
    if (c % BPB) / 8 == (b % BPB) / 8 {
      ClearBit(bm[(b % BPB) / 8], (b % BPB) % 8, (c % BPB) % 8);
    }
  }
}
