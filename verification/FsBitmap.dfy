/** The free bitmap as kernel/fs.c keeps it: one bit a block, BPB bits to a bitmap block. */
module FsBitmap {
  const BPB: nat := 8192      // BSIZE * 8

  /** 1 << k */
  function Mask(k: nat): bv8
    requires k < 8
  {
    if k == 0 then 1 else if k == 1 then 2 else if k == 2 then 4 else if k == 3 then 8
    else if k == 4 then 16 else if k == 5 then 32 else if k == 6 then 64 else 128
  }

  predicate Test(x: bv8, k: nat)
    requires k < 8
  {
    x & Mask(k) != 0
  }

  lemma MasksApart(j: nat, k: nat)
    requires j < 8 && k < 8
    ensures Mask(j) != 0 && (j != k ==> Mask(j) & Mask(k) == 0)
  {
  }

  lemma OrBit(x: bv8, m: bv8, n: bv8)
    ensures m != 0 ==> (x | m) & m != 0
    ensures m & n == 0 ==> (x | m) & n == x & n
  {
  }

  lemma AndNotBit(x: bv8, m: bv8, n: bv8)
    ensures (x & !m) & m == 0
    ensures m & n == 0 ==> (x & !m) & n == x & n
  {
  }

  /** One bit is set, or cleared, and no other changes. */
  lemma SetBit(x: bv8, k: nat, j: nat)
    requires k < 8 && j < 8
    ensures Test(x | Mask(k), j) <==> j == k || Test(x, j)
    ensures Test(x & !Mask(k), j) <==> j != k && Test(x, j)
  {
    MasksApart(k, j);
    OrBit(x, Mask(k), Mask(j));
    AndNotBit(x, Mask(k), Mask(j));
  }

  /** The bit of block b: in bitmap block b / BPB, byte and bit by what is left. */
  predicate Bit(bitmap: seq<seq<bv8>>, b: nat)
    requires Covers(bitmap, b)
  {
    Test(bitmap[b / BPB][b % BPB / 8], b % BPB % 8)
  }

  predicate Covers(bitmap: seq<seq<bv8>>, b: nat) { b / BPB < |bitmap| && |bitmap[b / BPB]| == 1024 }

  function WithByte(bitmap: seq<seq<bv8>>, b: nat, x: bv8): seq<seq<bv8>>
    requires Covers(bitmap, b)
  {
    bitmap[b / BPB := bitmap[b / BPB][b % BPB / 8 := x]]
  }

  function WithBit(x: bv8, k: nat, on: bool): bv8
    requires k < 8
  {
    if on then x | Mask(k) else x & !Mask(k)
  }

  lemma BitUpdateAt(bitmap: seq<seq<bv8>>, p: nat, q: nat, k: nat, p': nat, q': nat, k': nat, on: bool)
    requires p < |bitmap| && p' < |bitmap| && q < |bitmap[p]| && q' < |bitmap[p']| && k < 8 && k' < 8
    ensures var m := bitmap[p := bitmap[p][q := WithBit(bitmap[p][q], k, on)]];
            && |m[p']| == |bitmap[p']|
            && (Test(m[p'][q'], k') <==> if p == p' && q == q' && k == k' then on else Test(bitmap[p'][q'], k'))
  {
    SetBit(bitmap[p][q], k, k');
  }

  /** balloc's and bfree's update of one byte changes the bit of b and no other. */
  lemma BitUpdate(bitmap: seq<seq<bv8>>, b: nat, c: nat, on: bool)
    requires Covers(bitmap, b) && Covers(bitmap, c)
    ensures Covers(Updated(bitmap, b, on), c)
    ensures Bit(Updated(bitmap, b, on), c) <==> if c == b then on else Bit(bitmap, c)
  {
    Position(b, c);
    BitUpdateAt(bitmap, b / BPB, b % BPB / 8, b % BPB % 8, c / BPB, c % BPB / 8, c % BPB % 8, on);
  }

  function Updated(bitmap: seq<seq<bv8>>, b: nat, on: bool): seq<seq<bv8>>
    requires Covers(bitmap, b)
  {
    WithByte(bitmap, b, WithBit(bitmap[b / BPB][b % BPB / 8], b % BPB % 8, on))
  }

  lemma Position(b: nat, c: nat)
    ensures b == c <==> b / BPB == c / BPB && b % BPB / 8 == c % BPB / 8 && b % BPB % 8 == c % BPB % 8
  {
    var x, y := b % BPB, c % BPB;
    assert x == 8 * (x / 8) + x % 8 && y == 8 * (y / 8) + y % 8;
    assert b == BPB * (b / BPB) + x && c == BPB * (c / BPB) + y;
  }
}
