/** The panel's 1,024 bytes, the pixels they light, and the same pixels printed as half blocks. */
module Framebuffer {
  import opened Utf8
  import opened PageBits

  const W: nat := 128
  const H: nat := 64
  /** Pixel rows to one byte. */
  const CELL: nat := 8
  const FRAME_BYTES: nat := W * H / CELL

  const DARK_ROW: seq<bool> := seq(W, _ => false)

  /** Rows of pixels, top to bottom. */
  type Grid = g: seq<seq<bool>> | |g| == H && forall y :: 0 <= y < H ==> |g[y]| == W
    witness seq(H, _ => DARK_ROW)

  type Data = d: seq<byte> | |d| == FRAME_BYTES witness seq(FRAME_BYTES, _ => 0)

  // ---- bytes

  /** Bit `b` of a byte is the pixel `b` rows down. */
  function ByteOf(bits: seq<bool>): (n: nat)
    ensures n < Pow2(|bits|)
  {
    if bits == [] then 0 else 2 * ByteOf(bits[1..]) + if bits[0] then 1 else 0
  }

  lemma {:induction false} BitsOfByteOf(bits: seq<bool>, n: nat)
    requires n < |bits|
    ensures HasBit(ByteOf(bits), n) <==> bits[n]
    decreases |bits|
  {
    assert ByteOf(bits) / 2 == ByteOf(bits[1..]);
    if n > 0 {
      BitsOfByteOf(bits[1..], n - 1);
    }
  }

  lemma Pow2Of8()
    ensures Pow2(8) == 256
  {
    assert Pow2(4) == 16;
  }

  /** The eight pixels one byte holds. */
  function Column(g: Grid, page: nat, x: nat): (bits: seq<bool>)
    requires page < H / CELL && x < W
    ensures |bits| == CELL && forall b :: 0 <= b < CELL ==> bits[b] == g[page * CELL + b][x]
  {
    seq(CELL, b requires 0 <= b < CELL => g[page * CELL + b][x])
  }

  function ColumnByte(g: Grid, page: nat, x: nat): byte
    requires page < H / CELL && x < W
  {
    Pow2Of8();
    ByteOf(Column(g, page, x))
  }

  /** `vlsb`. */
  function Vlsb(g: Grid): (d: Data)
    ensures forall page, x :: 0 <= page < H / CELL && 0 <= x < W ==> d[Place(page, x)] == ColumnByte(g, page, x)
  {
    var d := seq(FRAME_BYTES, i requires 0 <= i < FRAME_BYTES => ColumnByte(g, i / W, i % W));
    assert forall page, x :: 0 <= page < H / CELL && 0 <= x < W ==>
      Place(page, x) / W == page && Place(page, x) % W == x;
    d
  }

  function Place(page: nat, x: nat): nat {
    page * W + x
  }

  /** Whether a byte stream lights a pixel. */
  predicate Lit(d: Data, y: nat, x: nat)
    requires y < H && x < W
  {
    HasBit(d[Place(y / CELL, x)], y % CELL)
  }

  function Decoded(d: Data): (g: Grid)
    ensures forall y, x :: 0 <= y < H && 0 <= x < W ==> g[y][x] == Lit(d, y, x)
  {
    seq(H, y requires 0 <= y < H => seq(W, x requires 0 <= x < W => Lit(d, y, x)))
  }

  /** The parent's decoder: a byte at a time, its bits down eight rows. */
  method Decode(d: Data) returns (mv: array2<bool>)
    ensures mv.Length0 == H && mv.Length1 == W
    ensures forall y, x :: 0 <= y < H && 0 <= x < W ==> mv[y, x] == Decoded(d)[y][x]
  {
    mv := new bool[H, W]((_, _) => false);
    var y := 0;
    while y < H
      invariant y <= H && y % CELL == 0
      invariant forall r, x :: 0 <= r < y && 0 <= x < W ==> mv[r, x] == Lit(d, r, x)
    {
      for x := 0 to W
        invariant forall r, c :: 0 <= r < y && 0 <= c < W ==> mv[r, c] == Lit(d, r, c)
        invariant forall r, c :: y <= r < y + CELL && 0 <= c < x ==> mv[r, c] == Lit(d, r, c)
      {
        var val: nat := d[y * W / 8 + x];
        assert y * W / 8 + x == Place(y / CELL, x);
        for bit := 0 to CELL
          invariant forall r, c :: 0 <= r < y && 0 <= c < W ==> mv[r, c] == Lit(d, r, c)
          invariant forall r, c :: y <= r < y + CELL && 0 <= c < x ==> mv[r, c] == Lit(d, r, c)
          invariant forall r :: y <= r < y + bit ==> mv[r, x] == Lit(d, r, x)
        {
          assert (y + bit) / CELL == y / CELL && (y + bit) % CELL == bit;
          mv[y + bit, x] := HasBit(val, bit);
        }
      }
      y := y + CELL;
    }
  }

  /** Every pixel survives the bytes. */
  lemma DecodeInvertsVlsb(g: Grid)
    ensures Decoded(Vlsb(g)) == g
  {
    var d, back := Vlsb(g), Decoded(Vlsb(g));
    forall y, x | 0 <= y < H && 0 <= x < W
      ensures back[y][x] == g[y][x]
    {
      var page, b := y / CELL, y % CELL;
      assert d[Place(page, x)] == ColumnByte(g, page, x);
      BitsOfByteOf(Column(g, page, x), b);
    }
    forall y | 0 <= y < H
      ensures back[y] == g[y]
    {
    }
  }

  lemma ByteSurvives(d: Data, page: nat, x: nat)
    requires page < H / CELL && x < W
    ensures ColumnByte(Decoded(d), page, x) == d[Place(page, x)]
  {
    var g := Decoded(d);
    var before, after: nat := d[Place(page, x)], ColumnByte(g, page, x);
    Pow2Of8();
    forall b: nat | b < CELL
      ensures HasBit(after, b) <==> HasBit(before, b)
    {
      BitsOfByteOf(Column(g, page, x), b);
      assert (page * CELL + b) / CELL == page && (page * CELL + b) % CELL == b;
      assert g[page * CELL + b][x] == Lit(d, page * CELL + b, x);
    }
    SameBitsSameWord(after, before, CELL);
  }

  /** Every byte survives the pixels. */
  lemma VlsbInvertsDecode(d: Data)
    ensures Vlsb(Decoded(d)) == d
  {
    var g, back := Decoded(d), Vlsb(Decoded(d));
    forall i | 0 <= i < FRAME_BYTES
      ensures back[i] == d[i]
    {
      var page, x := i / W, i % W;
      assert i == Place(page, x) && back[i] == ColumnByte(g, page, x);
      ByteSurvives(d, page, x);
    }
  }
}
