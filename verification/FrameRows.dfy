/** Bytes and rows of the frame-ID bar: the CRC loops, the 36 cells an ID is painted
    as, what the reader takes from 36 cells, and how far apart two rows are.
    Integers are given by their bits: a byte is a `Reg`, an ID three bytes. */
module FrameRows {
  import opened Options
  import opened FrameCode

  const BITS: nat := 36
  const SYNC := [true, false, true, false]

  /** A 24-bit integer, most significant byte first. */
  datatype Id = Id(high: Reg, middle: Reg, low: Reg)

  const ZERO_ID := Id(ZERO, ZERO, ZERO)

  // ----- the CRC loops -----

  function ToReg(v: bv8): Reg {
    Reg(Lit(v, 128), Lit(v, 64), Lit(v, 32), Lit(v, 16), Lit(v, 8), Lit(v, 4), Lit(v, 2), Lit(v, 1))
  }

  /** `Shift` is the register update that both CRC loops write with integers. */
  lemma ShiftIsTheLoopBody(v: bv8)
    ensures ToReg((v << 1) ^ (if v & 128 != 0 then 7 else 0)) == Shift(ToReg(v))
  {
  }

  predicate Lit(v: bv8, m: bv8) {
    v & m != 0
  }

  lemma XorOfBit(a: bv8, b: bv8, m: bv8)
    requires m == 128 || m == 64 || m == 32 || m == 16 || m == 8 || m == 4 || m == 2 || m == 1
    ensures Lit(a ^ b, m) <==> (Lit(a, m) <==> !Lit(b, m))
  {
  }

  lemma SumByBits(r: Reg, s: Reg, t: Reg)
    requires r.b7 <==> (s.b7 <==> !t.b7)
    requires r.b6 <==> (s.b6 <==> !t.b6)
    requires r.b5 <==> (s.b5 <==> !t.b5)
    requires r.b4 <==> (s.b4 <==> !t.b4)
    requires r.b3 <==> (s.b3 <==> !t.b3)
    requires r.b2 <==> (s.b2 <==> !t.b2)
    requires r.b1 <==> (s.b1 <==> !t.b1)
    requires r.b0 <==> (s.b0 <==> !t.b0)
    ensures r == Add(s, t)
  {
  }

  /** And adding registers is the exclusive or that both loops start a byte with. */
  lemma AddIsTheByteXor(a: bv8, b: bv8)
    ensures ToReg(a ^ b) == Add(ToReg(a), ToReg(b))
  {
    XorOfBit(a, b, 128);
    XorOfBit(a, b, 64);
    XorOfBit(a, b, 32);
    XorOfBit(a, b, 16);
    XorOfBit(a, b, 8);
    XorOfBit(a, b, 4);
    XorOfBit(a, b, 2);
    XorOfBit(a, b, 1);
    SumByBits(ToReg(a ^ b), ToReg(a), ToReg(b));
  }

  // ----- rows -----

  function Cells(r: Reg): (c: seq<bool>)
    ensures |c| == 8
  {
    Upper(r) + Lower(r)
  }

  function Upper(r: Reg): (c: seq<bool>)
    ensures |c| == 4
  {
    [r.b7, r.b6, r.b5, r.b4]
  }

  function Lower(r: Reg): (c: seq<bool>)
    ensures |c| == 4
  {
    [r.b3, r.b2, r.b1, r.b0]
  }

  function FromCells(c: seq<bool>): Reg
    requires |c| == 8
  {
    Reg(c[0], c[1], c[2], c[3], c[4], c[5], c[6], c[7])
  }

  /** Eight dark cells: multiplication by x^8. */
  const DARK: seq<bool> := Cells(ZERO)

  function IdByte(id: Id, k: nat): Reg
    requires k < 3
  {
    if k == 0 then id.high else if k == 1 then id.middle else id.low
  }

  function IdCells(id: Id): (c: seq<bool>)
    ensures |c| == 24
  {
    Cells(id.high) + Cells(id.middle) + Cells(id.low)
  }

  /** The CRC of an ID: the remainder of its polynomial times x^8. */
  function CrcOf(id: Id): Reg {
    Rem(ZERO, IdCells(id) + DARK)
  }

  /** The word after the sync: the ID, then its CRC. */
  function Word(id: Id): (c: seq<bool>)
    ensures |c| == 32
  {
    IdCells(id) + Cells(CrcOf(id))
  }

  /** The upper painted row; the lower row shows the inverse. */
  function Row(id: Id): (c: seq<bool>)
    ensures |c| == BITS
  {
    SYNC + Word(id)
  }

  function Not(cells: seq<bool>): (c: seq<bool>)
    ensures |c| == |cells|
    ensures forall k | 0 <= k < |cells| :: c[k] == !cells[k]
  {
    if cells == [] then [] else [!cells[0]] + Not(cells[1..])
  }

  datatype Reading = BadSync | BadCrc | Ident(id: Id)

  function IdOf(cells: seq<bool>): Id
    requires |cells| == BITS
  {
    Id(FromCells(cells[4..12]), FromCells(cells[12..20]), FromCells(cells[20..28]))
  }

  /** What the reader makes of one row of decided cells. */
  function Decode(cells: seq<bool>): Reading
    requires |cells| == BITS
  {
    if cells[..4] != SYNC then BadSync
    else if IdOf(cells) == ZERO_ID || FromCells(cells[28..]) != CrcOf(IdOf(cells)) then BadCrc
    else Ident(IdOf(cells))
  }

  lemma CellsRoundTrip(c: seq<bool>)
    requires |c| == 8
    ensures Cells(FromCells(c)) == c
  {
  }

  lemma Slice(before: seq<bool>, part: seq<bool>, after: seq<bool>)
    ensures (before + (part + after))[|before|..|before| + |part|] == part
    ensures (before + (part + after))[|before| + |part|..] == after
    ensures before + (part + after) == (before + part) + after
  {
  }

  lemma RowParts(id: Id)
    ensures var row := Row(id);
            && row[..4] == SYNC
            && row[4..12] == Cells(id.high) && row[12..20] == Cells(id.middle)
            && row[20..28] == Cells(id.low) && row[28..] == Cells(CrcOf(id))
  {
    var h, m, l, c := Cells(id.high), Cells(id.middle), Cells(id.low), Cells(CrcOf(id));
    SlicesInOrder(SYNC, h, m, l, c);
  }

  lemma SlicesInOrder(s: seq<bool>, h: seq<bool>, m: seq<bool>, l: seq<bool>, c: seq<bool>)
    requires |s| == 4 && |h| == |m| == |l| == 8
    ensures var row := s + (h + m + l + c);
            && row[..4] == s && row[4..12] == h && row[12..20] == m && row[20..28] == l && row[28..] == c
  {
    Slice(h, m, l + c);
    Slice(h + m, l, c);
    Slice(s, h, m + (l + c));
    Slice(s + h, m, l + c);
    Slice(s + h + m, l, c);
  }

  lemma PartsMakeRow(cells: seq<bool>, id: Id)
    requires |cells| == BITS && cells[..4] == SYNC
    requires cells[4..12] == Cells(id.high) && cells[12..20] == Cells(id.middle)
    requires cells[20..28] == Cells(id.low) && cells[28..] == Cells(CrcOf(id))
    ensures cells == Row(id)
  {
  }

  lemma DecodedIsRow(cells: seq<bool>)
    requires |cells| == BITS && Decode(cells).Ident?
    ensures Decode(cells).id != ZERO_ID && cells == Row(Decode(cells).id)
  {
    CellsRoundTrip(cells[4..12]);
    CellsRoundTrip(cells[12..20]);
    CellsRoundTrip(cells[20..28]);
    CellsRoundTrip(cells[28..]);
    PartsMakeRow(cells, Decode(cells).id);
  }

  lemma RowDecodes(id: Id)
    requires id != ZERO_ID
    ensures Decode(Row(id)) == Ident(id)
  {
    RowParts(id);
    assert IdOf(Row(id)) == id;
  }

  /** A row reads as an ID exactly when it is the row painted for that ID. */
  lemma DecodeExactly(cells: seq<bool>, id: Id)
    requires |cells| == BITS
    ensures Decode(cells) == Ident(id) <==> id != ZERO_ID && cells == Row(id)
  {
    if Decode(cells) == Ident(id) {
      DecodedIsRow(cells);
    }
    if id != ZERO_ID {
      RowDecodes(id);
    }
  }

  // ----- distance -----

  lemma FeedTwo(r: Reg, a: bool, b: bool)
    requires !r.b7 && !r.b6
    ensures Rem(r, [a, b]) == Reg(r.b5, r.b4, r.b3, r.b2, r.b1, r.b0, a, b)
  {
    RemUnfolds(r, [a, b]);
    RemUnfolds(Feed(r, a), [b]);
    assert [a, b][1..] == [b] && [b][1..] == [];
  }

  lemma FeedFour(r: Reg, low: seq<bool>)
    requires |low| == 4 && !r.b7 && !r.b6 && !r.b5 && !r.b4
    ensures Rem(r, low) == Reg(r.b3, r.b2, r.b1, r.b0, low[0], low[1], low[2], low[3])
  {
    FeedTwo(r, low[0], low[1]);
    FeedTwo(Reg(r.b5, r.b4, r.b3, r.b2, r.b1, r.b0, low[0], low[1]), low[2], low[3]);
    RemAppend(r, [low[0], low[1]], [low[2], low[3]]);
    assert low == [low[0], low[1]] + [low[2], low[3]];
  }

  /** Eight cells fill an empty register without any reduction. */
  lemma RemEight(r: Reg)
    ensures Rem(ZERO, Cells(r)) == r
  {
    RemAppend(ZERO, Upper(r), Lower(r));
    FeedFour(ZERO, Upper(r));
    FeedFour(Reg(false, false, false, false, r.b7, r.b6, r.b5, r.b4), Lower(r));
  }

  lemma RemDarkNext(r: Reg, n: nat)
    ensures Rem(r, seq(n + 1, _ => false)) == Shift(Rem(r, seq(n, _ => false)))
  {
    assert seq(n + 1, _ => false) == seq(n, _ => false) + [false];
    RemAppend(r, seq(n, _ => false), [false]);
    RemUnfolds(Rem(r, seq(n, _ => false)), [false]);
  }

  lemma {:induction false} RemDark(r: Reg, n: nat)
    ensures Rem(r, seq(n, _ => false)) == Shifts(r, n)
  {
    if n > 0 {
      RemDarkNext(r, n - 1);
      RemDark(r, n - 1);
    }
  }

  lemma AddZero(r: Reg)
    ensures Add(r, ZERO) == r
  {
  }

  lemma DarkXor(b: Reg)
    ensures Xor(DARK, Cells(b)) == Cells(b)
  {
    XorDark(Cells(b), 8);
    assert DARK == seq(8, _ => false);
  }

  /** Feeding a byte is adding it after multiplying by x^8. */
  lemma RemByte(r: Reg, b: Reg)
    ensures Rem(r, Cells(b)) == Add(Rem(r, DARK), b)
  {
    RemEight(b);
    DarkXor(b);
    AddZero(r);
    RemLinear(r, ZERO, DARK, Cells(b), Cells(b), r);
  }

  lemma {:induction false} XorDark(cells: seq<bool>, n: nat)
    requires |cells| == n
    ensures Xor(seq(n, _ => false), cells) == cells
    decreases n
  {
    if n > 0 {
      var dark, less := seq(n, _ => false), seq(n - 1, _ => false);
      assert dark[1..] == less;
      XorDark(cells[1..], n - 1);
      assert cells == [cells[0]] + cells[1..];
    }
  }

  /** The register after the first `k` bytes of an ID. */
  function RegAfter(id: Id, k: nat): Reg
    requires k <= 3
  {
    if k == 0 then ZERO else Rem(RegAfter(id, k - 1), Cells(IdByte(id, k - 1)))
  }

  lemma RegAfterAll(id: Id)
    ensures CrcOf(id) == Rem(RegAfter(id, 3), DARK)
  {
    var one, two := Cells(id.high), Cells(id.middle);
    RemAppend(ZERO, one + two + Cells(id.low), DARK);
    RemAppend(ZERO, one + two, Cells(id.low));
    RemAppend(ZERO, one, two);
    assert RegAfter(id, 1) == Rem(ZERO, one);
    assert RegAfter(id, 2) == Rem(RegAfter(id, 1), two);
    assert RegAfter(id, 3) == Rem(RegAfter(id, 2), Cells(id.low));
  }

  /** `crc` in bar.py and `frame_crc` in frame-bar.h: the byte-wise loops compute the remainder. */
  method Crc(id: Id) returns (value: Reg)
    ensures value == CrcOf(id)
  {
    value := ZERO;
    RemEight(ZERO);
    for k := 0 to 3
      invariant value == Rem(RegAfter(id, k), DARK)
    {
      RemByte(RegAfter(id, k), IdByte(id, k));
      value := Add(value, IdByte(id, k));
      ghost var start := value;
      assert seq(0, _ => false) == [];
      for bit := 0 to 8
        invariant value == Rem(start, seq(bit, _ => false))
      {
        RemDarkNext(start, bit);
        value := Shift(value);
      }
      assert DARK == seq(8, _ => false);
    }
    RegAfterAll(id);
  }

  // ----- minimum distance -----

  lemma AddSelf(r: Reg)
    ensures Add(r, r) == ZERO
  {
  }

  /** A painted word is a multiple of the generator. */
  lemma WordRemainder(id: Id)
    ensures Rem(ZERO, Word(id)) == ZERO
  {
    RemAppend(ZERO, IdCells(id), Cells(CrcOf(id)));
    RemAppend(ZERO, IdCells(id), DARK);
    RemByte(Rem(ZERO, IdCells(id)), CrcOf(id));
    AddSelf(CrcOf(id));
  }

  lemma RowsAsWords(i: Id, j: Id)
    ensures Distance(Row(i), Row(j)) == Distance(Word(i), Word(j))
  {
    XorAppend(SYNC, SYNC, Word(i), Word(j));
    WeightAppend(Xor(SYNC, SYNC), Xor(Word(i), Word(j)));
    ZeroDistance(SYNC, SYNC);
  }

  /** The painted rows of two different IDs differ in at least four cells. */
  lemma MinimumDistance(i: Id, j: Id)
    requires i != j
    ensures Distance(Row(i), Row(j)) >= 4
  {
    RowParts(i);
    RowParts(j);
    ZeroDistance(Row(i), Row(j));
    if Row(i) == Row(j) {
      CellsInjective(i.high, j.high);
      CellsInjective(i.middle, j.middle);
      CellsInjective(i.low, j.low);
    }
    RowsAsWords(i, j);
    var errors := Xor(Word(i), Word(j));
    WordRemainder(i);
    WordRemainder(j);
    AddZero(ZERO);
    RemLinear(ZERO, ZERO, Word(i), Word(j), errors, ZERO);
    if Weight(errors) <= 3 {
      FewCellsShow(errors);
    }
  }

  lemma CellsInjective(r: Reg, s: Reg)
    ensures Cells(r) == Cells(s) ==> r == s
  {
    RegRoundTrip(r);
    RegRoundTrip(s);
  }

  lemma RegRoundTrip(r: Reg)
    ensures FromCells(Cells(r)) == r
  {
  }

  /** Flipping any one to three cells of a painted row never reads as an ID. */
  lemma FlippedRowUnreadable(cells: seq<bool>, id: Id)
    requires |cells| == BITS && 1 <= Distance(cells, Row(id)) <= 3
    ensures !Decode(cells).Ident?
  {
    if Decode(cells).Ident? {
      DecodedIsRow(cells);
      ZeroDistance(cells, Row(id));
      MinimumDistance(Decode(cells).id, id);
    }
  }

  function Flipped(r: Reg): Reg {
    Reg(r.b7, r.b6, r.b5, r.b4, r.b3, r.b2, r.b1, !r.b0)
  }

  /** The ID that differs in the lowest bit. */
  function Neighbour(id: Id): Id {
    id.(low := Flipped(id.low))
  }

  /** The row with the lowest ID bit and the three lowest CRC bits flipped. */
  function FourFlipped(row: seq<bool>): (r: seq<bool>)
    requires |row| == BITS
    ensures |r| == BITS
  {
    Flip(Flip(Flip(Flip(row, 27), 33), 34), 35)
  }

  lemma FourFlippedAt(row: seq<bool>, k: nat)
    requires |row| == BITS && k < BITS
    ensures FourFlipped(row)[k] == if k == 27 || k >= 33 then !row[k] else row[k]
  {
  }

  lemma NeighbourRow(id: Id)
    ensures FourFlipped(Row(id)) == Row(Neighbour(id))
  {
    var row, four := Row(id), FourFlipped(Row(id));
    NeighbourCrc(id);
    FlippedLower(id.low);
    SevenLower(CrcOf(id));
    RowParts(id);
    RowParts(Neighbour(id));
    assert four[..4] == SYNC && four[4..12] == row[4..12] && four[12..20] == row[12..20];
    assert four[20..28] == Flip(Cells(id.low), 7);
    assert four[28..] == Flip(Flip(Flip(Cells(CrcOf(id)), 5), 6), 7);
    PartsMakeRow(four, Neighbour(id));
  }

  lemma FourFlipsApart(row: seq<bool>)
    requires |row| == BITS
    ensures Distance(row, FourFlipped(row)) == 4
  {
    ZeroDistance(row, row);
    var one := Flip(row, 27);
    FlipAdds(row, row, 27);
    var two := Flip(one, 33);
    FlipAdds(row, one, 33);
    var three := Flip(two, 34);
    FlipAdds(row, two, 34);
    FlipAdds(row, three, 35);
  }

  /** Four flips are enough: an ID and its neighbour are exactly four cells apart. */
  lemma FourFlipsConfuse(id: Id)
    ensures Distance(Row(id), Row(Neighbour(id))) == 4
  {
    NeighbourRow(id);
    FourFlipsApart(Row(id));
  }

  function Flip(cells: seq<bool>, k: nat): seq<bool>
    requires k < |cells|
  {
    cells[k := !cells[k]]
  }

  lemma {:induction false} FlipAdds(a: seq<bool>, b: seq<bool>, k: nat)
    requires |a| == |b| && k < |a| && a[k] == b[k]
    ensures Distance(a, Flip(b, k)) == Distance(a, b) + 1
  {
    var c := Flip(b, k);
    XorUnfolds(a, b);
    XorUnfolds(a, c);
    if k == 0 {
      assert c[1..] == b[1..];
    } else {
      FlipAdds(a[1..], b[1..], k - 1);
      assert c[1..] == Flip(b[1..], k - 1);
    }
  }

  lemma FlippedLower(r: Reg)
    ensures Cells(Flipped(r)) == Flip(Cells(r), 7)
  {
  }

  lemma SevenLower(r: Reg)
    ensures Cells(Add(r, SEVEN)) == Flip(Flip(Flip(Cells(r), 5), 6), 7)
  {
    assert Upper(Add(r, SEVEN)) == Upper(r);
    assert Lower(Add(r, SEVEN)) == Flip(Flip(Flip(Lower(r), 1), 2), 3);
  }

  const SEVEN := Reg(false, false, false, false, false, true, true, true)

  lemma NeighbourCrc(id: Id)
    ensures CrcOf(Neighbour(id)) == Add(CrcOf(id), SEVEN)
  {
    var near := Neighbour(id);
    RegAfterAll(id);
    RegAfterAll(near);
    assert RegAfter(near, 1) == RegAfter(id, 1);
    assert RegAfter(near, 2) == RegAfter(id, 2);
    var two := RegAfter(id, 2);
    RemByte(two, id.low);
    RemByte(two, near.low);
    AddFlipped(Rem(two, DARK), id.low);
    assert RegAfter(near, 3) == Add(RegAfter(id, 3), ONE);
    RemOne();
    DarkXor(ZERO);
    RemLinear(RegAfter(id, 3), ONE, DARK, DARK, DARK, RegAfter(near, 3));
  }

  lemma AddFlipped(r: Reg, s: Reg)
    ensures Add(r, Flipped(s)) == Add(Add(r, s), ONE)
  {
  }

  lemma RemOne()
    ensures Rem(ONE, DARK) == SEVEN
  {
    RemDark(ONE, 8);
    assert DARK == seq(8, _ => false);
    PowersOf4(2);
  }

  // ----- one CRC worked out -----

  const NINE := Reg(false, false, false, false, true, false, false, true)

  /** The CRC of ID 9 is 0x3F. */
  lemma CrcOfNine()
    ensures CrcOf(Id(ZERO, ZERO, NINE)) == Reg(false, false, true, true, true, true, true, true)
  {
    var id := Id(ZERO, ZERO, NINE);
    RegAfterAll(id);
    RemEight(ZERO);
    RemEight(NINE);
    assert RegAfter(id, 1) == ZERO && RegAfter(id, 2) == ZERO && RegAfter(id, 3) == NINE;
    RemDark(NINE, 8);
    assert DARK == seq(8, _ => false);
    NineShifted();
  }

  lemma NineShifted()
    ensures Shifts(NINE, 8) == Reg(false, false, true, true, true, true, true, true)
  {
    ShiftsAdd(NINE, 4, 4);
    Shifts4(NINE);
    Shifts4(Shifts(NINE, 4));
  }
}
