/** `read`: from two rows of samples to a clean, torn or unreadable frame, and how
    much noise the samples may carry. */
module FrameReader {
  import opened FrameCode
  import opened FrameRows

  const MIDDLE := 128
  const MARGIN := 45
  const LIGHT := 235
  const BLACK := 16
  const BACKGROUND := 96

  datatype Reason = Outside | Contrast(row: nat) | SyncFailed(row: nat) | CrcFailed(row: nat)

  datatype Frame = Clean(ident: Id) | Torn(upperId: Id, lowerId: Id) | Unreadable(reason: Reason)

  function FrameIds(frame: Frame): seq<Id> {
    match frame
    case Clean(id) => [id]
    case Torn(upper, lower) => [upper, lower]
    case Unreadable(_) => []
  }

  // ----- one row of samples -----

  predicate Faint(v: int) {
    MIDDLE - MARGIN < v < MIDDLE + MARGIN
  }

  /** The decided cells of a row; the second row is inverted back. */
  function Decided(index: nat, row: seq<int>): (cells: seq<bool>)
    ensures |cells| == |row|
  {
    seq(|row|, k requires 0 <= k < |row| => (row[k] >= MIDDLE) != (index == 1))
  }

  datatype RowResult = Refused(reason: Reason) | Decoded(id: Id)

  function ReadRow(index: nat, row: seq<int>): RowResult
    requires |row| == BITS
  {
    if exists k | 0 <= k < BITS :: Faint(row[k]) then Refused(Contrast(index))
    else match Decode(Decided(index, row))
         case BadSync => Refused(SyncFailed(index))
         case BadCrc => Refused(CrcFailed(index))
         case Ident(id) => Decoded(id)
  }

  function ReadRows(upper: seq<int>, lower: seq<int>): Frame
    requires |upper| == |lower| == BITS
  {
    match ReadRow(0, upper)
    case Refused(reason) => Unreadable(reason)
    case Decoded(first) =>
      match ReadRow(1, lower)
      case Refused(reason) => Unreadable(reason)
      case Decoded(second) => if first == second then Clean(first) else Torn(first, second)
  }

  /** The loop of `read` over the two sampled rows. */
  method ReadValues(values: seq<seq<int>>) returns (frame: Frame)
    requires |values| == 2 && |values[0]| == |values[1]| == BITS
    ensures frame == ReadRows(values[0], values[1])
  {
    var decoded: seq<Id> := [];
    for index := 0 to 2
      invariant |decoded| == index
      invariant index >= 1 ==> ReadRow(0, values[0]) == Decoded(decoded[0])
      invariant index >= 2 ==> ReadRow(1, values[1]) == Decoded(decoded[1])
    {
      match ReadRow(index, values[index])
      case Refused(reason) => return Unreadable(reason);
      case Decoded(id) => decoded := decoded + [id];
    }
    return if decoded[0] == decoded[1] then Clean(decoded[0]) else Torn(decoded[0], decoded[1]);
  }

  /** A torn frame always carries two different IDs, and no frame carries the zero ID. */
  lemma TornIdsDiffer(upper: seq<int>, lower: seq<int>)
    requires |upper| == |lower| == BITS
    ensures var frame := ReadRows(upper, lower);
            && (frame.Torn? ==> frame.upperId != frame.lowerId)
            && ZERO_ID !in FrameIds(frame)
  {
  }

  // ----- flipped cells -----

  /** One to three flipped cells in either row make the frame unreadable, whatever the other row holds. */
  lemma FlippedCellsUnreadable(upper: seq<int>, lower: seq<int>, id: Id)
    requires |upper| == |lower| == BITS
    requires 1 <= Distance(Decided(0, upper), Row(id)) <= 3 || 1 <= Distance(Decided(1, lower), Row(id)) <= 3
    ensures ReadRows(upper, lower).Unreadable?
  {
    if 1 <= Distance(Decided(0, upper), Row(id)) <= 3 {
      FlippedRowUnreadable(Decided(0, upper), id);
    } else {
      FlippedRowUnreadable(Decided(1, lower), id);
    }
  }

  // ----- noise -----

  /** What the painter puts in cell `k` of a row. */
  function CellValue(id: Id, row: nat, k: nat): int
    requires row < 2 && k < BITS
  {
    if Row(id)[k] != (row == 1) then LIGHT else BLACK
  }

  /** The samples of one painted row, each off by at most `noise`. */
  predicate Near(samples: seq<int>, id: Id, row: nat, noise: nat)
    requires row < 2
  {
    && |samples| == BITS
    && forall k | 0 <= k < BITS :: CellValue(id, row, k) - noise <= samples[k] <= CellValue(id, row, k) + noise
  }

  lemma NearRow(samples: seq<int>, id: Id, row: nat, noise: nat)
    requires row < 2 && id != ZERO_ID && noise <= 151 && Near(samples, id, row, noise)
    ensures noise <= 62 ==> ReadRow(row, samples) == Decoded(id)
    ensures ReadRow(row, samples) == Decoded(id) || ReadRow(row, samples) == Refused(Contrast(row))
  {
    if !exists k | 0 <= k < BITS :: Faint(samples[k]) {
      forall k | 0 <= k < BITS ensures Decided(row, samples)[k] == Row(id)[k] {
        assert !Faint(samples[k]);
      }
      assert Decided(row, samples) == Row(id);
      RowDecodes(id);
    }
  }

  /** Noise up to 62 still reads clean; up to 151 it may hide a frame but never
      invents or mixes IDs. */
  lemma NoiseMargin(upper: seq<int>, lower: seq<int>, id: Id, noise: nat)
    requires id != ZERO_ID && noise <= 151
    requires Near(upper, id, 0, noise) && Near(lower, id, 1, noise)
    ensures noise <= 62 ==> ReadRows(upper, lower) == Clean(id)
    ensures ReadRows(upper, lower) == Clean(id) || ReadRows(upper, lower).Unreadable?
  {
    NearRow(upper, id, 0, noise);
    NearRow(lower, id, 1, noise);
  }

  /** The first limit is exact: one more unit on a light cell hides the frame. */
  lemma NoiseLimitExact(id: Id)
    ensures exists upper, lower ::
              Near(upper, id, 0, 63) && Near(lower, id, 1, 63) && ReadRows(upper, lower).Unreadable?
  {
    var upper := seq(BITS, k requires 0 <= k < BITS => CellValue(id, 0, k));
    var lower := seq(BITS, k requires 0 <= k < BITS => CellValue(id, 1, k));
    assert SYNC[0] && Row(id)[0];
    var noisy := upper[0 := LIGHT - 63];
    assert Faint(noisy[0]);
    assert ReadRow(0, noisy) == Refused(Contrast(0));
    assert Near(noisy, id, 0, 63) && Near(lower, id, 1, 63);
  }

  /** An upper row whose four cells that differ from the neighbour's have faded to the margin. */
  function Faded(id: Id): (row: seq<int>)
    ensures |row| == BITS
  {
    seq(BITS, k requires 0 <= k < BITS => if k == 27 || k >= 33 then MIDDLE - MARGIN else CellValue(id, 0, k))
  }

  predicate FourLit(id: Id) {
    id.low.b0 && CrcOf(id).b2 && CrcOf(id).b1 && CrcOf(id).b0
  }

  lemma FadedDecides(id: Id)
    requires FourLit(id)
    ensures Decided(0, Faded(id)) == Row(Neighbour(id))
  {
    LitCells(id);
    NeighbourRow(id);
    forall k | 0 <= k < BITS ensures Decided(0, Faded(id))[k] == FourFlipped(Row(id))[k] {
      FourFlippedAt(Row(id), k);
    }
  }

  lemma FadedIsNear(id: Id)
    requires FourLit(id)
    ensures Near(Faded(id), id, 0, 152) && !exists k | 0 <= k < BITS :: Faint(Faded(id)[k])
  {
    LitCells(id);
  }

  /** The second limit is exact as well: one unit more can turn off four light cells at
      once, and where these are the ones that lead to the neighbour, the frame reads torn. */
  lemma NoiseMixes(id: Id) returns (upper: seq<int>, lower: seq<int>)
    requires FourLit(id) && Neighbour(id) != ZERO_ID
    ensures Near(upper, id, 0, 152) && Near(lower, id, 1, 152)
    ensures ReadRows(upper, lower) == Torn(Neighbour(id), id)
  {
    upper := Faded(id);
    lower := seq(BITS, k requires 0 <= k < BITS => CellValue(id, 1, k));
    FadedIsNear(id);
    FadedDecides(id);
    RowDecodes(Neighbour(id));
    NearRow(lower, id, 1, 0);
    assert !Neighbour(id).low.b0;
  }

  lemma LitCells(id: Id)
    ensures Row(id)[27] == id.low.b0
    ensures Row(id)[33] == CrcOf(id).b2 && Row(id)[34] == CrcOf(id).b1 && Row(id)[35] == CrcOf(id).b0
  {
    var row := Row(id);
    RowParts(id);
    assert row[20..28][7] == row[27] && row[28..][5] == row[33] && row[28..][6] == row[34] && row[28..][7] == row[35];
  }

  /** ID 9 is such an ID: noise of 152 can make it read torn with ID 8. */
  lemma NineCanMix() returns (upper: seq<int>, lower: seq<int>)
    ensures var nine := Id(ZERO, ZERO, NINE);
            && Near(upper, nine, 0, 152) && Near(lower, nine, 1, 152)
            && ReadRows(upper, lower) == Torn(Neighbour(nine), nine)
  {
    CrcOfNine();
    upper, lower := NoiseMixes(Id(ZERO, ZERO, NINE));
  }

  /** Rows spliced from two frames are torn, with exactly the two painted IDs. */
  lemma SplicedRowsTorn(upper: seq<int>, lower: seq<int>, first: Id, second: Id)
    requires first != ZERO_ID && second != ZERO_ID && first != second
    requires Near(upper, first, 0, 62) && Near(lower, second, 1, 62)
    ensures ReadRows(upper, lower) == Torn(first, second)
  {
    NearRow(upper, first, 0, 62);
    NearRow(lower, second, 1, 62);
  }
}
