/** How `score` counts captured frames: each frame in one window as clean, torn or
    unreadable, and each ID as new in the window of the first frame that showed it. */
module FrameCounts {
  import opened Options
  import opened FrameCode
  import opened FrameRows
  import opened FrameReader
  import W = Windows

  // ----- IDs as integers -----

  /** Cells read as binary digits, most significant first. */
  function Value(cells: seq<bool>): nat {
    if cells == [] then 0 else 2 * Value(cells[..|cells| - 1]) + if cells[|cells| - 1] then 1 else 0
  }

  function Number(id: Id): nat {
    Value(IdCells(id))
  }

  lemma {:induction false} ValueInjective(a: seq<bool>, b: seq<bool>)
    requires |a| == |b| && Value(a) == Value(b)
    ensures a == b
  {
    if a != [] {
      var last := |a| - 1;
      ValueInjective(a[..last], b[..last]);
      assert a == a[..last] + [a[last]] && b == b[..last] + [b[last]];
    }
  }

  lemma IdParts(id: Id)
    ensures var c := IdCells(id); c[..8] == Cells(id.high) && c[8..16] == Cells(id.middle) && c[16..] == Cells(id.low)
  {
  }

  lemma NumberInjective(a: Id, b: Id)
    requires Number(a) == Number(b)
    ensures a == b
  {
    ValueInjective(IdCells(a), IdCells(b));
    IdParts(a);
    IdParts(b);
    CellsInjective(a.high, b.high);
    CellsInjective(a.middle, b.middle);
    CellsInjective(a.low, b.low);
  }

  /** `frame_ids`. */
  function Idents(f: Frame): (ids: seq<nat>)
    ensures |ids| == |FrameIds(f)|
  {
    match f
    case Clean(id) => [Number(id)]
    case Torn(upper, lower) => [Number(upper), Number(lower)]
    case Unreadable(_) => []
  }

  /** A torn frame with one ID twice, which `read` never reports. */
  predicate Double(f: Frame) {
    f.Torn? && Number(f.upperId) == Number(f.lowerId)
  }

  lemma ReadNeverDouble(upper: seq<int>, lower: seq<int>)
    requires |upper| == |lower| == BITS
    ensures !Double(ReadRows(upper, lower))
  {
    TornIdsDiffer(upper, lower);
    var frame := ReadRows(upper, lower);
    if Double(frame) {
      NumberInjective(frame.upperId, frame.lowerId);
    }
  }

  // ----- frames by kind -----

  datatype Capture = Capture(frame: Frame, ms: int)

  datatype Kind = IsClean | IsTorn | IsUnreadable

  function KindOf(f: Frame): Kind {
    match f
    case Clean(_) => IsClean
    case Torn(_, _) => IsTorn
    case Unreadable(_) => IsUnreadable
  }

  function Target(l: W.Layout, c: Capture): (m: W.Mark)
    requires W.ValidLayout(l)
    ensures m.Some? ==> m.value <= l.count
  {
    var m := W.Bucket(l, c.ms * 1_000_000);
    if m.Some? then W.BucketInRange(l, c.ms * 1_000_000); m else m
  }

  function Received(l: W.Layout, cs: seq<Capture>): (marks: seq<W.Mark>)
    requires W.ValidLayout(l)
    ensures |marks| == |cs|
  {
    seq(|cs|, k requires 0 <= k < |cs| => Target(l, cs[k]))
  }

  /** The window of each frame of one kind; None for the others. */
  function OfKind(l: W.Layout, cs: seq<Capture>, kind: Kind): (marks: seq<W.Mark>)
    requires W.ValidLayout(l)
    ensures |marks| == |cs|
  {
    seq(|cs|, k requires 0 <= k < |cs| => KindMark(l, cs[k], kind))
  }

  function KindMark(l: W.Layout, c: Capture, kind: Kind): W.Mark
    requires W.ValidLayout(l)
  {
    if KindOf(c.frame) == kind then Target(l, c) else None
  }

  lemma ReceivedSnoc(l: W.Layout, cs: seq<Capture>, c: Capture)
    requires W.ValidLayout(l)
    ensures Received(l, cs + [c]) == Received(l, cs) + [Target(l, c)]
  {
  }

  lemma OfKindSnoc(l: W.Layout, cs: seq<Capture>, c: Capture, kind: Kind)
    requires W.ValidLayout(l)
    ensures OfKind(l, cs + [c], kind) == OfKind(l, cs, kind) + [KindMark(l, c, kind)]
  {
  }

  /** Each frame in a window is counted there as exactly one of clean, torn or unreadable. */
  lemma {:induction false} FramesPartition(l: W.Layout, cs: seq<Capture>, b: nat)
    requires W.ValidLayout(l)
    ensures W.Tally(Received(l, cs), Some(b))
         == W.Tally(OfKind(l, cs, IsClean), Some(b))
          + W.Tally(OfKind(l, cs, IsTorn), Some(b))
          + W.Tally(OfKind(l, cs, IsUnreadable), Some(b))
  {
    if cs != [] {
      var prefix, c := cs[..|cs| - 1], cs[|cs| - 1];
      assert cs == prefix + [c];
      FramesPartition(l, prefix, b);
      ReceivedSnoc(l, prefix, c);
      W.TallySnoc(Received(l, prefix), Target(l, c), Some(b));
      KindTally(l, prefix, c, IsClean, b);
      KindTally(l, prefix, c, IsTorn, b);
      KindTally(l, prefix, c, IsUnreadable, b);
    }
  }

  lemma KindTally(l: W.Layout, prefix: seq<Capture>, c: Capture, kind: Kind, b: nat)
    requires W.ValidLayout(l)
    ensures W.Tally(OfKind(l, prefix + [c], kind), Some(b))
         == W.Tally(OfKind(l, prefix, kind), Some(b)) + if KindMark(l, c, kind) == Some(b) then 1 else 0
  {
    OfKindSnoc(l, prefix, c, kind);
    W.TallySnoc(OfKind(l, prefix, kind), KindMark(l, c, kind), Some(b));
  }

  // ----- new IDs -----

  function IdSet(ids: seq<nat>): set<nat> {
    set id | id in ids
  }

  /** Every ID that some frame shows: `seen` for the whole recording, `observed` for a prefix. */
  function Seen(cs: seq<Capture>): set<nat> {
    if cs == [] then {} else Seen(cs[..|cs| - 1]) + IdSet(Idents(cs[|cs| - 1].frame))
  }

  /** The IDs of one frame that count: those not observed and not skipped, in order. */
  function Fresh(ids: seq<nat>, observed: set<nat>, skip: set<nat>): seq<nat> {
    if ids == [] then []
    else Fresh(ids[..|ids| - 1], observed, skip)
         + if ids[|ids| - 1] in observed || ids[|ids| - 1] in skip then [] else [ids[|ids| - 1]]
  }

  /** What the two new-ID counters add: one for each fresh ID of each frame in a window. */
  function NewIn(l: W.Layout, cs: seq<Capture>, skip: set<nat>, b: nat): nat
    requires W.ValidLayout(l)
  {
    if cs == [] then 0 else
      var prefix, c := cs[..|cs| - 1], cs[|cs| - 1];
      NewIn(l, prefix, skip, b)
      + if Target(l, c) == Some(b) then |Fresh(Idents(c.frame), Seen(prefix), skip)| else 0
  }

  /** The index of the first frame that shows an ID. */
  function First(cs: seq<Capture>, id: nat): (k: nat)
    requires id in Seen(cs)
    ensures k < |cs|
  {
    if id in Seen(cs[..|cs| - 1]) then First(cs[..|cs| - 1], id) else |cs| - 1
  }

  lemma {:induction false} FirstIsFirst(cs: seq<Capture>, id: nat)
    requires id in Seen(cs)
    ensures id in Idents(cs[First(cs, id)].frame)
    ensures forall j | 0 <= j < First(cs, id) :: id !in Idents(cs[j].frame)
  {
    var prefix := cs[..|cs| - 1];
    if id in Seen(prefix) {
      FirstIsFirst(prefix, id);
      var k := First(prefix, id);
      assert prefix[k] == cs[k];
      forall j | 0 <= j < k ensures id !in Idents(cs[j].frame) {
        assert prefix[j] == cs[j];
      }
    } else {
      forall j | 0 <= j < |prefix| ensures id !in Idents(cs[j].frame) {
        NotSeen(prefix, id, j);
      }
    }
  }

  lemma {:induction false} NotSeen(cs: seq<Capture>, id: nat, j: nat)
    requires id !in Seen(cs) && j < |cs|
    ensures id !in Idents(cs[j].frame)
  {
    if j == |cs| - 1 {
      assert id !in IdSet(Idents(cs[j].frame));
    } else {
      NotSeen(cs[..|cs| - 1], id, j);
    }
  }

  /** The IDs whose first frame lies in bucket `b`. */
  function FirstIn(l: W.Layout, cs: seq<Capture>, skip: set<nat>, b: nat): set<nat>
    requires W.ValidLayout(l)
  {
    set id | id in Seen(cs) && id !in skip && Target(l, cs[First(cs, id)]) == Some(b)
  }

  /** Doubled frames in bucket `b` whose one ID counts as new. */
  function DoublesIn(l: W.Layout, cs: seq<Capture>, skip: set<nat>, b: nat): nat
    requires W.ValidLayout(l)
  {
    if cs == [] then 0 else
      var prefix, c := cs[..|cs| - 1], cs[|cs| - 1];
      DoublesIn(l, prefix, skip, b)
      + if Target(l, c) == Some(b) && Double(c.frame) && Number(c.frame.upperId) !in Seen(prefix) + skip then 1 else 0
  }

  lemma FirstInSnoc(l: W.Layout, prefix: seq<Capture>, c: Capture, skip: set<nat>, b: nat)
    requires W.ValidLayout(l)
    ensures FirstIn(l, prefix + [c], skip, b)
         == FirstIn(l, prefix, skip, b)
          + if Target(l, c) == Some(b) then Left(Idents(c.frame), Seen(prefix), skip) else {}
  {
  }

  /** The new IDs of one frame, as a set. */
  function Left(ids: seq<nat>, observed: set<nat>, skip: set<nat>): set<nat> {
    IdSet(ids) - observed - skip
  }

  lemma FreshSize(f: Frame, observed: set<nat>, skip: set<nat>)
    ensures |Fresh(Idents(f), observed, skip)|
         == |Left(Idents(f), observed, skip)| + if Double(f) && Number(f.upperId) !in observed + skip then 1 else 0
  {
    match f
    case Unreadable(_) => assert Left([], observed, skip) == {};
    case Clean(id) => FreshOneId(Number(id), observed, skip);
    case Torn(upper, lower) => FreshTwoIds(Number(upper), Number(lower), observed, skip);
  }

  lemma FreshOneId(id: nat, observed: set<nat>, skip: set<nat>)
    ensures Fresh([id], observed, skip) == if id in observed + skip then [] else [id]
    ensures Left([id], observed, skip) == Unless(id, observed + skip)
  {
  }

  lemma FreshTwoIds(a: nat, b: nat, observed: set<nat>, skip: set<nat>)
    ensures |Fresh([a, b], observed, skip)|
         == |Left([a, b], observed, skip)| + if a == b && a !in observed + skip then 1 else 0
  {
    var known := observed + skip;
    FreshOneId(a, observed, skip);
    FreshOneId(b, observed, skip);
    FreshOne([a], b, observed, skip);
    TwoSizes(a, b, known);
    TwoLeft(a, b, observed, skip);
  }

  lemma TwoLeft(a: nat, b: nat, observed: set<nat>, skip: set<nat>)
    ensures [a] + [b] == [a, b]
    ensures Left([a, b], observed, skip) == Left([a], observed, skip) + Left([b], observed, skip)
  {
  }

  function Unless(id: nat, known: set<nat>): set<nat> {
    if id in known then {} else {id}
  }

  lemma TwoSizes(a: nat, b: nat, known: set<nat>)
    ensures |Unless(a, known) + Unless(b, known)|
         == (if a in known then 0 else 1) + if b in known || a == b then 0 else 1
  {
  }

  lemma FreshOne(ids: seq<nat>, id: nat, observed: set<nat>, skip: set<nat>)
    ensures Fresh(ids + [id], observed, skip)
         == Fresh(ids, observed, skip) + if id in observed || id in skip then [] else [id]
  {
  }

  /** New frames in a bucket are the distinct IDs first seen there, plus one for each
      doubled frame; so they are exactly the distinct IDs when `read` made the frames. */
  lemma {:induction false} NewAreFirstSeen(l: W.Layout, cs: seq<Capture>, skip: set<nat>, b: nat)
    requires W.ValidLayout(l)
    ensures NewIn(l, cs, skip, b) == |FirstIn(l, cs, skip, b)| + DoublesIn(l, cs, skip, b)
  {
    if cs == [] {
      assert FirstIn(l, cs, skip, b) == {};
    } else {
      var prefix, c := cs[..|cs| - 1], cs[|cs| - 1];
      assert cs == prefix + [c];
      NewAreFirstSeen(l, prefix, skip, b);
      FirstInSnoc(l, prefix, c, skip, b);
      FreshSize(c.frame, Seen(prefix), skip);
      assert FirstIn(l, prefix, skip, b) !! (Left(Idents(c.frame), Seen(prefix), skip));
    }
  }

  predicate Undoubled(cs: seq<Capture>) {
    forall k | 0 <= k < |cs| :: !Double(cs[k].frame)
  }

  lemma {:induction false} NoDoubles(l: W.Layout, cs: seq<Capture>, skip: set<nat>, b: nat)
    requires W.ValidLayout(l) && Undoubled(cs)
    ensures DoublesIn(l, cs, skip, b) == 0
    ensures NewIn(l, cs, skip, b) == |FirstIn(l, cs, skip, b)|
  {
    NewAreFirstSeen(l, cs, skip, b);
    if cs != [] {
      NoDoubles(l, cs[..|cs| - 1], skip, b);
    }
  }

  // ----- over all windows -----

  /** The IDs first seen in a frame of any bucket up to `top`. */
  function FirstUpTo(l: W.Layout, cs: seq<Capture>, skip: set<nat>, top: nat): set<nat>
    requires W.ValidLayout(l)
  {
    set id | id in Seen(cs) && id !in skip
           && var m := Target(l, cs[First(cs, id)]); m.Some? && m.value <= top
  }

  lemma FirstUpToZero(l: W.Layout, cs: seq<Capture>, skip: set<nat>)
    requires W.ValidLayout(l)
    ensures FirstUpTo(l, cs, skip, 0) == FirstIn(l, cs, skip, 0)
  {
  }

  lemma FirstUpToSplits(l: W.Layout, cs: seq<Capture>, skip: set<nat>, top: nat)
    requires W.ValidLayout(l) && top > 0
    ensures FirstUpTo(l, cs, skip, top) == FirstUpTo(l, cs, skip, top - 1) + FirstIn(l, cs, skip, top)
    ensures FirstUpTo(l, cs, skip, top - 1) !! FirstIn(l, cs, skip, top)
  {
  }

  /** The counters of all buckets together are the distinct IDs first seen in a bucketed frame. */
  lemma {:induction false} NewOverAll(l: W.Layout, cs: seq<Capture>, skip: set<nat>, counts: seq<nat>, top: nat)
    requires W.ValidLayout(l) && Undoubled(cs) && |counts| == top + 1
    requires forall b | 0 <= b <= top :: counts[b] == NewIn(l, cs, skip, b)
    ensures W.Sum(counts) == |FirstUpTo(l, cs, skip, top)|
  {
    NoDoubles(l, cs, skip, top);
    if top == 0 {
      assert counts[..0] == [];
      FirstUpToZero(l, cs, skip);
    } else {
      NewOverAll(l, cs, skip, counts[..top], top - 1);
      FirstUpToSplits(l, cs, skip, top);
    }
  }

  // ----- the loop -----

  predicate NewCounts(counts: seq<nat>, l: W.Layout, cs: seq<Capture>, skip: set<nat>)
    requires W.ValidLayout(l)
  {
    && |counts| == l.count + 1
    && forall b | 0 <= b <= l.count :: counts[b] == NewIn(l, cs, skip, b)
  }

  /** One frame's additions to a new-ID counter. */
  function Raise(counts: seq<nat>, m: W.Mark, n: nat): (r: seq<nat>)
    requires m.Some? ==> m.value < |counts|
    ensures |r| == |counts|
  {
    if m.Some? then counts[m.value := counts[m.value] + n] else counts
  }

  lemma NewCountsSnoc(counts: seq<nat>, l: W.Layout, prefix: seq<Capture>, c: Capture, skip: set<nat>)
    requires W.ValidLayout(l) && NewCounts(counts, l, prefix, skip)
    ensures NewCounts(Raise(counts, Target(l, c), |Fresh(Idents(c.frame), Seen(prefix), skip)|), l, prefix + [c], skip)
  {
  }

  /** The inner loop of `score` over one frame's IDs. */
  method CountNew(values: seq<nat>, unpresented: seq<nat>, m: nat, ids: seq<nat>,
                  observed: set<nat>, presented: set<nat>)
    returns (values': seq<nat>, unpresented': seq<nat>)
    requires m < |values| == |unpresented|
    ensures values' == Raise(values, Some(m), |Fresh(ids, observed, {})|)
    ensures unpresented' == Raise(unpresented, Some(m), |Fresh(ids, observed, presented)|)
  {
    values', unpresented' := values, unpresented;
    for k := 0 to |ids|
      invariant values' == Raise(values, Some(m), |Fresh(ids[..k], observed, {})|)
      invariant unpresented' == Raise(unpresented, Some(m), |Fresh(ids[..k], observed, presented)|)
    {
      assert ids[..k + 1] == ids[..k] + [ids[k]];
      FreshOne(ids[..k], ids[k], observed, {});
      FreshOne(ids[..k], ids[k], observed, presented);
      if ids[k] in observed {
        continue;
      }
      values' := values'[m := values'[m] + 1];
      if ids[k] !in presented {
        unpresented' := unpresented'[m := unpresented'[m] + 1];
      }
    }
    assert ids[..|ids|] == ids;
  }

  datatype Counters = Counters(received: seq<nat>, torn: seq<nat>, undecodable: seq<nat>,
                               newFrames: seq<nat>, unpresented: seq<nat>)

  predicate Counted(n: Counters, l: W.Layout, cs: seq<Capture>, presented: set<nat>)
    requires W.ValidLayout(l)
  {
    && W.Counts(n.received, Received(l, cs), l.count)
    && W.Counts(n.torn, OfKind(l, cs, IsTorn), l.count)
    && W.Counts(n.undecodable, OfKind(l, cs, IsUnreadable), l.count)
    && NewCounts(n.newFrames, l, cs, {})
    && NewCounts(n.unpresented, l, cs, presented)
  }

  function Empty(l: W.Layout): Counters {
    var zero := seq(l.count + 1, _ => 0);
    Counters(zero, zero, zero, zero, zero)
  }

  lemma EmptyCounts(l: W.Layout, presented: set<nat>)
    requires W.ValidLayout(l)
    ensures Counted(Empty(l), l, [], presented)
  {
  }

  predicate Shaped(n: Counters, l: W.Layout) {
    |n.received| == |n.torn| == |n.undecodable| == |n.newFrames| == |n.unpresented| == l.count + 1
  }

  /** What one frame adds. */
  function Added(n: Counters, l: W.Layout, c: Capture, observed: set<nat>, presented: set<nat>): Counters
    requires W.ValidLayout(l) && Shaped(n, l)
  {
    var t := Target(l, c);
    Counters(W.Bump(n.received, t),
             W.Bump(n.torn, KindMark(l, c, IsTorn)),
             W.Bump(n.undecodable, KindMark(l, c, IsUnreadable)),
             Raise(n.newFrames, t, |Fresh(Idents(c.frame), observed, {})|),
             Raise(n.unpresented, t, |Fresh(Idents(c.frame), observed, presented)|))
  }

  lemma AddedCounts(n: Counters, l: W.Layout, prefix: seq<Capture>, c: Capture, presented: set<nat>)
    requires W.ValidLayout(l) && Counted(n, l, prefix, presented)
    ensures Counted(Added(n, l, c, Seen(prefix), presented), l, prefix + [c], presented)
  {
    ReceivedSnoc(l, prefix, c);
    OfKindSnoc(l, prefix, c, IsTorn);
    OfKindSnoc(l, prefix, c, IsUnreadable);
    W.BumpCounts(n.received, Received(l, prefix), Target(l, c), l.count);
    W.BumpCounts(n.torn, OfKind(l, prefix, IsTorn), KindMark(l, c, IsTorn), l.count);
    W.BumpCounts(n.undecodable, OfKind(l, prefix, IsUnreadable), KindMark(l, c, IsUnreadable), l.count);
    NewCountsSnoc(n.newFrames, l, prefix, c, {});
    NewCountsSnoc(n.unpresented, l, prefix, c, presented);
  }

  /** One turn of the frame loop. */
  method AddFrame(n: Counters, l: W.Layout, c: Capture, observed: set<nat>, presented: set<nat>) returns (r: Counters)
    requires W.ValidLayout(l) && Shaped(n, l)
    ensures r == Added(n, l, c, observed, presented)
  {
    var target := W.Bucket(l, c.ms * 1_000_000);
    assert target == Target(l, c);
    r := n;
    if target.Some? {
      var b := target.value;
      r := r.(received := r.received[b := r.received[b] + 1]);
      if c.frame.Unreadable? {
        r := r.(undecodable := r.undecodable[b := r.undecodable[b] + 1]);
        assert Idents(c.frame) == [];
      } else {
        if c.frame.Torn? {
          r := r.(torn := r.torn[b := r.torn[b] + 1]);
        }
        var novel, unknown := CountNew(r.newFrames, r.unpresented, b, Idents(c.frame), observed, presented);
        r := r.(newFrames := novel, unpresented := unknown);
      }
    }
  }

  lemma SeenSnoc(cs: seq<Capture>, k: nat)
    requires k < |cs|
    ensures cs[..k + 1] == cs[..k] + [cs[k]]
    ensures Seen(cs[..k + 1]) == Seen(cs[..k]) + IdSet(Idents(cs[k].frame))
  {
  }

  /** The frame loop of `score`. */
  method CountFrames(l: W.Layout, cs: seq<Capture>, presented: set<nat>) returns (n: Counters)
    requires W.ValidLayout(l)
    ensures Counted(n, l, cs, presented)
  {
    n := Empty(l);
    EmptyCounts(l, presented);
    var observed: set<nat> := {};
    for k := 0 to |cs|
      invariant Counted(n, l, cs[..k], presented) && observed == Seen(cs[..k])
    {
      SeenSnoc(cs, k);
      AddedCounts(n, l, cs[..k], cs[k], presented);
      n := AddFrame(n, l, cs[k], observed, presented);
      observed := observed + IdSet(Idents(cs[k].frame));
    }
    assert cs[..|cs|] == cs;
  }
}
