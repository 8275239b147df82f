/** How `score` accounts for the compositor's presentations: the feedback it accepts, the
    presentations no capture decoded, and the vblanks nothing was presented for. */
module Presentations {
  import opened Options
  import W = Windows
  import Clock
  import opened Arithmetic

  datatype Row = Row(ident: nat, sequence: int, ns: int)

  // ----- feedback -----

  datatype Line = Present(row: Row) | Submit | Discard(ident: nat)

  datatype Feedback =
    | Accepted(presented: seq<Row>, discarded: set<nat>)
    | DuplicatePresentation
    | NothingPresented
    | PresentedAndDiscarded

  function PresentedIn(lines: seq<Line>): seq<Row> {
    if lines == [] then []
    else PresentedIn(lines[..|lines| - 1])
         + match lines[|lines| - 1] case Present(row) => [row] case _ => []
  }

  function DiscardedIn(lines: seq<Line>): set<nat> {
    if lines == [] then {}
    else DiscardedIn(lines[..|lines| - 1])
         + match lines[|lines| - 1] case Discard(id) => {id} case _ => {}
  }

  function IdentsOf(rows: seq<Row>): set<nat> {
    set row | row in rows :: row.ident
  }

  predicate DistinctIdents(rows: seq<Row>) {
    forall i, j | 0 <= i < j < |rows| :: rows[i].ident != rows[j].ident
  }

  /** `feedback`: accepted exactly when something was presented, no ID twice, and none
      of them also discarded. */
  method ReadFeedback(lines: seq<Line>) returns (f: Feedback)
    ensures f == DuplicatePresentation <==> !DistinctIdents(PresentedIn(lines))
    ensures f == NothingPresented <==> PresentedIn(lines) == []
    ensures f.Accepted? <==> && PresentedIn(lines) != []
                             && DistinctIdents(PresentedIn(lines))
                             && IdentsOf(PresentedIn(lines)) !! DiscardedIn(lines)
    ensures f.Accepted? ==> f.presented == PresentedIn(lines) && f.discarded == DiscardedIn(lines)
  {
    var presented: seq<Row>, known: set<nat> := [], {};
    var discarded: set<nat> := {};
    for k := 0 to |lines|
      invariant presented == PresentedIn(lines[..k]) && DistinctIdents(presented)
      invariant known == IdentsOf(presented) && discarded == DiscardedIn(lines[..k])
    {
      assert lines[..k + 1][..k] == lines[..k];
      match lines[k] {
        case Present(row) =>
          if row.ident in known {
            Repeated(presented, row);
            RepeatStays(lines, k + 1);
            return DuplicatePresentation;
          }
          StillDistinct(presented, row);
          presented, known := presented + [row], known + {row.ident};
        case Submit =>
        case Discard(id) =>
          discarded := discarded + {id};
      }
    }
    assert lines[..|lines|] == lines;
    if presented == [] {
      return NothingPresented;
    }
    Disjoint(known, discarded);
    if discarded * known != {} {
      return PresentedAndDiscarded;
    }
    return Accepted(presented, discarded);
  }

  lemma Disjoint(a: set<nat>, b: set<nat>)
    ensures b * a == {} <==> a !! b
  {
    if a !! b {
      assert b * a == {};
    } else {
      var x :| x in a && x in b;
      assert x in b * a;
    }
  }

  lemma Repeated(rows: seq<Row>, row: Row)
    requires row.ident in IdentsOf(rows)
    ensures !DistinctIdents(rows + [row])
  {
    var k :| 0 <= k < |rows| && rows[k].ident == row.ident;
    assert (rows + [row])[k].ident == (rows + [row])[|rows|].ident;
  }

  lemma StillDistinct(rows: seq<Row>, row: Row)
    requires DistinctIdents(rows) && row.ident !in IdentsOf(rows)
    ensures DistinctIdents(rows + [row])
    ensures IdentsOf(rows + [row]) == IdentsOf(rows) + {row.ident}
  {
  }

  lemma {:induction false} RepeatStays(lines: seq<Line>, k: nat)
    requires k <= |lines| && !DistinctIdents(PresentedIn(lines[..k]))
    ensures !DistinctIdents(PresentedIn(lines))
    decreases |lines| - k
  {
    if k == |lines| {
      assert lines[..k] == lines;
    } else {
      var was, now := PresentedIn(lines[..k]), PresentedIn(lines[..k + 1]);
      assert lines[..k + 1][..k] == lines[..k];
      var i, j :| 0 <= i < j < |was| && was[i].ident == was[j].ident;
      assert now[i] == was[i] && now[j] == was[j];
      RepeatStays(lines, k + 1);
    }
  }

  // ----- order by sequence -----

  predicate Sorted(rows: seq<Row>) {
    forall i, j | 0 <= i < j < |rows| :: rows[i].sequence <= rows[j].sequence
  }

  function Insert(rows: seq<Row>, row: Row): (r: seq<Row>)
    ensures |r| == |rows| + 1
  {
    if rows == [] || rows[|rows| - 1].sequence <= row.sequence then rows + [row]
    else Insert(rows[..|rows| - 1], row) + [rows[|rows| - 1]]
  }

  /** The stable sort by sequence number. */
  function BySequence(rows: seq<Row>): (r: seq<Row>)
    ensures |r| == |rows|
  {
    if rows == [] then [] else Insert(BySequence(rows[..|rows| - 1]), rows[|rows| - 1])
  }

  lemma {:induction false} InsertSorts(rows: seq<Row>, row: Row)
    requires Sorted(rows)
    ensures Sorted(Insert(rows, row))
    ensures multiset(Insert(rows, row)) == multiset(rows) + multiset{row}
  {
    if rows != [] && rows[|rows| - 1].sequence > row.sequence {
      var prefix, last := rows[..|rows| - 1], rows[|rows| - 1];
      assert rows == prefix + [last];
      InsertSorts(prefix, row);
      SortedSnoc(Insert(prefix, row), prefix, row, last);
      assert multiset(rows) == multiset(prefix) + multiset{last};
    }
  }

  lemma SortedSnoc(inserted: seq<Row>, prefix: seq<Row>, row: Row, last: Row)
    requires Sorted(inserted) && multiset(inserted) == multiset(prefix) + multiset{row}
    requires Sorted(prefix + [last]) && row.sequence <= last.sequence
    ensures Sorted(inserted + [last])
  {
    forall k | 0 <= k < |inserted| ensures inserted[k].sequence <= last.sequence {
      assert inserted[k] in multiset(inserted);
      if inserted[k] != row {
        assert inserted[k] in prefix;
        var j :| 0 <= j < |prefix| && prefix[j] == inserted[k];
        assert (prefix + [last])[j].sequence <= (prefix + [last])[|prefix|].sequence;
      }
    }
  }

  lemma {:induction false} SequenceSorts(rows: seq<Row>)
    ensures Sorted(BySequence(rows)) && multiset(BySequence(rows)) == multiset(rows)
  {
    if rows != [] {
      var prefix, last := rows[..|rows| - 1], rows[|rows| - 1];
      assert rows == prefix + [last];
      SequenceSorts(prefix);
      InsertSorts(BySequence(prefix), last);
    }
  }

  // ----- refused feedback -----

  predicate Precedes(a: Row, b: Row) {
    a.sequence < b.sequence && a.ns < b.ns
  }

  /** Sequence numbers and times rise together. */
  predicate Monotone(ordered: seq<Row>) {
    forall i, j | 0 <= i < j < |ordered| :: Precedes(ordered[i], ordered[j])
  }

  /** Two presentations neither of which precedes the other in both sequence and time. */
  predicate Clash(a: Row, b: Row) {
    !Precedes(a, b) && !Precedes(b, a)
  }

  predicate Clashes(rows: seq<Row>) {
    exists a, b :: a in rows && b in rows && a.ident != b.ident && Clash(a, b)
  }

  lemma DistinctByContent(rows: seq<Row>, other: seq<Row>)
    requires DistinctIdents(rows) && multiset(rows) == multiset(other)
    ensures DistinctIdents(other)
  {
    forall i, j | 0 <= i < j < |other| ensures other[i].ident != other[j].ident {
      if other[i].ident == other[j].ident {
        assert other[i] in multiset(rows) && other[j] in multiset(rows);
        assert other[i] == other[j];
        TwiceIn(other, i, j);
        OnceIn(rows, other[i]);
      }
    }
  }

  lemma TwiceIn(rows: seq<Row>, i: nat, j: nat)
    requires i < j < |rows| && rows[i] == rows[j]
    ensures multiset(rows)[rows[i]] >= 2
  {
    assert rows == rows[..j] + rows[j..];
    assert rows[..j][i] == rows[i] && rows[j..][0] == rows[i];
    assert rows[i] in multiset(rows[..j]) && rows[i] in multiset(rows[j..]);
  }

  lemma {:induction false} OnceIn(rows: seq<Row>, row: Row)
    requires DistinctIdents(rows)
    ensures multiset(rows)[row] <= 1
  {
    if rows != [] {
      var prefix, last := rows[..|rows| - 1], rows[|rows| - 1];
      assert rows == prefix + [last];
      OnceIn(prefix, row);
      if row == last {
        assert forall k | 0 <= k < |prefix| :: prefix[k].ident != rows[|prefix|].ident;
        assert row !in multiset(prefix);
      }
    }
  }

  /** The feedback is refused exactly when two of its presentations clash, in whatever
      order the lines came. */
  lemma RefusedExactly(rows: seq<Row>)
    requires DistinctIdents(rows)
    ensures Monotone(BySequence(rows)) <==> !Clashes(rows)
  {
    var ordered := BySequence(rows);
    SequenceSorts(rows);
    DistinctByContent(rows, ordered);
    if Monotone(ordered) {
      forall a, b | a in rows && b in rows && a.ident != b.ident ensures !Clash(a, b) {
        NoClash(ordered, rows, a, b);
      }
    } else {
      var i, j :| 0 <= i < j < |ordered| && !Precedes(ordered[i], ordered[j]);
      ClashFound(rows, ordered, i, j);
    }
  }

  lemma ClashFound(rows: seq<Row>, ordered: seq<Row>, i: nat, j: nat)
    requires Sorted(ordered) && DistinctIdents(ordered) && multiset(rows) == multiset(ordered)
    requires i < j < |ordered| && !Precedes(ordered[i], ordered[j])
    ensures Clashes(rows)
  {
    var a, b := ordered[i], ordered[j];
    assert a in multiset(rows) && b in multiset(rows);
    assert Clash(a, b);
  }

  lemma NoClash(ordered: seq<Row>, rows: seq<Row>, a: Row, b: Row)
    requires Monotone(ordered) && multiset(ordered) == multiset(rows)
    requires a in rows && b in rows && a.ident != b.ident
    ensures !Clash(a, b)
  {
    assert a in multiset(ordered) && b in multiset(ordered);
    var i :| 0 <= i < |ordered| && ordered[i] == a;
    var j :| 0 <= j < |ordered| && ordered[j] == b;
    assert Precedes(ordered[i], ordered[j]) || Precedes(ordered[j], ordered[i]);
  }

  // ----- the vblanks -----

  datatype Vblank = Vblank(sequence: int, ns: int)

  /** The estimated time of the missed vblank `step` after `a`. */
  function Estimate(a: Row, b: Row, step: int): int
    requires a.sequence < b.sequence
  {
    a.ns + (b.ns - a.ns) * step / (b.sequence - a.sequence)
  }

  /** The first `n` missed vblanks after `a`. */
  function Gap(a: Row, b: Row, n: nat): (g: seq<Vblank>)
    requires a.sequence < b.sequence
    ensures |g| == n
  {
    seq(n, k requires 0 <= k < n => Vblank(a.sequence + k + 1, Estimate(a, b, k + 1)))
  }

  function Misses(ordered: seq<Row>): seq<Vblank>
    requires Monotone(ordered)
  {
    if |ordered| <= 1 then [] else
      var a, b := ordered[|ordered| - 2], ordered[|ordered| - 1];
      Misses(ordered[..|ordered| - 1]) + Gap(a, b, b.sequence - a.sequence - 1)
  }

  function AsVblank(row: Row): Vblank {
    Vblank(row.sequence, row.ns)
  }

  function Presented(rows: seq<Row>): (v: seq<Vblank>)
    ensures |v| == |rows|
  {
    seq(|rows|, k requires 0 <= k < |rows| => AsVblank(rows[k]))
  }

  /** The timeline carried on from `a` to `b`. */
  function Extended(t: seq<Vblank>, a: Row, b: Row): seq<Vblank>
    requires a.sequence < b.sequence
  {
    t + Gap(a, b, b.sequence - a.sequence - 1) + [AsVblank(b)]
  }

  /** Presentations and misses merged in their order. */
  function Timeline(ordered: seq<Row>): seq<Vblank>
    requires Monotone(ordered)
  {
    if ordered == [] then []
    else if |ordered| == 1 then [AsVblank(ordered[0])]
    else
      var a, b := ordered[|ordered| - 2], ordered[|ordered| - 1];
      Extended(Timeline(ordered[..|ordered| - 1]), a, b)
  }

  /** Every estimate lies between its neighbours, in order. */
  lemma EstimateBetween(a: Row, b: Row, step: int, later: int)
    requires Precedes(a, b) && 0 <= step <= later < b.sequence - a.sequence
    ensures a.ns <= Estimate(a, b, step) <= Estimate(a, b, later) < b.ns
  {
    var d, h := b.sequence - a.sequence, b.ns - a.ns;
    PartOrder(h, 0, step, d);
    PartOrder(h, step, later, d);
    PartBelow(h, later, d);
  }

  lemma PartOrder(h: int, k: int, later: int, d: int)
    requires 0 <= k <= later && h > 0 && d > 0
    ensures 0 <= h * k / d <= h * later / d
  {
    TimesMonotone(0, k, h);
    TimesMonotone(k, later, h);
    Clock.DivisionMonotone(h * k, h * later, d);
    Clock.DivisionMonotone(0, h * k, d);
  }

  lemma PartBelow(h: int, k: int, d: int)
    requires 0 <= k < d && h > 0
    ensures h * k / d < h
  {
  }

  predicate InOrder(v: seq<Vblank>) {
    forall i, j | 0 <= i < j < |v| :: v[i].ns <= v[j].ns
  }

  predicate Consecutive(v: seq<Vblank>, first: int) {
    forall k | 0 <= k < |v| :: v[k].sequence == first + k
  }

  /** Every vblank from the first presentation to the last appears once, in order, as a
      presentation or a miss; its times never go back. */
  lemma {:induction false} TimelineComplete(ordered: seq<Row>)
    requires ordered != [] && Monotone(ordered)
    ensures var t, last := Timeline(ordered), ordered[|ordered| - 1];
            && |t| == last.sequence - ordered[0].sequence + 1
            && Consecutive(t, ordered[0].sequence)
            && InOrder(t)
            && t[|t| - 1] == AsVblank(last)
  {
    if |ordered| > 1 {
      var a, b := ordered[|ordered| - 2], ordered[|ordered| - 1];
      TimelineComplete(ordered[..|ordered| - 1]);
      OneMore(Timeline(ordered[..|ordered| - 1]), ordered[0].sequence, a, b);
    }
  }

  lemma OneMore(t: seq<Vblank>, first: int, a: Row, b: Row)
    requires t != [] && Consecutive(t, first) && InOrder(t) && t[|t| - 1] == AsVblank(a)
    requires Precedes(a, b)
    ensures var r := Extended(t, a, b);
            && |r| == |t| + b.sequence - a.sequence
            && r[|r| - 1] == AsVblank(b)
            && Consecutive(r, first)
            && InOrder(r)
  {
    var gap := Gap(a, b, b.sequence - a.sequence - 1);
    assert t[|t| - 1].sequence == first + |t| - 1;
    forall i, j | 0 <= i <= j < |gap| ensures a.ns <= gap[i].ns <= gap[j].ns < b.ns {
      EstimateBetween(a, b, i + 1, j + 1);
    }
    forall i | 0 <= i < |t| ensures t[i].ns <= a.ns {
      assert i < |t| - 1 ==> t[i].ns <= t[|t| - 1].ns;
    }
  }

  // ----- windows -----

  function MarkOf(l: W.Layout, toHost: int -> int, ns: int): (m: W.Mark)
    requires W.ValidLayout(l)
    ensures m.Some? ==> m.value <= l.count
  {
    var m := W.Bucket(l, toHost(ns));
    if m.Some? then W.BucketInRange(l, toHost(ns)); m else m
  }

  function Marks(l: W.Layout, toHost: int -> int, v: seq<Vblank>): (m: seq<W.Mark>)
    requires W.ValidLayout(l)
    ensures |m| == |v| && W.InRange(m, l.count)
  {
    seq(|v|, k requires 0 <= k < |v| => MarkOf(l, toHost, v[k].ns))
  }

  lemma MarksConcat(l: W.Layout, toHost: int -> int, u: seq<Vblank>, v: seq<Vblank>, m: W.Mark)
    requires W.ValidLayout(l)
    ensures Marks(l, toHost, u + v) == Marks(l, toHost, u) + Marks(l, toHost, v)
    ensures W.Tally(Marks(l, toHost, u + v), m) == W.Tally(Marks(l, toHost, u), m) + W.Tally(Marks(l, toHost, v), m)
  {
    assert Marks(l, toHost, u + v) == Marks(l, toHost, u) + Marks(l, toHost, v);
    W.TallyConcat(Marks(l, toHost, u), Marks(l, toHost, v), m);
  }

  /** In each window, and outside, the vblanks are the presentations and the misses. */
  lemma {:induction false} VblanksSplit(l: W.Layout, toHost: int -> int, ordered: seq<Row>, m: W.Mark)
    requires W.ValidLayout(l) && Monotone(ordered)
    ensures W.Tally(Marks(l, toHost, Timeline(ordered)), m)
         == W.Tally(Marks(l, toHost, Presented(ordered)), m) + W.Tally(Marks(l, toHost, Misses(ordered)), m)
  {
    if |ordered| == 1 {
      assert Presented(ordered) == [AsVblank(ordered[0])];
    } else if |ordered| > 1 {
      var prefix := ordered[..|ordered| - 1];
      var a, b := ordered[|ordered| - 2], ordered[|ordered| - 1];
      var gap := Gap(a, b, b.sequence - a.sequence - 1);
      VblanksSplit(l, toHost, prefix, m);
      assert Presented(ordered) == Presented(prefix) + [AsVblank(b)];
      MarksConcat(l, toHost, Presented(prefix), [AsVblank(b)], m);
      MarksConcat(l, toHost, Misses(prefix), gap, m);
      MarksConcat(l, toHost, Timeline(prefix) + gap, [AsVblank(b)], m);
      MarksConcat(l, toHost, Timeline(prefix), gap, m);
    }
  }

  /** The inner loop of `score`: the misses between two presentations. */
  method CountGap(l: W.Layout, toHost: int -> int, a: Row, b: Row, counts: seq<nat>, ghost before: seq<Vblank>)
    returns (r: seq<nat>)
    requires W.ValidLayout(l) && a.sequence < b.sequence
    requires W.Counts(counts, Marks(l, toHost, before), l.count)
    ensures W.Counts(r, Marks(l, toHost, before + Gap(a, b, b.sequence - a.sequence - 1)), l.count)
  {
    var gap := b.sequence - a.sequence;
    r := counts;
    assert before + Gap(a, b, 0) == before;
    for step := 1 to gap
      invariant W.Counts(r, Marks(l, toHost, before + Gap(a, b, step - 1)), l.count)
    {
      var target := W.Bucket(l, toHost(Estimate(a, b, step)));
      GapGrows(l, toHost, a, b, step, before, r);
      if target.Some? {
        r := r[target.value := r[target.value] + 1];
      }
    }
  }

  lemma GapGrows(l: W.Layout, toHost: int -> int, a: Row, b: Row, step: int, before: seq<Vblank>, r: seq<nat>)
    requires W.ValidLayout(l) && 1 <= step < b.sequence - a.sequence
    requires W.Counts(r, Marks(l, toHost, before + Gap(a, b, step - 1)), l.count)
    ensures var m := W.Bucket(l, toHost(Estimate(a, b, step)));
            && (m.Some? ==> m.value < |r|)
            && W.Counts(W.Bump(r, m), Marks(l, toHost, before + Gap(a, b, step)), l.count)
  {
    var v := Vblank(a.sequence + step, Estimate(a, b, step));
    var m := MarkOf(l, toHost, v.ns);
    assert before + Gap(a, b, step) == before + Gap(a, b, step - 1) + [v];
    MarksSnoc(l, toHost, before + Gap(a, b, step - 1), v);
    W.BumpCounts(r, Marks(l, toHost, before + Gap(a, b, step - 1)), m, l.count);
  }

  lemma MarksSnoc(l: W.Layout, toHost: int -> int, u: seq<Vblank>, v: Vblank)
    requires W.ValidLayout(l)
    ensures Marks(l, toHost, u + [v]) == Marks(l, toHost, u) + [MarkOf(l, toHost, v.ns)]
  {
  }

  lemma MissesSnoc(ordered: seq<Row>, k: nat)
    requires 1 <= k < |ordered| && Monotone(ordered[..k]) && Monotone(ordered[..k + 1])
    requires ordered[k - 1].sequence < ordered[k].sequence
    ensures var a, b := ordered[k - 1], ordered[k];
            Misses(ordered[..k + 1]) == Misses(ordered[..k]) + Gap(a, b, b.sequence - a.sequence - 1)
  {
    assert ordered[..k + 1][..k] == ordered[..k];
  }

  /** Checking adjacent presentations is enough. */
  lemma MonotoneSnoc(ordered: seq<Row>, k: nat)
    requires 1 <= k < |ordered| && Monotone(ordered[..k]) && Precedes(ordered[k - 1], ordered[k])
    ensures Monotone(ordered[..k + 1])
  {
  }

  /** The loop over adjacent presentations; None where the source raises. */
  method CountSourceMisses(l: W.Layout, toHost: int -> int, ordered: seq<Row>) returns (r: Option<seq<nat>>)
    requires W.ValidLayout(l) && ordered != []
    ensures r.Some? <==> Monotone(ordered)
    ensures r.Some? ==> W.Counts(r.value, Marks(l, toHost, Misses(ordered)), l.count)
  {
    var counts: seq<nat> := seq(l.count + 1, _ => 0);
    for k := 1 to |ordered|
      invariant Monotone(ordered[..k])
      invariant W.Counts(counts, Marks(l, toHost, Misses(ordered[..k])), l.count)
    {
      var a, b := ordered[k - 1], ordered[k];
      if b.sequence - a.sequence <= 0 || b.ns <= a.ns {
        assert !Precedes(ordered[k - 1], ordered[k]);
        return None;
      }
      MonotoneSnoc(ordered, k);
      MissesSnoc(ordered, k);
      counts := CountGap(l, toHost, a, b, counts, Misses(ordered[..k]));
    }
    assert ordered[..|ordered|] == ordered;
    return Some(counts);
  }

  // ----- captures -----

  /** The window of each presentation no readable frame showed. */
  function Missed(l: W.Layout, toHost: int -> int, rows: seq<Row>, seen: set<nat>): (m: seq<W.Mark>)
    requires W.ValidLayout(l)
    ensures |m| == |rows|
  {
    seq(|rows|, k requires 0 <= k < |rows| => if rows[k].ident in seen then None else MarkOf(l, toHost, rows[k].ns))
  }

  /** The window of each presentation some readable frame showed. */
  function Shown(l: W.Layout, toHost: int -> int, rows: seq<Row>, seen: set<nat>): (m: seq<W.Mark>)
    requires W.ValidLayout(l)
    ensures |m| == |rows|
  {
    seq(|rows|, k requires 0 <= k < |rows| => if rows[k].ident in seen then MarkOf(l, toHost, rows[k].ns) else None)
  }

  method CountCaptureMisses(l: W.Layout, toHost: int -> int, rows: seq<Row>, seen: set<nat>) returns (counts: seq<nat>)
    requires W.ValidLayout(l)
    ensures W.Counts(counts, Missed(l, toHost, rows, seen), l.count)
  {
    counts := seq(l.count + 1, _ => 0);
    for k := 0 to |rows|
      invariant W.Counts(counts, Missed(l, toHost, rows[..k], seen), l.count)
    {
      var target := W.Bucket(l, toHost(rows[k].ns));
      assert target == MarkOf(l, toHost, rows[k].ns);
      var mark := if rows[k].ident in seen then None else target;
      assert rows[..k + 1] == rows[..k] + [rows[k]];
      assert Missed(l, toHost, rows[..k + 1], seen) == Missed(l, toHost, rows[..k], seen) + [mark];
      W.BumpCounts(counts, Missed(l, toHost, rows[..k], seen), mark, l.count);
      if target.Some? && rows[k].ident !in seen {
        counts := counts[target.value := counts[target.value] + 1];
      }
    }
    assert rows[..|rows|] == rows;
  }

  /** The presented IDs of a window that no readable frame showed. */
  function MissedIn(l: W.Layout, toHost: int -> int, rows: seq<Row>, seen: set<nat>, b: nat): set<nat>
    requires W.ValidLayout(l)
  {
    set row | row in rows && row.ident !in seen && MarkOf(l, toHost, row.ns) == Some(b) :: row.ident
  }

  /** A window's presentations are the shown ones and the missed ones; its capture misses
      are exactly the distinct IDs presented there and never shown. */
  lemma {:induction false} CapturesSplit(l: W.Layout, toHost: int -> int, rows: seq<Row>, seen: set<nat>, b: nat)
    requires W.ValidLayout(l) && DistinctIdents(rows)
    ensures W.Tally(Marks(l, toHost, Presented(rows)), Some(b))
         == W.Tally(Shown(l, toHost, rows, seen), Some(b)) + W.Tally(Missed(l, toHost, rows, seen), Some(b))
    ensures W.Tally(Missed(l, toHost, rows, seen), Some(b)) == |MissedIn(l, toHost, rows, seen, b)|
  {
    if rows == [] {
      assert MissedIn(l, toHost, rows, seen, b) == {};
    } else {
      var prefix, last := rows[..|rows| - 1], rows[|rows| - 1];
      CapturesSplit(l, toHost, prefix, seen, b);
      OneRow(l, toHost, prefix, last, seen, b);
      assert rows == prefix + [last];
    }
  }

  /** What the last row adds to the three tallies and to the set of missed IDs. */
  lemma OneRow(l: W.Layout, toHost: int -> int, prefix: seq<Row>, last: Row, seen: set<nat>, b: nat)
    requires W.ValidLayout(l) && DistinctIdents(prefix + [last])
    ensures var rows, m := prefix + [last], Some(b);
            var here := MarkOf(l, toHost, last.ns) == m;
            && W.Tally(Marks(l, toHost, Presented(rows)), m)
               == W.Tally(Marks(l, toHost, Presented(prefix)), m) + (if here then 1 else 0)
            && W.Tally(Shown(l, toHost, rows, seen), m)
               == W.Tally(Shown(l, toHost, prefix, seen), m) + (if here && last.ident in seen then 1 else 0)
            && W.Tally(Missed(l, toHost, rows, seen), m)
               == W.Tally(Missed(l, toHost, prefix, seen), m) + (if here && last.ident !in seen then 1 else 0)
            && |MissedIn(l, toHost, rows, seen, b)|
               == |MissedIn(l, toHost, prefix, seen, b)| + (if here && last.ident !in seen then 1 else 0)
  {
    SnocTally(l, toHost, prefix, last, Some(b));
    ShownSnoc(l, toHost, prefix, last, seen);
    var mark := MarkOf(l, toHost, last.ns);
    W.TallySnoc(Shown(l, toHost, prefix, seen), if last.ident in seen then mark else None, Some(b));
    W.TallySnoc(Missed(l, toHost, prefix, seen), if last.ident in seen then None else mark, Some(b));
    MissedSnoc(l, toHost, prefix, last, seen, b);
  }

  lemma ShownSnoc(l: W.Layout, toHost: int -> int, prefix: seq<Row>, last: Row, seen: set<nat>)
    requires W.ValidLayout(l)
    ensures var mark := MarkOf(l, toHost, last.ns);
            && Shown(l, toHost, prefix + [last], seen)
               == Shown(l, toHost, prefix, seen) + [if last.ident in seen then mark else None]
            && Missed(l, toHost, prefix + [last], seen)
               == Missed(l, toHost, prefix, seen) + [if last.ident in seen then None else mark]
  {
  }

  lemma MissedSnoc(l: W.Layout, toHost: int -> int, prefix: seq<Row>, last: Row, seen: set<nat>, b: nat)
    requires W.ValidLayout(l) && DistinctIdents(prefix + [last])
    ensures MissedIn(l, toHost, prefix + [last], seen, b)
         == MissedIn(l, toHost, prefix, seen, b)
            + if MarkOf(l, toHost, last.ns) == Some(b) && last.ident !in seen then {last.ident} else {}
    ensures last.ident !in MissedIn(l, toHost, prefix, seen, b)
  {
    forall row | row in prefix ensures row.ident != last.ident {
      var k :| 0 <= k < |prefix| && prefix[k] == row;
      assert (prefix + [last])[k].ident != (prefix + [last])[|prefix|].ident;
    }
  }

  // ----- together -----

  lemma {:induction false} InsertTally(l: W.Layout, toHost: int -> int, rows: seq<Row>, row: Row, m: W.Mark)
    requires W.ValidLayout(l)
    ensures W.Tally(Marks(l, toHost, Presented(Insert(rows, row))), m)
         == W.Tally(Marks(l, toHost, Presented(rows + [row])), m)
  {
    if rows != [] && rows[|rows| - 1].sequence > row.sequence {
      var prefix, last := rows[..|rows| - 1], rows[|rows| - 1];
      assert rows == prefix + [last];
      InsertTally(l, toHost, prefix, row, m);
      SnocTally(l, toHost, Insert(prefix, row), last, m);
      SnocTally(l, toHost, prefix, row, m);
      SnocTally(l, toHost, prefix, last, m);
      SnocTally(l, toHost, rows, row, m);
    }
  }

  lemma SnocTally(l: W.Layout, toHost: int -> int, rows: seq<Row>, row: Row, m: W.Mark)
    requires W.ValidLayout(l)
    ensures W.Tally(Marks(l, toHost, Presented(rows + [row])), m)
         == W.Tally(Marks(l, toHost, Presented(rows)), m) + if MarkOf(l, toHost, row.ns) == m then 1 else 0
  {
    assert Marks(l, toHost, Presented(rows + [row])) == Marks(l, toHost, Presented(rows)) + [MarkOf(l, toHost, row.ns)];
    W.TallySnoc(Marks(l, toHost, Presented(rows)), MarkOf(l, toHost, row.ns), m);
  }

  lemma {:induction false} SortingTally(l: W.Layout, toHost: int -> int, rows: seq<Row>, m: W.Mark)
    requires W.ValidLayout(l)
    ensures W.Tally(Marks(l, toHost, Presented(BySequence(rows))), m) == W.Tally(Marks(l, toHost, Presented(rows)), m)
  {
    if rows != [] {
      var prefix, last := rows[..|rows| - 1], rows[|rows| - 1];
      assert rows == prefix + [last];
      SortingTally(l, toHost, prefix, m);
      InsertTally(l, toHost, BySequence(prefix), last, m);
      SnocTally(l, toHost, BySequence(prefix), last, m);
      SnocTally(l, toHost, prefix, last, m);
    }
  }

  /** Every vblank of a window was decoded somewhere, is one of its capture misses, or is
      one of its source misses. */
  lemma WindowAccounted(l: W.Layout, toHost: int -> int, rows: seq<Row>, seen: set<nat>, b: nat)
    requires W.ValidLayout(l) && DistinctIdents(rows) && Monotone(BySequence(rows))
    ensures W.Tally(Marks(l, toHost, Timeline(BySequence(rows))), Some(b))
         == W.Tally(Shown(l, toHost, rows, seen), Some(b))
          + W.Tally(Missed(l, toHost, rows, seen), Some(b))
          + W.Tally(Marks(l, toHost, Misses(BySequence(rows))), Some(b))
  {
    VblanksSplit(l, toHost, BySequence(rows), Some(b));
    SortingTally(l, toHost, rows, Some(b));
    CapturesSplit(l, toHost, rows, seen, b);
  }

  /** Over all windows and outside, presentations and source misses total the vblanks
      from the first presentation to the last. */
  lemma VblanksConserved(l: W.Layout, toHost: int -> int, rows: seq<Row>)
    requires W.ValidLayout(l) && rows != [] && Monotone(BySequence(rows))
    ensures var ordered := BySequence(rows);
            var misses, presented := Marks(l, toHost, Misses(ordered)), Marks(l, toHost, Presented(rows));
            W.Total(presented, l.count) + W.Tally(presented, None)
              + W.Total(misses, l.count) + W.Tally(misses, None)
            == ordered[|ordered| - 1].sequence - ordered[0].sequence + 1
  {
    var ordered := BySequence(rows);
    TimelineComplete(ordered);
    W.Conserved(Marks(l, toHost, Misses(ordered)), l.count);
    W.Conserved(Marks(l, toHost, Presented(rows)), l.count);
    TimelineLength(ordered);
  }

  lemma {:induction false} TimelineLength(ordered: seq<Row>)
    requires Monotone(ordered)
    ensures |Timeline(ordered)| == |ordered| + |Misses(ordered)|
  {
    if |ordered| > 1 {
      TimelineLength(ordered[..|ordered| - 1]);
    }
  }
}
