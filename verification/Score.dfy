/** `score` as a whole: what it refuses, what its report counts, and what a passed gate means. */
module Score {
  import opened Options
  import opened FrameReader
  import opened FrameCounts
  import W = Windows
  import P = Presentations

  datatype Problem =
    | NegativeBudget | CountsDiffer | BadReceiveClock | NoWindow | RecordingTooShort
    | BadFeedback | NonMonotonicFeedback

  datatype Report = Report(layout: W.Layout, frames: Counters, captureMisses: seq<nat>, sourceMisses: seq<nat>,
                           unreadable: nat, gate: bool)

  /** Uncovered and TooUnreadable are the invalid measurements that still carry a report. */
  datatype Outcome =
    | Raised(problem: Problem) | Uncovered(report: Report) | TooUnreadable(report: Report) | Scored(report: Report)

  // ----- what is refused -----

  predicate Forward(ms: seq<int>) {
    forall i, j | 0 <= i < j < |ms| :: ms[i] <= ms[j]
  }

  function WindowsIn(seconds: real, window: real): int
    requires window > 0.0
  {
    (seconds / window).Floor
  }

  predicate Recorded(l: W.Layout, lastMs: int) {
    (lastMs * 1_000_000) as real >= l.origin as real + (l.warmup + W.Duration(l)) * 1_000_000_000.0
  }

  function LayoutOf(ms: seq<int>, warmup: real, window: real, count: nat): W.Layout
    requires ms != []
  {
    W.Layout(ms[0] * 1_000_000, warmup, window, count)
  }

  predicate Acceptable(ids: seq<Frame>, ms: seq<int>, lines: seq<P.Line>, warmup: real, seconds: real, window: real,
                       budget: int)
    requires window > 0.0
  {
    && budget >= 0
    && |ids| == |ms|
    && ms != [] && Forward(ms)
    && WindowsIn(seconds, window) >= 1
    && Recorded(LayoutOf(ms, warmup, window, WindowsIn(seconds, window)), ms[|ms| - 1])
    && GoodFeedback(P.PresentedIn(lines), P.DiscardedIn(lines))
  }

  /** Something presented, no ID twice, none also discarded, and times following the
      sequence numbers strictly. */
  predicate GoodFeedback(rows: seq<P.Row>, discarded: set<nat>) {
    && rows != []
    && P.DistinctIdents(rows)
    && P.IdentsOf(rows) !! discarded
    && !P.Clashes(rows)
  }

  /** The check on neighbouring receive times. */
  method CheckForward(ms: seq<int>) returns (ok: bool)
    ensures ok <==> Forward(ms)
  {
    for k := 0 to |ms|
      invariant Forward(ms[..k])
    {
      if k > 0 && ms[k - 1] > ms[k] {
        return false;
      }
      ForwardSnoc(ms, k);
    }
    assert ms[..|ms|] == ms;
    return true;
  }

  lemma ForwardSnoc(ms: seq<int>, k: nat)
    requires k < |ms| && Forward(ms[..k]) && (k > 0 ==> ms[k - 1] <= ms[k])
    ensures Forward(ms[..k + 1])
  {
  }

  // ----- what a report says -----

  function Captures(ids: seq<Frame>, ms: seq<int>): (cs: seq<Capture>)
    requires |ids| == |ms|
    ensures |cs| == |ids|
  {
    seq(|ids|, k requires 0 <= k < |ids| => Capture(ids[k], ms[k]))
  }

  /** The counters are those of these captures and presentations. */
  predicate Accounts(r: Report, cs: seq<Capture>, rows: seq<P.Row>, toHost: int -> int) {
    && W.ValidLayout(r.layout)
    && Counted(r.frames, r.layout, cs, P.IdentsOf(rows))
    && W.Counts(r.captureMisses, P.Missed(r.layout, toHost, rows, Seen(cs)), r.layout.count)
    && P.Monotone(P.BySequence(rows))
    && W.Counts(r.sourceMisses, P.Marks(r.layout, toHost, P.Misses(P.BySequence(rows))), r.layout.count)
    && r.unreadable == W.Sum(r.frames.undecodable[1..])
  }

  /** No capture miss and no unreadable frame in any scored window. */
  predicate GateOpen(l: W.Layout, captureMisses: seq<nat>, undecodable: seq<nat>)
    requires |captureMisses| == |undecodable| == l.count + 1
  {
    forall b | 1 <= b <= l.count :: captureMisses[b] == 0 && undecodable[b] == 0
  }

  /** The windows whose presentations the feedback does not span. */
  predicate CoversWindow(l: W.Layout, first: int, last: int, index: nat) {
    && first as real <= l.origin as real + (l.warmup + index as real * l.window) * 1_000_000_000.0
    && last as real >= l.origin as real + (l.warmup + (index + 1) as real * l.window) * 1_000_000_000.0
  }

  predicate CoversAll(l: W.Layout, first: int, last: int) {
    forall index: nat | index < l.count :: CoversWindow(l, first, last, index)
  }

  lemma ScaledOrder(a: real, b: real, k: real)
    requires a <= b && k >= 0.0
    ensures a * k <= b * k
  {
  }

  /** Every window is covered exactly when the feedback spans the whole scored time. */
  lemma CoverageEnds(l: W.Layout, first: int, last: int)
    requires W.ValidLayout(l)
    ensures CoversAll(l, first, last)
       <==> && first as real <= l.origin as real + l.warmup * 1_000_000_000.0
            && last as real >= l.origin as real + (l.warmup + W.Duration(l)) * 1_000_000_000.0
  {
    if CoversAll(l, first, last) {
      assert CoversWindow(l, first, last, 0) && CoversWindow(l, first, last, l.count - 1);
      assert 0.0 * l.window == 0.0;
    } else {
      var index: nat :| index < l.count && !CoversWindow(l, first, last, index);
      ScaledOrder(0.0, index as real, l.window);
      ScaledOrder((index + 1) as real, l.count as real, l.window);
    }
  }

  // ----- the whole -----

  method Score(ids: seq<Frame>, ms: seq<int>, lines: seq<P.Line>, toHost: int -> int,
               warmup: real, seconds: real, window: real, budget: int) returns (outcome: Outcome)
    requires warmup >= 0.0 && window > 0.0
    ensures outcome.Raised? <==> !Acceptable(ids, ms, lines, warmup, seconds, window, budget)
    ensures !outcome.Raised? ==>
              && var rows, r := P.PresentedIn(lines), outcome.report;
              && r.layout == LayoutOf(ms, warmup, window, WindowsIn(seconds, window))
              && Accounts(r, Captures(ids, ms), rows, toHost)
              && var ordered := P.BySequence(rows);
              && var covered := CoversAll(r.layout, toHost(ordered[0].ns), toHost(ordered[|ordered| - 1].ns));
              && (outcome.Uncovered? <==> !covered)
              && (outcome.Scored? <==> covered && r.unreadable <= budget)
              && (r.gate <==> covered && GateOpen(r.layout, r.captureMisses, r.frames.undecodable))
  {
    if budget < 0 {
      return Raised(NegativeBudget);
    }
    if |ids| != |ms| {
      return Raised(CountsDiffer);
    }
    var forward := CheckForward(ms);
    if ms == [] || !forward {
      return Raised(BadReceiveClock);
    }
    var count := (seconds / window).Floor;
    if count < 1 {
      return Raised(NoWindow);
    }
    var l := LayoutOf(ms, warmup, window, count);
    if !Recorded(l, ms[|ms| - 1]) {
      return Raised(RecordingTooShort);
    }
    var feedback := P.ReadFeedback(lines);
    if !feedback.Accepted? {
      return Raised(BadFeedback);
    }
    outcome := Measure(l, Captures(ids, ms), feedback.presented, toHost, budget);
  }

  /** The measurement itself, once every input is accepted. */
  method Measure(l: W.Layout, cs: seq<Capture>, rows: seq<P.Row>, toHost: int -> int, budget: int)
    returns (outcome: Outcome)
    requires W.ValidLayout(l) && rows != [] && P.DistinctIdents(rows)
    ensures outcome.Raised? <==> P.Clashes(rows)
    ensures !outcome.Raised? ==>
              && var r := outcome.report;
              && r.layout == l
              && Accounts(r, cs, rows, toHost)
              && var ordered := P.BySequence(rows);
              && var covered := CoversAll(l, toHost(ordered[0].ns), toHost(ordered[|ordered| - 1].ns));
              && (outcome.Uncovered? <==> !covered)
              && (outcome.Scored? <==> covered && r.unreadable <= budget)
              && (r.gate <==> covered && GateOpen(l, r.captureMisses, r.frames.undecodable))
  {
    var frames := CountFrames(l, cs, P.IdentsOf(rows));
    var captureMisses := P.CountCaptureMisses(l, toHost, rows, Seen(cs));
    var ordered := P.BySequence(rows);
    P.RefusedExactly(rows);
    var sourceMisses := P.CountSourceMisses(l, toHost, ordered);
    if sourceMisses.None? {
      return Raised(NonMonotonicFeedback);
    }
    var covered := CoversAll(l, toHost(ordered[0].ns), toHost(ordered[|ordered| - 1].ns));
    var gate := GateOpen(l, captureMisses, frames.undecodable);
    var unreadable := W.Sum(frames.undecodable[1..]);
    if !covered {
      return Uncovered(Report(l, frames, captureMisses, sourceMisses.value, unreadable, false));
    }
    var report := Report(l, frames, captureMisses, sourceMisses.value, unreadable, gate);
    return if unreadable > budget then TooUnreadable(report) else Scored(report);
  }

  // ----- what a report means -----

  lemma {:induction false} NoneTallied(marks: seq<W.Mark>, m: W.Mark, k: nat)
    requires W.Tally(marks, m) == 0 && k < |marks|
    ensures marks[k] != m
  {
    if k < |marks| - 1 {
      NoneTallied(marks[..|marks| - 1], m, k);
    }
  }

  /** A passed gate: every frame of a scored window was read and every presentation of a
      scored window was shown by some readable frame. */
  lemma GateMeans(r: Report, cs: seq<Capture>, rows: seq<P.Row>, toHost: int -> int, b: nat)
    requires Accounts(r, cs, rows, toHost) && 1 <= b <= r.layout.count
    requires GateOpen(r.layout, r.captureMisses, r.frames.undecodable)
    ensures forall k | 0 <= k < |cs| && Target(r.layout, cs[k]) == Some(b) :: !cs[k].frame.Unreadable?
    ensures forall k | 0 <= k < |rows| && P.MarkOf(r.layout, toHost, rows[k].ns) == Some(b) :: rows[k].ident in Seen(cs)
  {
    var unreadable := OfKind(r.layout, cs, IsUnreadable);
    var missed := P.Missed(r.layout, toHost, rows, Seen(cs));
    assert W.Tally(unreadable, Some(b)) == 0 == W.Tally(missed, Some(b));
    forall k | 0 <= k < |cs| && Target(r.layout, cs[k]) == Some(b) ensures !cs[k].frame.Unreadable? {
      NoneTallied(unreadable, Some(b), k);
    }
    forall k | 0 <= k < |rows| && P.MarkOf(r.layout, toHost, rows[k].ns) == Some(b) ensures rows[k].ident in Seen(cs) {
      NoneTallied(missed, Some(b), k);
    }
  }

  /** The whole account of one window: its vblanks are the decoded presentations, the
      reported capture misses and the reported source misses; its frames are the clean
      ones, the reported torn ones and the reported unreadable ones. */
  lemma ReportAccounts(r: Report, cs: seq<Capture>, rows: seq<P.Row>, toHost: int -> int, b: nat)
    requires Accounts(r, cs, rows, toHost) && P.DistinctIdents(rows) && b <= r.layout.count
    ensures W.Tally(P.Marks(r.layout, toHost, P.Timeline(P.BySequence(rows))), Some(b))
         == W.Tally(P.Shown(r.layout, toHost, rows, Seen(cs)), Some(b)) + r.captureMisses[b] + r.sourceMisses[b]
    ensures r.frames.received[b]
         == W.Tally(OfKind(r.layout, cs, IsClean), Some(b)) + r.frames.torn[b] + r.frames.undecodable[b]
  {
    P.WindowAccounted(r.layout, toHost, rows, Seen(cs), b);
    FramesPartition(r.layout, cs, b);
  }

  /** When `read` made the frames, the reported new frames total the distinct IDs whose
      first frame lies in a window, and the unknown ones those never presented. */
  lemma NewFramesTotal(r: Report, cs: seq<Capture>, rows: seq<P.Row>, toHost: int -> int)
    requires Accounts(r, cs, rows, toHost) && Undoubled(cs)
    ensures W.Sum(r.frames.newFrames) == |FirstUpTo(r.layout, cs, {}, r.layout.count)|
    ensures W.Sum(r.frames.unpresented) == |FirstUpTo(r.layout, cs, P.IdentsOf(rows), r.layout.count)|
  {
    NewOverAll(r.layout, cs, {}, r.frames.newFrames, r.layout.count);
    NewOverAll(r.layout, cs, P.IdentsOf(rows), r.frames.unpresented, r.layout.count);
  }
}
