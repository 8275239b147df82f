/** The receive-clock windows of `score` and how events are tallied into them. Window
    lengths are reals in seconds; times are exact nanoseconds. */
module Windows {
  import opened Options

  /** The warm-up is bucket 0; the complete scored windows are buckets 1 to `count`. */
  datatype Layout = Layout(origin: int, warmup: real, window: real, count: nat)

  predicate ValidLayout(l: Layout) {
    l.warmup >= 0.0 && l.window > 0.0 && l.count >= 1
  }

  function Duration(l: Layout): real {
    l.count as real * l.window
  }

  function Elapsed(l: Layout, ns: int): real {
    (ns - l.origin) as real / 1_000_000_000.0
  }

  /** `bucket` in `score`. */
  function Bucket(l: Layout, ns: int): (b: Option<nat>)
    requires ValidLayout(l)
  {
    var elapsed := Elapsed(l, ns);
    if 0.0 <= elapsed < l.warmup then Some(0)
    else if l.warmup <= elapsed < l.warmup + Duration(l) then
      assert (elapsed - l.warmup) / l.window >= 0.0;
      Some(((elapsed - l.warmup) / l.window).Floor + 1)
    else None
  }

  lemma ScaledBelow(x: real, w: real, k: real)
    requires w > 0.0
    ensures x < k * w <==> x / w < k
    ensures k * w <= x <==> k <= x / w
  {
  }

  lemma FloorIs(x: real, k: int)
    ensures x.Floor == k <==> k as real <= x < (k + 1) as real
  {
  }

  /** Bucket b is exactly the half-open interval of its window, and no bucket is past the last. */
  lemma BucketInterval(l: Layout, ns: int, b: nat)
    requires ValidLayout(l) && b >= 1
    ensures var from := l.warmup + (b - 1) as real * l.window;
            Bucket(l, ns) == Some(b) <==> b <= l.count && from <= Elapsed(l, ns) < from + l.window
  {
    var x := Elapsed(l, ns) - l.warmup;
    ScaledBelow(x, l.window, (b - 1) as real);
    ScaledBelow(x, l.window, b as real);
    ScaledBelow(x, l.window, l.count as real);
    ScaledBelow(x, l.window, 0.0);
    FloorIs(x / l.window, b - 1);
    assert b as real * l.window == (b - 1) as real * l.window + l.window;
    WholeBelow(b, l.count, x / l.window);
  }

  /** The warm-up is bucket 0, and only times before the recording or past the last window
      are outside. */
  lemma BucketElsewhere(l: Layout, ns: int)
    requires ValidLayout(l)
    ensures Bucket(l, ns) == Some(0) <==> 0.0 <= Elapsed(l, ns) < l.warmup
    ensures Bucket(l, ns) == None <==> Elapsed(l, ns) < 0.0 || l.warmup + Duration(l) <= Elapsed(l, ns)
  {
  }

  lemma WholeBelow(b: nat, count: nat, x: real)
    ensures (b - 1) as real <= x < b as real && x < count as real ==> b <= count
    ensures b <= count && x < b as real ==> x < count as real
  {
  }

  lemma BucketInRange(l: Layout, ns: int)
    requires ValidLayout(l) && Bucket(l, ns).Some?
    ensures Bucket(l, ns).value <= l.count
  {
    if Bucket(l, ns).value >= 1 {
      BucketInterval(l, ns, Bucket(l, ns).value);
    }
  }

  // ----- tallies -----

  type Mark = Option<nat>

  predicate InRange(marks: seq<Mark>, count: nat) {
    forall k | 0 <= k < |marks| :: marks[k].Some? ==> marks[k].value <= count
  }

  function Tally(marks: seq<Mark>, m: Mark): nat {
    if marks == [] then 0 else (if marks[|marks| - 1] == m then 1 else 0) + Tally(marks[..|marks| - 1], m)
  }

  /** The total over the buckets 0 to `top`. */
  function Total(marks: seq<Mark>, top: nat): nat {
    Tally(marks, Some(top)) + if top == 0 then 0 else Total(marks, top - 1)
  }

  lemma TallySnoc(marks: seq<Mark>, last: Mark, m: Mark)
    ensures Tally(marks + [last], m) == Tally(marks, m) + if last == m then 1 else 0
  {
  }

  lemma {:induction false} TallyConcat(a: seq<Mark>, b: seq<Mark>, m: Mark)
    ensures Tally(a + b, m) == Tally(a, m) + Tally(b, m)
  {
    if b == [] {
      assert a + b == a;
    } else {
      var last := |b| - 1;
      assert a + b == (a + b[..last]) + [b[last]];
      TallySnoc(a + b[..last], b[last], m);
      TallyConcat(a, b[..last], m);
    }
  }

  lemma {:induction false} TotalSnoc(marks: seq<Mark>, last: Mark, top: nat)
    ensures Total(marks + [last], top) == Total(marks, top) + if last.Some? && last.value <= top then 1 else 0
  {
    TallySnoc(marks, last, Some(top));
    if top > 0 {
      TotalSnoc(marks, last, top - 1);
    }
  }

  /** Every event is in exactly one bucket or outside. */
  lemma {:induction false} Conserved(marks: seq<Mark>, count: nat)
    requires InRange(marks, count)
    ensures Total(marks, count) + Tally(marks, None) == |marks|
  {
    if marks == [] {
      NoTotal(count);
    } else {
      var last := |marks| - 1;
      assert marks == marks[..last] + [marks[last]];
      Conserved(marks[..last], count);
      TotalSnoc(marks[..last], marks[last], count);
    }
  }

  lemma {:induction false} NoTotal(top: nat)
    ensures Total([], top) == 0
  {
    if top > 0 {
      NoTotal(top - 1);
    }
  }

  // ----- counters -----

  /** One count per bucket. */
  predicate Counts(counts: seq<nat>, marks: seq<Mark>, count: nat) {
    |counts| == count + 1 && forall b | 0 <= b <= count :: counts[b] == Tally(marks, Some(b))
  }

  function Sum(counts: seq<nat>): nat {
    if counts == [] then 0 else Sum(counts[..|counts| - 1]) + counts[|counts| - 1]
  }

  lemma {:induction false} SumIsTotal(counts: seq<nat>, marks: seq<Mark>, top: nat)
    requires Counts(counts, marks, top)
    ensures Sum(counts) == Total(marks, top)
  {
    if top == 0 {
      assert counts[..0] == [];
    } else {
      SumIsTotal(counts[..top], marks, top - 1);
    }
  }

  /** What a counter's `+= 1` in the chosen bucket does. */
  function Bump(counts: seq<nat>, m: Mark): (r: seq<nat>)
    requires m.Some? ==> m.value < |counts|
    ensures |r| == |counts|
  {
    if m.Some? then counts[m.value := counts[m.value] + 1] else counts
  }

  lemma BumpCounts(counts: seq<nat>, marks: seq<Mark>, m: Mark, count: nat)
    requires Counts(counts, marks, count) && (m.Some? ==> m.value <= count)
    ensures Counts(Bump(counts, m), marks + [m], count)
  {
  }
}
