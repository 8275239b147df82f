/** The two clock bridges of the cadence measurement: `bridge` in score.py maps device
    nanoseconds to host nanoseconds, and `receive_monotonic_ns` in receive-clock.h maps a
    receive time of the native clock to the host clock. Times are exact integers; the
    true clocks they sample are reals. */
module Clock {
  import opened Options
  import opened Arithmetic

  /** One sample: a device reading taken between two host readings. */
  datatype Sample = Sample(device: int, hostBefore: int, hostAfter: int)

  datatype Bridge = Bridge(deviceA: int, hostA: int, deviceB: int, hostB: int)

  function Middle(s: Sample): int {
    (s.hostBefore + s.hostAfter) / 2
  }

  predicate Valid(b: Bridge) {
    b.deviceA < b.deviceB && b.hostA < b.hostB
  }

  /** `bridge`: None where the source raises. */
  function MakeBridge(before: Sample, after: Sample): (r: Option<Bridge>)
    ensures r.Some? <==> before.device < after.device && Middle(before) < Middle(after)
    ensures r.Some? ==> Valid(r.value)
  {
    var b := Bridge(before.device, Middle(before), after.device, Middle(after));
    if Valid(b) then Some(b) else None
  }

  function Max(a: int, b: int): int {
    if a < b then b else a
  }

  /** The reported uncertainty: half the wider bracket, in nanoseconds. */
  function HalfWidth(before: Sample, after: Sample): real {
    Max(before.hostAfter - before.hostBefore, after.hostAfter - after.hostBefore) as real / 2.0
  }

  /** The conversion that `bridge` returns: floored linear interpolation. */
  function ToHost(b: Bridge, ns: int): int
    requires Valid(b)
  {
    b.hostA + (ns - b.deviceA) * (b.hostB - b.hostA) / (b.deviceB - b.deviceA)
  }

  lemma DivisionMonotone(a: int, b: int, d: int)
    requires a <= b && d > 0
    ensures a / d <= b / d
  {
    var p, q := a / d, b / d;
    assert a == d * p + a % d && b == d * q + b % d;
    if q < p {
      TimesMonotone(q + 1, p, d);
    }
  }

  lemma ExactDivision(a: int, d: int)
    requires d > 0
    ensures d * a / d == a
  {
    var q := d * a / d;
    assert d * a == d * q + d * a % d;
    if q < a {
      TimesMonotone(q + 1, a, d);
    } else if q > a {
      TimesMonotone(a + 1, q, d);
    }
  }

  lemma InterpolationOrder(x: int, y: int, h: int, d: int)
    requires x <= y && h >= 0 && d > 0
    ensures x * h / d <= y * h / d
  {
    TimesMonotone(x, y, h);
    DivisionMonotone(x * h, y * h, d);
  }

  /** The conversion never reverses time, and meets both samples exactly. */
  lemma BridgeMonotoneAndExact(b: Bridge, m: int, n: int)
    requires Valid(b) && m <= n
    ensures ToHost(b, m) <= ToHost(b, n)
    ensures ToHost(b, b.deviceA) == b.hostA && ToHost(b, b.deviceB) == b.hostB
  {
    InterpolationOrder(m - b.deviceA, n - b.deviceA, b.hostB - b.hostA, b.deviceB - b.deviceA);
    BridgeMeets(b);
  }

  lemma BridgeMeets(b: Bridge)
    requires Valid(b)
    ensures ToHost(b, b.deviceA) == b.hostA && ToHost(b, b.deviceB) == b.hostB
  {
    ExactDivision(b.hostB - b.hostA, b.deviceB - b.deviceA);
    assert (b.deviceA - b.deviceA) * (b.hostB - b.hostA) == 0;
  }

  // ----- the interpolation error -----

  /** The true host time of a device reading, when both clocks run evenly. */
  function True(offset: real, rate: real, device: int): real {
    offset + rate * device as real
  }

  /** The device reading of the sample was taken inside its bracket. */
  predicate Brackets(s: Sample, offset: real, rate: real) {
    s.hostBefore as real <= True(offset, rate, s.device) <= s.hostAfter as real
  }

  lemma MiddleError(s: Sample, offset: real, rate: real, half: real)
    requires Brackets(s, offset, rate) && (s.hostAfter - s.hostBefore) as real <= 2.0 * half
    ensures -half - 0.5 <= Middle(s) as real - True(offset, rate, s.device) <= half
  {
  }

  lemma PartOf(t: real, d: real, v: real)
    requires 0.0 <= t <= 1.0 && v == t * d
    ensures d >= 0.0 ==> 0.0 <= v <= d
    ensures d <= 0.0 ==> d <= v <= 0.0
  {
  }

  /** A mix of two errors stays between their bounds. */
  lemma Mixed(a: real, b: real, t: real, lo: real, hi: real)
    requires 0.0 <= t <= 1.0 && lo <= a <= hi && lo <= b <= hi
    ensures lo <= a + t * (b - a) <= hi
  {
    var v := t * (b - a);
    PartOf(t, b - a, v);
    assert lo <= a + v <= hi;
  }

  lemma FlooredDivision(n: int, d: int)
    requires d > 0
    ensures n as real / d as real - 1.0 < (n / d) as real <= n as real / d as real
  {
    var q, r := n / d, n % d;
    assert n == d * q + r && 0 <= r < d;
    var real_q, real_d := q as real, d as real;
    assert n as real == (d * q) as real + r as real;
    ProductReal(d, q);
    assert n as real / real_d == real_q + r as real / real_d by {
      Quotient(n as real, real_d, real_q + r as real / real_d, real_q, r as real);
    }
    Proper(r as real, real_d);
  }

  lemma Quotient(n: real, d: real, v: real, q: real, r: real)
    requires d > 0.0 && n == d * q + r && v == q + r / d
    ensures n / d == v
  {
  }

  lemma Proper(r: real, d: real)
    requires 0.0 <= r < d
    ensures 0.0 <= r / d < 1.0
  {
  }

  lemma ProductReal(a: int, b: int)
    ensures (a * b) as real == a as real * b as real
  {
  }

  /** The interpolated host time before it is floored. */
  function Exact(b: Bridge, ns: int): real
    requires Valid(b)
  {
    b.hostA as real + (ns - b.deviceA) as real * (b.hostB - b.hostA) as real / (b.deviceB - b.deviceA) as real
  }

  lemma FlooredToHost(b: Bridge, ns: int)
    requires Valid(b)
    ensures Exact(b, ns) - 1.0 < ToHost(b, ns) as real <= Exact(b, ns)
  {
    var n, h, d := ns - b.deviceA, b.hostB - b.hostA, b.deviceB - b.deviceA;
    var floored, exact := n * h / d, n as real * h as real / d as real;
    FlooredProduct(n, h, d);
    assert Exact(b, ns) == b.hostA as real + exact;
    assert ToHost(b, ns) == b.hostA + floored;
    assert (b.hostA + floored) as real == b.hostA as real + floored as real;
  }

  lemma FlooredProduct(n: int, h: int, d: int)
    requires d > 0
    ensures var exact := n as real * h as real / d as real; exact - 1.0 < (n * h / d) as real <= exact
  {
    FlooredDivision(n * h, d);
    ProductReal(n, h);
    assert (n * h) as real / d as real == n as real * h as real / d as real;
  }

  /** Interpolation errs between the errors of its two ends. */
  lemma ExactError(b: Bridge, offset: real, rate: real, ns: int, lo: real, hi: real)
    requires Valid(b) && b.deviceA <= ns <= b.deviceB
    requires lo <= b.hostA as real - True(offset, rate, b.deviceA) <= hi
    requires lo <= b.hostB as real - True(offset, rate, b.deviceB) <= hi
    ensures lo <= Exact(b, ns) - True(offset, rate, ns) <= hi
  {
    var n, d, h := (ns - b.deviceA) as real, (b.deviceB - b.deviceA) as real, (b.hostB - b.hostA) as real;
    assert b.deviceA as real + d == b.deviceB as real && b.deviceA as real + n == ns as real;
    InterpolationError(offset, rate, b.deviceA as real, d, n, b.hostA as real, h, n * h / d, lo, hi);
  }

  /** Between the samples, the converted time errs by at most the reported half-width
      plus the two roundings: half a nanosecond for the middles, one for the division. */
  lemma BridgeError(before: Sample, after: Sample, b: Bridge, offset: real, rate: real, ns: int)
    requires MakeBridge(before, after) == Some(b)
    requires Brackets(before, offset, rate) && Brackets(after, offset, rate)
    requires b.deviceA <= ns <= b.deviceB
    ensures var error := ToHost(b, ns) as real - True(offset, rate, ns);
            -HalfWidth(before, after) - 1.5 < error <= HalfWidth(before, after)
  {
    var half := HalfWidth(before, after);
    MiddleError(before, offset, rate, half);
    MiddleError(after, offset, rate, half);
    ExactError(b, offset, rate, ns, -half - 0.5, half);
    FlooredToHost(b, ns);
  }

  lemma InterpolationError(offset: real, rate: real, a: real, d: real, n: real, host: real, h: real, exact: real,
                           lo: real, hi: real)
    requires 0.0 <= n <= d && d > 0.0 && exact == n * h / d
    requires lo <= host - (offset + rate * a) <= hi
    requires lo <= host + h - (offset + rate * (a + d)) <= hi
    ensures lo <= host + exact - (offset + rate * (a + n)) <= hi
  {
    var t := n / d;
    assert t * d == n;
    assert 0.0 <= t <= 1.0;
    Mixed(host - (offset + rate * a), host + h - (offset + rate * (a + d)), t, lo, hi);
    Interpolated(offset, rate, a, d, n, host, h, t);
  }

  lemma Interpolated(offset: real, rate: real, a: real, d: real, n: real, host: real, h: real, t: real)
    requires d > 0.0 && t == n / d
    ensures var ea := host - (offset + rate * a);
            var eb := host + h - (offset + rate * (a + d));
            host + n * h / d - (offset + rate * (a + n)) == ea + t * (eb - ea)
  {
  }

  // ----- receive_monotonic_ns -----

  newtype uint64 = x: int | 0 <= x < 0x1_0000_0000_0000_0000

  /** The native receive time on the host clock, or None where the source refuses. Every
      intermediate value is a 64-bit unsigned integer, so nothing wraps. */
  method ReceiveMonotonic(before: uint64, after: uint64, nativeNow: uint64, receive: uint64)
    returns (result: Option<uint64>)
    ensures result == ReceiveSpec(before as int, after as int, nativeNow as int, receive as int)
  {
    if after < before || nativeNow < receive {
      return None;
    }
    var midpoint := before + (after - before) / 2;
    var delay := nativeNow - receive;
    if delay > midpoint / 1000 {
      return None;
    }
    return Some(midpoint - delay * 1000);
  }

  function ReceiveSpec(before: int, after: int, nativeNow: int, receive: int): (r: Option<uint64>)
  {
    var midpoint := before + (after - before) / 2;
    var delay := nativeNow - receive;
    if 0 <= before <= after < 0x1_0000_0000_0000_0000 && receive <= nativeNow && delay * 1000 <= midpoint
    then Some((midpoint - delay * 1000) as uint64) else None
  }

  /** The native clock counts whole microseconds of a clock that runs evenly with the host's. */
  predicate NativeReads(offset: real, host: real, reading: int) {
    reading as real <= host / 1000.0 + offset < reading as real + 1.0
  }

  /** The bridged receive time errs by less than half its bracket plus a microsecond and a half. */
  lemma ReceiveError(before: int, after: int, nativeNow: int, receive: int, offset: real, sampled: real, received: real)
    requires ReceiveSpec(before, after, nativeNow, receive).Some?
    requires before as real <= sampled <= after as real
    requires NativeReads(offset, sampled, nativeNow) && NativeReads(offset, received, receive)
    ensures var error := ReceiveSpec(before, after, nativeNow, receive).value as real - received;
            var half := (after - before) as real / 2.0;
            -half - 1000.5 < error < half + 1000.0
  {
  }

  // ----- a latency sample -----

  /** `score` truncates the receive time to whole milliseconds and subtracts the bridged
      presentation time; both bounds together bound the sample. */
  lemma LatencyError(bridge: Bridge, before: Sample, after: Sample, offset: real, rate: real, present: int,
                     hostBefore: int, hostAfter: int, nativeNow: int, receive: int,
                     nativeOffset: real, sampled: real, received: real)
    requires MakeBridge(before, after) == Some(bridge)
    requires Brackets(before, offset, rate) && Brackets(after, offset, rate)
    requires bridge.deviceA <= present <= bridge.deviceB
    requires ReceiveSpec(hostBefore, hostAfter, nativeNow, receive).Some?
    requires hostBefore as real <= sampled <= hostAfter as real
    requires NativeReads(nativeOffset, sampled, nativeNow) && NativeReads(nativeOffset, received, receive)
    ensures var stamp := ReceiveSpec(hostBefore, hostAfter, nativeNow, receive).value as int / 1_000_000 * 1_000_000;
            var measured := stamp - ToHost(bridge, present);
            var latency := received - True(offset, rate, present);
            var slack := HalfWidth(before, after) + (hostAfter - hostBefore) as real / 2.0;
            -slack - 1_001_000.5 < measured as real - latency < slack + 1_001.5
  {
    BridgeError(before, after, bridge, offset, rate, present);
    ReceiveError(hostBefore, hostAfter, nativeNow, receive, nativeOffset, sampled, received);
    var ns := ReceiveSpec(hostBefore, hostAfter, nativeNow, receive).value as int;
    assert ns == ns / 1_000_000 * 1_000_000 + ns % 1_000_000;
  }
}
