/** The 36-cell frame-ID code: sync 1010, a 24-bit ID, and its CRC with generator
    x^8 + x^2 + x + 1 (the generator of the header error control sequence in
    ITU-T I.432.1, here without the coset). Cells are booleans, true for light. */
module FrameCode {

  // ----- the register, bit by bit -----

  /** A polynomial of degree below 8, most significant coefficient first. */
  datatype Reg = Reg(b7: bool, b6: bool, b5: bool, b4: bool, b3: bool, b2: bool, b1: bool, b0: bool)

  const ZERO := Reg(false, false, false, false, false, false, false, false)
  const ONE := Reg(false, false, false, false, false, false, false, true)

  function Add(r: Reg, s: Reg): Reg {
    Reg(r.b7 != s.b7, r.b6 != s.b6, r.b5 != s.b5, r.b4 != s.b4,
        r.b3 != s.b3, r.b2 != s.b2, r.b1 != s.b1, r.b0 != s.b0)
  }

  /** Multiplication by x modulo the generator. */
  function Shift(r: Reg): Reg {
    Reg(r.b6, r.b5, r.b4, r.b3, r.b2, r.b1 != r.b7, r.b0 != r.b7, r.b7)
  }

  function Shifts(r: Reg, n: nat): Reg {
    if n == 0 then r else Shift(Shifts(r, n - 1))
  }

  function Feed(r: Reg, cell: bool): Reg {
    Reg(r.b6, r.b5, r.b4, r.b3, r.b2, r.b1 != r.b7, r.b0 != r.b7, r.b7 != cell)
  }

  /** The remainder after feeding the cells, most significant first, into a register. */
  function Rem(r: Reg, cells: seq<bool>): Reg
    decreases |cells|
  {
    if cells == [] then r else Rem(Feed(r, cells[0]), cells[1..])
  }

  // ----- rows of cells -----

  function Xor(a: seq<bool>, b: seq<bool>): (c: seq<bool>)
    requires |a| == |b|
    ensures |c| == |a|
  {
    if a == [] then [] else [a[0] != b[0]] + Xor(a[1..], b[1..])
  }

  function Weight(cells: seq<bool>): nat {
    if cells == [] then 0 else (if cells[0] then 1 else 0) + Weight(cells[1..])
  }

  /** In how many cells two rows differ. */
  function Distance(a: seq<bool>, b: seq<bool>): nat
    requires |a| == |b|
  {
    Weight(Xor(a, b))
  }

  lemma {:induction false} RemAppend(r: Reg, a: seq<bool>, b: seq<bool>)
    ensures Rem(r, a + b) == Rem(Rem(r, a), b)
    decreases |a|
  {
    if a == [] {
      assert a + b == b;
    } else {
      assert (a + b)[1..] == a[1..] + b;
      RemAppend(Feed(r, a[0]), a[1..], b);
    }
  }

  lemma FeedLinear(r: Reg, s: Reg, x: bool, y: bool)
    ensures Feed(Add(r, s), x != y) == Add(Feed(r, x), Feed(s, y))
  {
  }

  lemma RemUnfolds(r: Reg, cells: seq<bool>)
    requires cells != []
    ensures Rem(r, cells) == Rem(Feed(r, cells[0]), cells[1..])
  {
  }

  lemma XorUnfolds(a: seq<bool>, b: seq<bool>)
    requires |a| == |b| && a != []
    ensures Xor(a, b)[0] == (a[0] != b[0]) && Xor(a, b)[1..] == Xor(a[1..], b[1..])
  {
  }

  lemma {:induction false} RemLinear(r: Reg, s: Reg, a: seq<bool>, b: seq<bool>, c: seq<bool>, t: Reg)
    requires |a| == |b| && c == Xor(a, b) && t == Add(r, s)
    ensures Rem(t, c) == Add(Rem(r, a), Rem(s, b))
    decreases |a|
  {
    if a != [] {
      FeedLinear(r, s, a[0], b[0]);
      XorUnfolds(a, b);
      RemUnfolds(r, a);
      RemUnfolds(s, b);
      RemUnfolds(t, c);
      RemLinear(Feed(r, a[0]), Feed(s, b[0]), a[1..], b[1..], c[1..], Feed(t, c[0]));
    }
  }

  lemma {:induction false} WeightAppend(a: seq<bool>, b: seq<bool>)
    ensures Weight(a + b) == Weight(a) + Weight(b)
  {
    if a == [] {
      assert a + b == b;
    } else {
      assert (a + b)[1..] == a[1..] + b;
      WeightAppend(a[1..], b);
    }
  }

  lemma {:induction false} XorAppend(a: seq<bool>, b: seq<bool>, c: seq<bool>, d: seq<bool>)
    requires |a| == |b| && |c| == |d|
    ensures Xor(a + c, b + d) == Xor(a, b) + Xor(c, d)
  {
    if a == [] {
      assert a + c == c && b + d == d;
    } else {
      assert (a + c)[1..] == a[1..] + c && (b + d)[1..] == b[1..] + d;
      XorAppend(a[1..], b[1..], c, d);
    }
  }

  lemma {:induction false} ZeroDistance(a: seq<bool>, b: seq<bool>)
    requires |a| == |b|
    ensures Distance(a, b) == 0 <==> a == b
  {
    if a != [] {
      ZeroDistance(a[1..], b[1..]);
      assert Xor(a, b)[1..] == Xor(a[1..], b[1..]);
      assert a == [a[0]] + a[1..] && b == [b[0]] + b[1..];
    }
  }

  // ----- minimum distance -----

  predicate Odd(r: Reg) {
    r.b7 != (r.b6 != (r.b5 != (r.b4 != (r.b3 != (r.b2 != (r.b1 != r.b0))))))
  }

  /** The generator has the factor x + 1, so the register's parity counts the lit cells. */
  lemma {:induction false} Parity(r: Reg, cells: seq<bool>)
    ensures Odd(Rem(r, cells)) <==> (Odd(r) != (Weight(cells) % 2 == 1))
    decreases |cells|
  {
    if cells != [] {
      FeedParity(r, cells[0]);
      Parity(Feed(r, cells[0]), cells[1..]);
    }
  }

  lemma FeedParity(r: Reg, cell: bool)
    ensures Odd(Feed(r, cell)) <==> Odd(r) != cell
  {
  }

  lemma Snoc(cells: seq<bool>)
    requires cells != []
    ensures var last := |cells| - 1;
            && Rem(ZERO, cells) == Feed(Rem(ZERO, cells[..last]), cells[last])
            && Weight(cells) == Weight(cells[..last]) + (if cells[last] then 1 else 0)
  {
    var last := |cells| - 1;
    assert cells == cells[..last] + [cells[last]];
    RemAppend(ZERO, cells[..last], [cells[last]]);
    WeightAppend(cells[..last], [cells[last]]);
  }

  lemma {:induction false} NoCells(cells: seq<bool>)
    requires Weight(cells) == 0
    ensures Rem(ZERO, cells) == ZERO
    decreases |cells|
  {
    if cells != [] {
      NoCells(cells[1..]);
    }
  }

  /** A lone cell leaves a power of x. */
  lemma {:induction false} LoneCell(cells: seq<bool>) returns (n: nat)
    requires Weight(cells) == 1
    ensures n < |cells| && Rem(ZERO, cells) == Shifts(ONE, n)
    decreases |cells|
  {
    var last := |cells| - 1;
    Snoc(cells);
    if cells[last] {
      n := 0;
      NoCells(cells[..last]);
    } else {
      var m := LoneCell(cells[..last]);
      n := m + 1;
    }
  }

  lemma {:induction false} ShiftsAdd(r: Reg, m: nat, n: nat)
    ensures Shifts(r, m + n) == Shifts(Shifts(r, m), n)
  {
    if n > 0 {
      ShiftsAdd(r, m, n - 1);
    }
  }

  /** Four steps at once, so that the powers below stay cheap to evaluate. */
  lemma Shifts4(r: Reg)
    ensures Shifts(r, 4) == Shift(Shift(Shift(Shift(r))))
  {
    assert Shifts(r, 2) == Shift(Shifts(r, 1));
    assert Shifts(r, 3) == Shift(Shifts(r, 2));
  }

  /** None of x^1 to x^31 is 1 modulo the generator (the first that is, is x^127). */
  lemma PowersDiffer(n: nat)
    requires 1 <= n < 32
    ensures Shifts(ONE, n) != ONE
  {
    var q, k := n / 4, n % 4;
    ShiftsAdd(ONE, 4 * q, k);
    PowersOf4(q);
    NearPower4(q);
    assert Shifts(Shifts(ONE, 4 * q), 1) == Shift(Shifts(ONE, 4 * q));
    assert Shifts(Shifts(ONE, 4 * q), 2) == Shift(Shift(Shifts(ONE, 4 * q)));
    assert Shifts(Shifts(ONE, 4 * q), 3) == Shift(Shift(Shift(Shifts(ONE, 4 * q))));
  }

  /** x^0, x^4, ..., x^28 modulo the generator. */
  function Power4(q: nat): Reg
    requires q < 8
  {
    match q
    case 0 => ONE
    case 1 => Reg(false, false, false, true, false, false, false, false)
    case 2 => Reg(false, false, false, false, false, true, true, true)
    case 3 => Reg(false, true, true, true, false, false, false, false)
    case 4 => Reg(false, false, false, true, false, true, false, true)
    case 5 => Reg(false, true, false, true, false, true, true, true)
    case 6 => Reg(false, true, true, false, true, false, true, true)
    case 7 => Reg(true, false, true, false, false, false, true, false)
  }

  lemma Power4Next(q: nat)
    requires q < 7
    ensures Power4(q + 1) == Shift(Shift(Shift(Shift(Power4(q)))))
  {
  }

  lemma {:induction false} PowersOf4(q: nat)
    requires q < 8
    ensures Shifts(ONE, 4 * q) == Power4(q)
  {
    if q > 0 {
      PowersOf4(q - 1);
      NextPower4(q - 1, 4 * (q - 1), 4 * q);
    }
  }

  lemma NextPower4(q: nat, n: nat, m: nat)
    requires q < 7 && m == n + 4 && Shifts(ONE, n) == Power4(q)
    ensures Shifts(ONE, m) == Power4(q + 1)
  {
    ShiftsAdd(ONE, n, 4);
    Shifts4(Shifts(ONE, n));
    Power4Next(q);
  }

  /** None of those powers, nor the three after each, is 1 again. */
  lemma NearPower4(q: nat)
    requires q < 8
    ensures q > 0 ==> Power4(q) != ONE
    ensures Shift(Power4(q)) != ONE && Shift(Shift(Power4(q))) != ONE && Shift(Shift(Shift(Power4(q)))) != ONE
  {
  }

  lemma {:induction false} TwoCells(cells: seq<bool>)
    requires Weight(cells) == 2 && |cells| <= 32
    ensures Rem(ZERO, cells) != ZERO
    decreases |cells|
  {
    var last := |cells| - 1;
    Snoc(cells);
    if cells[last] {
      var n := LoneCell(cells[..last]);
      PowersDiffer(n + 1);
      assert Shifts(ONE, n + 1) == Shift(Shifts(ONE, n));
    } else {
      TwoCells(cells[..last]);
    }
  }

  /** No error pattern of one to three cells in a 32-cell word has remainder zero. */
  lemma FewCellsShow(cells: seq<bool>)
    requires |cells| <= 32 && 1 <= Weight(cells) <= 3
    ensures Rem(ZERO, cells) != ZERO
  {
    if Weight(cells) == 2 {
      TwoCells(cells);
    } else {
      Parity(ZERO, cells);
    }
  }
}
